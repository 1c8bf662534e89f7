/** The YOLOv8 ball helper: camera frame to ARGB bitmap (no fallback), bitmap to the model's
    input, quantised or float packing by input type, a single-class decoder that reports the
    first candidate above the threshold, label-based class resolution with a two-attempt
    model load, and cumulative inference-latency counters. */
module BallDetection {
  import opened Wrappers
  import opened Text
  import opened Geometry
  import opened ColorConversion
  import opened TensorPacking
  import opened Engine
  import MoveNet

  /** A candidate is reported when its ball-class score is strictly above this. */
  const BallThreshold: real := 0.10
  const BallTag: string := "soccer_ball"
  const LoadFail: string := "LOAD_FAIL"
  const ImageConversionError: string := "IMAGE_CONVERSION_ERROR"

  /** A reported ball. */
  datatype BallDetection = BallDetection(tag: string, confidence: real, box: Box)

  // ---------------------------------------------------------------- box decoding

  /** Centre format `(x, y, w, h)` to corners: the centre and the size can be read back. */
  function Corners(x: real, y: real, w: real, h: real): (b: Box)
    ensures (b.x1 + b.x2) / 2.0 == x && (b.y1 + b.y2) / 2.0 == y
    ensures b.x2 - b.x1 == w && b.y2 - b.y1 == h
  {
    Box(x - w / 2.0, y - h / 2.0, x + w / 2.0, y + h / 2.0)
  }

  /** The front-camera mirror `(x1, x2) -> (1 - x2, 1 - x1)`: the box keeps its width and its
      rows, and its centre is reflected about `x = 1/2`. */
  function Mirror(b: Box): (m: Box)
    ensures m.y1 == b.y1 && m.y2 == b.y2
    ensures m.x2 - m.x1 == b.x2 - b.x1
    ensures (m.x1 + m.x2) / 2.0 == 1.0 - (b.x1 + b.x2) / 2.0
  {
    Box(1.0 - b.x2, b.y1, 1.0 - b.x1, b.y2)
  }

  /** Mirroring twice gives the box back, and mirroring keeps a box ordered and inside the
      unit square. */
  lemma MirrorInvolution(b: Box)
    ensures Mirror(Mirror(b)) == b
    ensures Ordered(b) ==> Ordered(Mirror(b))
    ensures InUnitSquare(b) ==> InUnitSquare(Mirror(b))
  {
  }

  /** Every coordinate cut to [0, 1]: the result is in the unit square, and a box already
      inside is unchanged. */
  function Clip(b: Box): (c: Box)
    ensures InUnitSquare(c)
    ensures InUnitSquare(b) ==> c == b
  {
    Box(Clamp01(b.x1), Clamp01(b.y1), Clamp01(b.x2), Clamp01(b.y2))
  }

  /** Clipping keeps the corners in order. */
  lemma ClipKeepsOrder(b: Box)
    requires Ordered(b)
    ensures Ordered(Clip(b))
  {
    Clamp01Monotone(b.x1, b.x2);
    Clamp01Monotone(b.y1, b.y2);
  }

  /** The box of a candidate: corners, the mirror for the front camera, then the clip.  The
      rows are the clipped `y -+ h/2`; the columns are the clipped `x -+ w/2`, or for the front
      camera the clipped reflections `1 - (x +- w/2)`. */
  function CandidateBox(x: real, y: real, w: real, h: real, front: bool): (c: Box)
    ensures InUnitSquare(c)
    ensures c.y1 == Clamp01(y - h / 2.0) && c.y2 == Clamp01(y + h / 2.0)
    ensures !front ==> c.x1 == Clamp01(x - w / 2.0) && c.x2 == Clamp01(x + w / 2.0)
    ensures front ==> c.x1 == Clamp01(1.0 - (x + w / 2.0)) && c.x2 == Clamp01(1.0 - (x - w / 2.0))
  {
    var b := Corners(x, y, w, h);
    Clip(if front then Mirror(b) else b)
  }

  /** A candidate with non-negative size gives an ordered box inside the unit square,
      mirrored or not. */
  lemma CandidateBoxOrdered(x: real, y: real, w: real, h: real, front: bool)
    requires w >= 0.0 && h >= 0.0
    ensures InUnitSquare(CandidateBox(x, y, w, h, front)) && Ordered(CandidateBox(x, y, w, h, front))
  {
    var b := Corners(x, y, w, h);
    MirrorInvolution(b);
    ClipKeepsOrder(if front then Mirror(b) else b);
  }

  // ---------------------------------------------------------------- candidate decoding

  /** The rows of `output[0]`: `x, y, w, h`, then one score row per class, each holding one
      value per candidate. */
  predicate Rectangular(grid: seq<seq<real>>, candidates: nat) {
    forall r :: 0 <= r < |grid| ==> |grid[r]| == candidates
  }

  /** The class id selects a score row: `0 <= id < outputShape[1] - 4`. */
  predicate ValidClass(classId: int, rows: int) {
    0 <= classId < rows - 4
  }

  predicate AboveThreshold(score: real) {
    score > BallThreshold
  }

  /** The score row of the class. */
  function ScoreRow(grid: seq<seq<real>>, classId: int): seq<real>
    requires ValidClass(classId, |grid|)
  {
    grid[classId + 4]
  }

  /** The detection made from candidate `i`. */
  function DetectionAt(grid: seq<seq<real>>, candidates: nat, classId: int, i: nat, front: bool): BallDetection
    requires Rectangular(grid, candidates) && ValidClass(classId, |grid|) && i < candidates
  {
    BallDetection(BallTag, ScoreRow(grid, classId)[i],
                  CandidateBox(grid[0][i], grid[1][i], grid[2][i], grid[3][i], front))
  }

  /** The decoder's result: at most one ball, present iff the class is valid and some candidate
      scores above the threshold, and then made from the lowest such candidate, with that
      score as its confidence.  There is no suppression among candidates. */
  function BallDetections(grid: seq<seq<real>>, candidates: nat, classId: int, front: bool): (ds: seq<BallDetection>)
    requires Rectangular(grid, candidates)
    ensures |ds| <= 1
    ensures !ValidClass(classId, |grid|) ==> ds == []
    ensures ds != [] <==> (ValidClass(classId, |grid|) &&
      exists i :: 0 <= i < candidates && AboveThreshold(ScoreRow(grid, classId)[i]))
    ensures ds != [] ==>
      exists i :: 0 <= i < candidates && AboveThreshold(ScoreRow(grid, classId)[i])
        && (forall j :: 0 <= j < i ==> !AboveThreshold(ScoreRow(grid, classId)[j]))
        && ds[0] == DetectionAt(grid, candidates, classId, i, front)
    ensures ds != [] ==> ds[0].tag == BallTag && ds[0].confidence > BallThreshold && InUnitSquare(ds[0].box)
  {
    if !ValidClass(classId, |grid|) then []
    else match FirstIndex(ScoreRow(grid, classId), AboveThreshold)
      case None => []
      case Some(i) => [DetectionAt(grid, candidates, classId, i, front)]
  }

  /** The candidate loop of `detectBall`: scans candidates in order and stops at the first
      whose ball score is above the threshold. */
  method DecodeBall(grid: seq<seq<real>>, candidates: nat, classId: int, front: bool)
    returns (detections: seq<BallDetection>)
    requires Rectangular(grid, candidates)
    ensures detections == BallDetections(grid, candidates, classId, front)
  {
    detections := [];
    var numClasses := |grid| - 4;
    for i := 0 to candidates
      invariant ValidClass(classId, |grid|) ==> forall j :: 0 <= j < i ==> !AboveThreshold(ScoreRow(grid, classId)[j])
    {
      if classId >= 0 && classId < numClasses {
        var score := grid[classId + 4][i];
        if score > BallThreshold {
          var x, y, w, h := grid[0][i], grid[1][i], grid[2][i], grid[3][i];
          var x1, y1, x2, y2 := x - w / 2.0, y - h / 2.0, x + w / 2.0, y + h / 2.0;
          if front {
            var temp := 1.0 - x1;
            x1 := 1.0 - x2;
            x2 := temp;
          }
          x1 := Max(0.0, Min(1.0, x1));
          y1 := Max(0.0, Min(1.0, y1));
          x2 := Max(0.0, Min(1.0, x2));
          y2 := Max(0.0, Min(1.0, y2));
          detections := [BallDetection(BallTag, score, Box(x1, y1, x2, y2))];
          assert score == ScoreRow(grid, classId)[i];
          assert Box(x1, y1, x2, y2) == CandidateBox(x, y, w, h, front);
          FirstIndexIs(ScoreRow(grid, classId), AboveThreshold, i);
          assert detections == [DetectionAt(grid, candidates, classId, i, front)];
          return;
        }
      }
    }
  }

  // ---------------------------------------------------------------- class resolution

  /** The label rule: after lower-casing, contains "soccer" or "sports ball", or is "ball". */
  predicate IsBallLabel(entry: string) {
    var l := ToLower(entry);
    Contains(l, "soccer") || Contains(l, "sports ball") || l == "ball"
  }

  /** The class id after a label scan: the lowest index of a ball label, or the previous id
      when no label matches. */
  function ResolvedClass(labels: seq<string>, previous: int): (id: int)
    ensures (exists i :: 0 <= i < |labels| && IsBallLabel(labels[i])) ==>
      0 <= id < |labels| && IsBallLabel(labels[id]) && forall j :: 0 <= j < id ==> !IsBallLabel(labels[j])
    ensures (forall i :: 0 <= i < |labels| ==> !IsBallLabel(labels[i])) ==> id == previous
  {
    match FirstIndex(labels, IsBallLabel)
      case None => previous
      case Some(i) => i
  }

  /** The standard COCO label "sports ball" resolves to its own index when no earlier label
      is a ball label. */
  lemma SportsBallResolves(labels: seq<string>, k: nat, previous: int)
    requires k < |labels| && labels[k] == "sports ball"
    requires forall j :: 0 <= j < k ==> !IsBallLabel(labels[j])
    ensures ResolvedClass(labels, previous) == k
  {
    var l := ToLower(labels[k]);
    assert l == "sports ball";
    assert OccursAt(l, "sports ball", 0);
  }

  /** The label rule on sample labels: the rule ignores case and finds the words inside longer
      labels, but "ball" must be the whole label. */
  lemma BallLabelCases()
    ensures IsBallLabel("ball") && IsBallLabel("BALL")
    ensures IsBallLabel("sports ball") && IsBallLabel("Soccer Ball")
    ensures !IsBallLabel("football") && !IsBallLabel("balls") && !IsBallLabel("person")
  {
    assert ToLower("BALL") == "ball";
    assert ToLower("sports ball") == "sports ball";
    assert OccursAt("sports ball", "sports ball", 0);
    var soccer := ToLower("Soccer Ball");
    assert soccer == "soccer" + " ball";
    assert soccer[0..6] == "soccer";
    assert OccursAt(soccer, "soccer", 0);
    assert ToLower("balls") == "balls";
    var football, person := ToLower("football"), ToLower("person");
    assert football == "football" && person == "person";
    forall i: nat | i <= |football| ensures !OccursAt(football, "soccer", i) {
      if i + 6 <= |football| {
        assert football[i..i + 6][0] == football[i] != 's';
      }
    }
    assert person[0..6][0] == 'p';
  }

  // ---------------------------------------------------------------- latency counters

  function Sum(ts: seq<int>): int {
    if ts == [] then 0 else Sum(ts[..|ts| - 1]) + ts[|ts| - 1]
  }

  /** A sum of non-negative times is non-negative. */
  lemma {:induction false} SumNonNegative(ts: seq<int>)
    requires forall i :: 0 <= i < |ts| ==> ts[i] >= 0
    ensures Sum(ts) >= 0
  {
    if ts != [] {
      SumNonNegative(ts[..|ts| - 1]);
    }
  }

  /** Java's `long` division, which truncates toward zero: Euclidean division for a
      non-negative dividend, and odd in the dividend. */
  function JavaDiv(a: int, b: int): (q: int)
    requires b > 0
    ensures a >= 0 ==> q == a / b
    ensures a < 0 ==> q <= 0
  {
    if a >= 0 then a / b else -((-a) / b)
  }

  /** Negating the dividend negates the quotient. */
  lemma JavaDivOdd(a: int, b: int)
    requires b > 0
    ensures JavaDiv(-a, b) == -JavaDiv(a, b)
  {
    if a == 0 {
      assert 0 / b == 0;
    } else if a > 0 {
      assert JavaDiv(-a, b) == -(a / b);
    } else {
      assert JavaDiv(-a, b) == (-a) / b;
    }
  }

  /** Truncation toward zero: the remainder `a - q * b` has the dividend's sign and is smaller
      than the divisor in magnitude. */
  lemma JavaDivTruncates(a: int, b: int)
    requires b > 0
    ensures a >= 0 ==> 0 <= a - JavaDiv(a, b) * b < b
    ensures a < 0 ==> -b < a - JavaDiv(a, b) * b <= 0
  {
    var n := if a >= 0 then a else -a;
    var q := JavaDiv(n, b);
    EuclideanRemainder(n, b);
    JavaDivOdd(n, b);
    assert a >= 0 ==> JavaDiv(a, b) * b == q * b;
    assert a < 0 ==> JavaDiv(a, b) * b == -(q * b);
  }

  /** For a non-negative dividend, `a - (a / b) * b` is the remainder `a % b`. */
  lemma EuclideanRemainder(n: int, b: int)
    requires n >= 0 && b > 0
    ensures 0 <= n - JavaDiv(n, b) * b < b
  {
    assert n == (n / b) * b + n % b;
  }

  /** `movingAvgInferenceTime` after the inference times `ts`: the truncated mean, 0 before
      the first inference. */
  function AverageLatency(ts: seq<int>): (avg: int)
    ensures ts == [] ==> avg == 0
    ensures |ts| == 1 ==> avg == ts[0]
    ensures ts != [] ==> avg == JavaDiv(Sum(ts), |ts|)
  {
    if ts == [] then 0
    else
      assert |ts| == 1 ==> Sum(ts) == ts[0];
      JavaDiv(Sum(ts), |ts|)
  }

  /** Non-negative inference times give a non-negative average, at most the largest time. */
  lemma AverageLatencyBounds(ts: seq<int>, t: int)
    requires forall i :: 0 <= i < |ts| ==> 0 <= ts[i] <= t
    ensures 0 <= AverageLatency(ts) <= (if ts == [] then 0 else t)
  {
    SumNonNegative(ts);
    if ts != [] {
      var n, total := |ts|, Sum(ts);
      SumAtMost(ts, t);
      JavaDivTruncates(total, n);
      var avg := AverageLatency(ts);
      assert avg * n <= total <= n * t;
      assert (avg - t) * n <= 0;
    }
  }

  /** A sum of times each at most `t` is at most `|ts| * t`. */
  lemma {:induction false} SumAtMost(ts: seq<int>, t: int)
    requires forall i :: 0 <= i < |ts| ==> ts[i] <= t
    ensures Sum(ts) <= |ts| * t
  {
    if ts != [] {
      SumAtMost(ts[..|ts| - 1], t);
    }
  }

  // ---------------------------------------------------------------- frame conversion

  /** The bitmap the ball handler gets from a camera frame: the planar conversion when both
      chroma planes were sent (with no fallback: a failure is `null`), the grayscale one
      otherwise. */
  function BallFrame(luma: seq<uint8>, planes: Option<Chroma>, width: int, height: int): (f: Option<Frame>)
    ensures f.Some? ==> f.value.width == width && f.value.height == height
  {
    if planes.Some? then
      if PlanesConvertible(luma, planes.value, width, height) then
        Some(RawFrame(width, height, PlanarImage(luma, planes.value, width, height)))
      else None
    else if GrayConvertible(luma, width, height) then
      OffsetIsProduct(height, width);
      Some(RawFrame(width, height, GrayImage(luma[..width * height])))
    else None
  }

  /** The two helpers' conversions differ only in failure handling: whenever the ball helper
      converts a frame, the pose helper converts it to the same bitmap, and with chroma
      planes present the ball helper fails exactly when the planes are unusable. */
  lemma ConversionAgreesWithPose(luma: seq<uint8>, planes: Option<Chroma>, width: int, height: int)
    ensures BallFrame(luma, planes, width, height).Some? ==>
      MoveNet.ConvertedFrame(luma, planes, width, height) == BallFrame(luma, planes, width, height)
    ensures planes.Some? ==>
      (BallFrame(luma, planes, width, height).Some? <==> PlanesConvertible(luma, planes.value, width, height))
  {
  }

  /** `yuvPlanesToBitmap` (null on failure) or `yuvToBitmap` when a chroma plane is missing. */
  method ConvertFrame(luma: seq<uint8>, planes: Option<Chroma>, width: int, height: int)
    returns (frame: Option<Frame>)
    ensures frame == BallFrame(luma, planes, width, height)
  {
    if planes.Some? {
      var argb := YuvPlanesToBitmap(luma, planes.value, width, height);
      if argb.None? {
        return None;
      }
      return Some(RawFrame(width, height, argb.value[..]));
    }
    var gray := YuvToBitmap(luma, width, height);
    if gray.None? {
      return None;
    }
    OffsetIsProduct(height, width);
    return Some(RawFrame(width, height, gray.value[..]));
  }

  // ---------------------------------------------------------------- inference

  /** The `float[d0][d1][d2]` output array exactly as allocated from the output shape. */
  predicate Shaped(output: seq<seq<seq<real>>>, d0: int, d1: int, d2: nat) {
    |output| == d0 && forall b :: 0 <= b < |output| ==> |output[b]| == d1 && Rectangular(output[b], d2)
  }

  /** Whether `detectBall` got as far as a completed inference, and its detections. */
  datatype BallRun = BallRun(ran: bool, detections: seq<BallDetection>)

  /** The input tensor of a `count`-slot buffer: bytes for a `UINT8`/`INT8` input, floats
      otherwise. */
  function BallInput(inputType: DataType, pixels: seq<uint32>, count: nat): TensorInput
    requires 3 * |pixels| <= count
  {
    if inputType == UInt8 || inputType == Int8 then Quantized(PackedTensor(pixels, ByteOf, count, 0))
    else Float(PackedTensor(pixels, Normalize, count, 0.0))
  }

  /** A completed run: the engine fills the array allocated from the output shape (any other
      output is the engine's shape error) and the decoder reads batch 0. */
  function DecodedRun(output: seq<seq<seq<real>>>, shape: seq<int>, classId: int, front: bool): (o: BallRun)
    requires |shape| >= 3 && shape[0] >= 0 && shape[1] >= 0 && shape[2] >= 0
    ensures !o.ran ==> o.detections == []
    ensures |o.detections| <= 1
    ensures forall d :: d in o.detections ==> d.tag == BallTag && d.confidence > BallThreshold && InUnitSquare(d.box)
    ensures !ValidClass(classId, shape[1]) ==> o.detections == []
  {
    if !Shaped(output, shape[0], shape[1], shape[2]) then BallRun(false, [])
    else if shape[0] == 0 then BallRun(true, [])
    else BallRun(true, BallDetections(output[0], shape[2], classId, front))
  }

  /** The result of `detectBall` on a bitmap.  The input shape is read as
      `[_, height, width, channels]`; the buffer has `width * height * channels` slots.  A
      missing interpreter, a short shape, a non-positive model size, a negative buffer size, a
      pixel request the scaled bitmap cannot serve, a buffer too small for three values per
      pixel, a bad output shape, or a run that throws all end with no detections and no
      completed inference. */
  function BallOutcome(interpreter: Option<Interpreter>, classId: int, bitmap: Frame, front: bool,
                       scale: (Frame, int, int) -> Frame,
                       run: TensorInput -> RunOutcome<seq<seq<seq<real>>>>): (o: BallRun)
    ensures interpreter.None? ==> o == BallRun(false, [])
    ensures !o.ran ==> o.detections == []
    ensures |o.detections| <= 1
    ensures forall d :: d in o.detections ==> d.tag == BallTag && d.confidence > BallThreshold && InUnitSquare(d.box)
    ensures o.ran ==> |interpreter.value.outputShape| >= 3
    ensures o.ran && !ValidClass(classId, interpreter.value.outputShape[1]) ==> o.detections == []
  {
    if interpreter.None? || |interpreter.value.inputShape| < 4 then BallRun(false, [])
    else
      var model := interpreter.value;
      var height, width, channels := model.inputShape[1], model.inputShape[2], model.inputShape[3];
      var count := width * height * channels;
      var shape := model.outputShape;
      if width <= 0 || height <= 0 || count < 0 then BallRun(false, [])
      else
        var pixels := GetPixels(scale(bitmap, width, height), width, height);
        if pixels.None? || 3 * |pixels.value| > count then BallRun(false, [])
        else if |shape| < 3 || shape[0] < 0 || shape[1] < 0 || shape[2] < 0 then BallRun(false, [])
        else match run(BallInput(model.inputType, pixels.value, count))
          case Threw(_) => BallRun(false, [])
          case Ran(output) => DecodedRun(output, shape, classId, front)
  }

  /** The packing branch of `detectBall`: the buffer packed by input type, or nothing when the
      pixels overflow it. */
  method PackInput(inputType: DataType, pixels: seq<uint32>, count: nat) returns (input: Option<TensorInput>)
    ensures input.Some? <==> 3 * |pixels| <= count
    ensures input.Some? ==> input.value == BallInput(inputType, pixels, count)
  {
    if inputType == UInt8 || inputType == Int8 {
      var bytes := PackPixels(count, 0, pixels, ByteOf);
      if bytes.None? {
        return None;
      }
      return Some(Quantized(bytes.value));
    }
    var floats := PackPixels(count, 0.0, pixels, Normalize);
    if floats.None? {
      return None;
    }
    return Some(Float(floats.value));
  }

  /** With no ball class resolved (`-1`, the initial id) the decoder reports nothing, whatever
      the model outputs. */
  lemma UnresolvedClassFindsNothing(interpreter: Option<Interpreter>, bitmap: Frame, front: bool,
                                    scale: (Frame, int, int) -> Frame,
                                    run: TensorInput -> RunOutcome<seq<seq<seq<real>>>>)
    ensures BallOutcome(interpreter, -1, bitmap, front, scale, run).detections == []
  {
  }

  /** The quantised tensor of `width * height * channels` bytes holds the pixels' channel bytes
      and no zero padding iff the input has three channels. */
  lemma BufferExactlyFull(pixels: seq<uint32>, height: int, width: int, channels: int)
    requires width > 0 && height > 0 && |pixels| == width * height
    requires 3 * |pixels| <= width * height * channels
    ensures PackedTensor(pixels, ByteOf, width * height * channels, 0) == ChannelStream(pixels, ByteOf) <==> channels == 3
  {
    PackedTensorPrefix(pixels, ByteOf, width * height * channels, 0);
    ChannelsFillExactly(height, width, channels);
  }

  /** `3 * (width * height)` slots out of `width * height * channels` are all of them iff
      `channels == 3`. */
  lemma ChannelsFillExactly(height: int, width: int, channels: int)
    requires width > 0 && height > 0
    ensures 3 * (width * height) == width * height * channels <==> channels == 3
  {
    MoveNet.CancelPositive(3, channels, width * height);
    assert width * height * channels == channels * (width * height);
  }

  /** What `Bitmap.createScaledBitmap(_, w, h, _)` guarantees: a `w x h` bitmap. */
  ghost predicate ScalesExactly(scale: (Frame, int, int) -> Frame) {
    forall f: Frame, w: int, h: int | w > 0 && h > 0 :: scale(f, w, h).width == w && scale(f, w, h).height == h
  }

  /** With a scaler that keeps its promise, a positive model size and at least three channels,
      reading the pixels and packing them always succeed; a well-shaped model then completes an
      inference exactly when the engine runs and fills the allocated output. */
  lemma BallRunsUnlessEngineFails(interpreter: Option<Interpreter>, classId: int, bitmap: Frame, front: bool,
                                  scale: (Frame, int, int) -> Frame,
                                  run: TensorInput -> RunOutcome<seq<seq<seq<real>>>>)
    requires ScalesExactly(scale)
    requires interpreter.Some? && |interpreter.value.inputShape| >= 4
    requires interpreter.value.inputShape[1] > 0 && interpreter.value.inputShape[2] > 0 && interpreter.value.inputShape[3] >= 3
    requires |interpreter.value.outputShape| >= 3
    requires interpreter.value.outputShape[0] >= 0 && interpreter.value.outputShape[1] >= 0 && interpreter.value.outputShape[2] >= 0
    ensures var model := interpreter.value;
      var height, width, channels := model.inputShape[1], model.inputShape[2], model.inputShape[3];
      var pixels := GetPixels(scale(bitmap, width, height), width, height);
      && pixels.Some? && |pixels.value| == width * height
      && 3 * |pixels.value| <= width * height * channels
      && var out := run(BallInput(model.inputType, pixels.value, width * height * channels));
         (BallOutcome(interpreter, classId, bitmap, front, scale, run).ran <==>
           out.Ran? && Shaped(out.output, model.outputShape[0], model.outputShape[1], model.outputShape[2]))
  {
    var model := interpreter.value;
    var height, width, channels := model.inputShape[1], model.inputShape[2], model.inputShape[3];
    var scaled := scale(bitmap, width, height);
    assert scaled.width == width && scaled.height == height;
    var pixels := GetPixels(scaled, width, height);
    MoveNet.FloatBufferLargeEnough(pixels.value, height, width, channels);
    assert width * height * channels >= 0;
  }

  /** The reply of the `detectBall` channel call. */
  datatype BallReply = BallSuccess(detections: seq<BallDetection>) | BallError(code: string)

  /** The state `loadModels` changes. */
  datatype LoadState = LoadState(interpreter: Option<Interpreter>, gpuDelegate: Option<GpuDelegate>,
                                 labels: Option<seq<string>>, classId: int)

  /** `loadModels` with its fallback.  A missing path fails (`LOAD_FAIL`).  Otherwise the
      delegate field takes a newly created GPU delegate, and the model is opened with the
      preferred options and the labels read; the first success assigns the interpreter at
      once.  If the open or the label read failed, the model is opened again with the
      minimal options and the labels read again; a failure there ends in `LOAD_FAIL` with
      whatever was assigned so far.  Each successful label read sets the labels and resolves
      the class id. */
  function LoadOutcome(s: LoadState, modelPath: Option<string>, labelsPath: Option<string>,
                       useGpu: bool, created: Option<GpuDelegate>,
                       open: (string, Options) -> Option<Interpreter>,
                       readLabels: string -> Option<seq<string>>): (r: (LoadState, LoadReply))
    ensures modelPath.None? || labelsPath.None? ==> r == (s, LoadFailed(LoadFail))
    ensures r.1 == Loaded || r.1 == LoadFailed(LoadFail)
    ensures r.1 == Loaded ==>
      r.0.interpreter.Some? && r.0.labels.Some? && r.0.classId == ResolvedClass(r.0.labels.value, s.classId)
    ensures r.1 != Loaded ==> r.0.labels == s.labels && r.0.classId == s.classId
    ensures r.0.gpuDelegate == s.gpuDelegate || (useGpu && created.Some? && r.0.gpuDelegate == created)
  {
    if modelPath.None? || labelsPath.None? then (s, LoadFailed(LoadFail))
    else
      var modelFile, labelsFile := StripAssets(modelPath.value), StripAssets(labelsPath.value);
      var delegate := RequestedDelegate(useGpu, created);
      var s1 := if delegate.Some? then s.(gpuDelegate := delegate) else s;
      var first := open(modelFile, PreferredOptions(delegate));
      var s2 := if first.Some? then s1.(interpreter := first) else s1;
      var names := readLabels(labelsFile);
      if first.Some? && names.Some? then
        (s2.(labels := names, classId := ResolvedClass(names.value, s.classId)), Loaded)
      else
        var second := open(modelFile, MinimalOptions);
        if second.None? then (s2, LoadFailed(LoadFail))
        else if names.None? then (s2.(interpreter := second), LoadFailed(LoadFail))
        else (s2.(interpreter := second, labels := names, classId := ResolvedClass(names.value, s.classId)), Loaded)
  }

  /** Loading succeeds iff both paths are given, the label file can be read and the model
      opens with the preferred or the minimal options; on success the interpreter is the one
      the first successful attempt opened, and the label list is the file's. */
  lemma {:induction false} LoadSucceedsIff(s: LoadState, modelPath: Option<string>, labelsPath: Option<string>,
                                           useGpu: bool, created: Option<GpuDelegate>,
                                           open: (string, Options) -> Option<Interpreter>,
                                           readLabels: string -> Option<seq<string>>)
    ensures var r := LoadOutcome(s, modelPath, labelsPath, useGpu, created, open, readLabels);
      r.1 == Loaded <==>
        && modelPath.Some? && labelsPath.Some?
        && readLabels(StripAssets(labelsPath.value)).Some?
        && (|| open(StripAssets(modelPath.value), PreferredOptions(RequestedDelegate(useGpu, created))).Some?
            || open(StripAssets(modelPath.value), MinimalOptions).Some?)
    ensures var r := LoadOutcome(s, modelPath, labelsPath, useGpu, created, open, readLabels);
      r.1 == Loaded ==>
        var modelFile := StripAssets(modelPath.value);
        var first := open(modelFile, PreferredOptions(RequestedDelegate(useGpu, created)));
        && r.0.interpreter == (if first.Some? then first else open(modelFile, MinimalOptions))
        && r.0.labels == readLabels(StripAssets(labelsPath.value))
  {
  }

  /** `BallDetectionHelper`: interpreter, delegate, labels, resolved class id and the latency
      counters, with (ghost) the inference times recorded so far and the native resources
      closed so far. */
  class BallDetectionHelper {
    var interpreter: Option<Interpreter>
    var gpuDelegate: Option<GpuDelegate>
    var labels: Option<seq<string>>
    var soccerBallClassId: int
    var frameCount: int
    var totalInferenceTime: int
    var movingAvgInferenceTime: int
    ghost var inferenceTimes: seq<int>
    ghost var released: seq<Native>

    /** The counters describe the recorded inference times. */
    ghost predicate Valid()
      reads this
    {
      && frameCount == |inferenceTimes|
      && totalInferenceTime == Sum(inferenceTimes)
      && movingAvgInferenceTime == AverageLatency(inferenceTimes)
    }

    constructor ()
      ensures Valid() && inferenceTimes == [] && released == []
      ensures interpreter.None? && gpuDelegate.None? && labels.None? && soccerBallClassId == -1
    {
      interpreter, gpuDelegate, labels := None, None, None;
      soccerBallClassId := -1;
      frameCount, totalInferenceTime, movingAvgInferenceTime := 0, 0, 0;
      inferenceTimes, released := [], [];
    }

    /** The label scan: sets the class id at the first ball label and stops; without one the
        id keeps its value. */
    method ScanLabels(names: seq<string>)
      modifies this`soccerBallClassId
      ensures soccerBallClassId == ResolvedClass(names, old(soccerBallClassId))
    {
      for i := 0 to |names|
        invariant soccerBallClassId == old(soccerBallClassId)
        invariant forall j :: 0 <= j < i ==> !IsBallLabel(names[j])
      {
        var lowered := ToLower(names[i]);
        if Contains(lowered, "soccer") || Contains(lowered, "sports ball") || lowered == "ball" {
          soccerBallClassId := i;
          return;
        }
      }
    }

    /** `loadModels`: the state change and reply of `LoadOutcome`; the latency counters and
        the closed resources are untouched. */
    method LoadModels(modelPath: Option<string>, labelsPath: Option<string>, useGpu: bool,
                      created: Option<GpuDelegate>, open: (string, Options) -> Option<Interpreter>,
                      readLabels: string -> Option<seq<string>>) returns (reply: LoadReply)
      requires Valid()
      modifies this
      ensures Valid()
      ensures (LoadState(interpreter, gpuDelegate, labels, soccerBallClassId), reply) ==
        LoadOutcome(old(LoadState(interpreter, gpuDelegate, labels, soccerBallClassId)),
                    modelPath, labelsPath, useGpu, created, open, readLabels)
      ensures inferenceTimes == old(inferenceTimes) && released == old(released)
      ensures frameCount == old(frameCount) && totalInferenceTime == old(totalInferenceTime)
      ensures movingAvgInferenceTime == old(movingAvgInferenceTime)
    {
      if modelPath.None? || labelsPath.None? {
        return LoadFailed(LoadFail);
      }
      var modelFile, labelsFile := StripAssets(modelPath.value), StripAssets(labelsPath.value);
      var delegate := None;
      if useGpu && created.Some? {
        gpuDelegate := created;
        delegate := created;
      }
      var first := open(modelFile, PreferredOptions(delegate));
      if first.Some? {
        interpreter := first;
        var names := readLabels(labelsFile);
        if names.Some? {
          labels := names;
          ScanLabels(names.value);
          return Loaded;
        }
      }
      var second := open(modelFile, MinimalOptions);
      if second.None? {
        return LoadFailed(LoadFail);
      }
      interpreter := second;
      var names := readLabels(labelsFile);
      if names.None? {
        return LoadFailed(LoadFail);
      }
      labels := names;
      ScanLabels(names.value);
      return Loaded;
    }

    /** The counter update after a completed inference: one more frame, its time added to
        the total, and the average recomputed with long division. */
    method RecordInference(elapsed: int)
      requires Valid()
      modifies this`frameCount, this`totalInferenceTime, this`movingAvgInferenceTime, this`inferenceTimes
      ensures Valid() && inferenceTimes == old(inferenceTimes) + [elapsed]
    {
      assert (inferenceTimes + [elapsed])[..|inferenceTimes|] == inferenceTimes;
      frameCount := frameCount + 1;
      totalInferenceTime := totalInferenceTime + elapsed;
      movingAvgInferenceTime := JavaDiv(totalInferenceTime, frameCount);
      inferenceTimes := inferenceTimes + [elapsed];
    }

    /** `detectBall`: the detections of `BallOutcome`; a completed inference records its time
        and updates the three counters, anything else leaves them as they were. */
    method DetectBall(bitmap: Frame, front: bool, scale: (Frame, int, int) -> Frame,
                      run: TensorInput -> RunOutcome<seq<seq<seq<real>>>>, elapsed: int)
      returns (detections: seq<BallDetection>)
      requires Valid()
      modifies this`frameCount, this`totalInferenceTime, this`movingAvgInferenceTime, this`inferenceTimes
      ensures Valid()
      ensures var o := BallOutcome(interpreter, soccerBallClassId, bitmap, front, scale, run);
        detections == o.detections && inferenceTimes == old(inferenceTimes) + (if o.ran then [elapsed] else [])
    {
      if interpreter.None? || |interpreter.value.inputShape| < 4 {
        return [];
      }
      var model := interpreter.value;
      var modelHeight, modelWidth, channels := model.inputShape[1], model.inputShape[2], model.inputShape[3];
      if modelWidth <= 0 || modelHeight <= 0 {
        return [];
      }
      var scaled := scale(bitmap, modelWidth, modelHeight);
      var count := modelWidth * modelHeight * channels;
      if count < 0 {
        return [];
      }
      var pixels := GetPixels(scaled, modelWidth, modelHeight);
      if pixels.None? {
        return [];
      }
      var input := PackInput(model.inputType, pixels.value, count);
      if input.None? {
        return [];
      }
      var shape := model.outputShape;
      if |shape| < 3 || shape[0] < 0 || shape[1] < 0 || shape[2] < 0 {
        return [];
      }
      var outcome := run(input.value);
      if outcome.Threw? || !Shaped(outcome.output, shape[0], shape[1], shape[2]) {
        return [];
      }
      RecordInference(elapsed);
      if shape[0] == 0 {
        return [];
      }
      detections := DecodeBall(outcome.output[0], shape[2], soccerBallClassId, front);
    }

    /** The `detectBall` call: convert the frame (failing with `IMAGE_CONVERSION_ERROR`),
        rotate it when the rotation is non-zero, then detect. */
    method DetectBallCall(luma: seq<uint8>, planes: Option<Chroma>, width: int, height: int,
                          rotation: int, front: bool, rotate: (Frame, int) -> Frame,
                          scale: (Frame, int, int) -> Frame,
                          run: TensorInput -> RunOutcome<seq<seq<seq<real>>>>, elapsed: int)
      returns (reply: BallReply)
      requires Valid()
      modifies this`frameCount, this`totalInferenceTime, this`movingAvgInferenceTime, this`inferenceTimes
      ensures Valid()
      ensures var f := BallFrame(luma, planes, width, height);
        && (f.None? ==> reply == BallError(ImageConversionError) && inferenceTimes == old(inferenceTimes))
        && (f.Some? ==>
             var bitmap := if rotation != 0 then rotate(f.value, rotation) else f.value;
             var o := BallOutcome(interpreter, soccerBallClassId, bitmap, front, scale, run);
             reply == BallSuccess(o.detections)
             && inferenceTimes == old(inferenceTimes) + (if o.ran then [elapsed] else []))
    {
      var frame := ConvertFrame(luma, planes, width, height);
      if frame.None? {
        return BallError(ImageConversionError);
      }
      var bitmap := frame.value;
      if rotation != 0 {
        bitmap := rotate(bitmap, rotation);
      }
      var detections := DetectBall(bitmap, front, scale, run, elapsed);
      return BallSuccess(detections);
    }

    /** `dispose`: closes the interpreter and then the delegate, each only if present, and
        clears both fields; on a disposed helper it changes nothing. */
    method Dispose()
      modifies this`interpreter, this`gpuDelegate, this`released
      ensures interpreter.None? && gpuDelegate.None?
      ensures released == old(released)
        + (if old(interpreter).Some? then [InterpreterHandle(old(interpreter).value)] else [])
        + (if old(gpuDelegate).Some? then [DelegateHandle(old(gpuDelegate).value)] else [])
      ensures old(interpreter).None? && old(gpuDelegate).None? ==> released == old(released)
    {
      if interpreter.Some? {
        released := released + [InterpreterHandle(interpreter.value)];
        interpreter := None;
      }
      if gpuDelegate.Some? {
        released := released + [DelegateHandle(gpuDelegate.value)];
        gpuDelegate := None;
      }
    }
  }
}
