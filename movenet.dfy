/** The MoveNet pose helper: camera frame to ARGB bitmap (planar conversion with a grayscale
    fallback), bitmap to a 192x192 model input, quantised packing with a float retry, and
    decoding of the 17 keypoints into at most one person with a padded bounding box. */
module MoveNet {
  import opened Wrappers
  import opened Text
  import opened Geometry
  import opened ColorConversion
  import opened TensorPacking
  import opened Engine

  /** Side of the square model input. */
  const InputSize: int := 192

  /** The 17 keypoints of the MoveNet output, in tensor order. */
  const KeypointNames: seq<string> := [
    "nose", "left_eye", "right_eye", "left_ear", "right_ear",
    "left_shoulder", "right_shoulder", "left_elbow", "right_elbow",
    "left_wrist", "right_wrist", "left_hip", "right_hip",
    "left_knee", "right_knee", "left_ankle", "right_ankle"]

  /** A keypoint takes part in the box when its score is strictly above this. */
  const MinScore: real := 0.2
  /** Margin added around the keypoints' extent. */
  const BoxPadding: real := 0.05

  const PersonTag: string := "person"
  /** The interpreter's message for an input buffer of the wrong element type. */
  const CopyError: string := "Cannot copy to a TensorFlowLite tensor"
  const ConversionError: string := "Fehler bei der Bildkonvertierung"
  const NullModelPath: string := "NULL_MODEL_PATH"
  const LoadFail: string := "LOAD_FAIL"

  /** One row `[y, x, score]` of the `[1][1][17][3]` output tensor. */
  datatype KeypointRow = KeypointRow(y: real, x: real, score: real)
  type PoseTensor = t: seq<KeypointRow> | |t| == 17 witness seq(17, _ => KeypointRow(0.0, 0.0, 0.0))

  /** A reported keypoint. */
  datatype Keypoint = Keypoint(name: string, x: real, y: real, score: real)

  /** A reported person: tag, confidence 1.0, all keypoints and the box. */
  datatype PersonDetection = PersonDetection(tag: string, confidence: real, keypoints: seq<Keypoint>, box: Box)

  // ---------------------------------------------------------------- keypoints

  /** Keypoint `i` as reported: its name, `y` and score copied, `x` mirrored for the front camera. */
  function KeypointAt(t: PoseTensor, i: nat, front: bool): Keypoint
    requires i < 17
  {
    Keypoint(KeypointNames[i], if front then 1.0 - t[i].x else t[i].x, t[i].y, t[i].score)
  }

  /** All 17 keypoints in the fixed order of `KeypointNames`; every entry keeps the tensor's
      `y` and score unchanged and unclipped, and its `x` is `1 - x` exactly for the front camera. */
  function PoseKeypoints(t: PoseTensor, front: bool): (ks: seq<Keypoint>)
    ensures |ks| == 17
    ensures forall i :: 0 <= i < 17 ==>
      && ks[i].name == KeypointNames[i] && ks[i].y == t[i].y && ks[i].score == t[i].score
      && ks[i].x == (if front then 1.0 - t[i].x else t[i].x)
  {
    seq(17, i requires 0 <= i < 17 => KeypointAt(t, i, front))
  }

  /** The front-camera keypoints are the back-camera ones reflected about `x = 1/2`; reflecting
      twice gives the tensor's `x` back. */
  lemma FrontCameraMirrors(t: PoseTensor, i: nat)
    requires i < 17
    ensures PoseKeypoints(t, true)[i].x == 1.0 - PoseKeypoints(t, false)[i].x
    ensures 1.0 - PoseKeypoints(t, true)[i].x == t[i].x
    ensures PoseKeypoints(t, true)[i].y == PoseKeypoints(t, false)[i].y
  {
  }

  // ---------------------------------------------------------------- bounding box

  /** The keypoint accumulators: extent of the qualifying keypoints and whether any qualified. */
  datatype Bounds = Bounds(minX: real, minY: real, maxX: real, maxY: real, found: bool)

  /** Before any keypoint: the minima start at 1.0 and the maxima at 0.0. */
  const NoBounds: Bounds := Bounds(1.0, 1.0, 0.0, 0.0, false)

  predicate Qualifies(k: Keypoint) {
    k.score > MinScore
  }

  /** One step of the accumulator loop. */
  function Include(b: Bounds, k: Keypoint): (r: Bounds)
    ensures r.found <==> b.found || Qualifies(k)
    ensures !Qualifies(k) ==> r == b
    ensures Qualifies(k) ==> r.minX <= k.x <= r.maxX && r.minY <= k.y <= r.maxY
    ensures r.minX <= b.minX && r.minY <= b.minY && r.maxX >= b.maxX && r.maxY >= b.maxY
  {
    if Qualifies(k) then Bounds(Min(b.minX, k.x), Min(b.minY, k.y), Max(b.maxX, k.x), Max(b.maxY, k.y), true)
    else b
  }

  /** The accumulators after the keypoints `ks`, in order. */
  function BoundsOf(ks: seq<Keypoint>): (b: Bounds)
    ensures !b.found ==> b == NoBounds
    ensures b.minX <= 1.0 && b.minY <= 1.0 && b.maxX >= 0.0 && b.maxY >= 0.0
  {
    if ks == [] then NoBounds else Include(BoundsOf(ks[..|ks| - 1]), ks[|ks| - 1])
  }

  /** Appending a keypoint is one more step of the loop. */
  lemma BoundsOfAppend(ks: seq<Keypoint>, k: Keypoint)
    ensures BoundsOf(ks + [k]) == Include(BoundsOf(ks), k)
  {
    assert (ks + [k])[..|ks|] == ks;
  }

  /** The accumulators found a keypoint iff one qualifies; they enclose every qualifying
      keypoint, and the minima stay at most 1.0 and the maxima at least 0.0 whatever the
      coordinates. */
  lemma {:induction false} BoundsEnclose(ks: seq<Keypoint>)
    ensures var b := BoundsOf(ks);
      && (b.found <==> exists i :: 0 <= i < |ks| && Qualifies(ks[i]))
      && b.minX <= 1.0 && b.minY <= 1.0 && b.maxX >= 0.0 && b.maxY >= 0.0
      && forall i :: 0 <= i < |ks| && Qualifies(ks[i]) ==>
           b.minX <= ks[i].x <= b.maxX && b.minY <= ks[i].y <= b.maxY
  {
    if ks != [] {
      var init := ks[..|ks| - 1];
      BoundsEnclose(init);
      forall i | 0 <= i < |init| ensures init[i] == ks[i] { }
    }
  }

  /** Each accumulator is its start value or the coordinate of some qualifying keypoint: the
      box is the qualifying keypoints' extent, joined with the start values. */
  lemma {:induction false} BoundsAttained(ks: seq<Keypoint>)
    ensures var b := BoundsOf(ks);
      && (b.minX == 1.0 || exists i :: 0 <= i < |ks| && Qualifies(ks[i]) && ks[i].x == b.minX)
      && (b.minY == 1.0 || exists i :: 0 <= i < |ks| && Qualifies(ks[i]) && ks[i].y == b.minY)
      && (b.maxX == 0.0 || exists i :: 0 <= i < |ks| && Qualifies(ks[i]) && ks[i].x == b.maxX)
      && (b.maxY == 0.0 || exists i :: 0 <= i < |ks| && Qualifies(ks[i]) && ks[i].y == b.maxY)
  {
    if ks != [] {
      var init := ks[..|ks| - 1];
      BoundsAttained(init);
      forall i | 0 <= i < |init| ensures init[i] == ks[i] { }
      var last := |ks| - 1;
      assert ks[last] == ks[|ks| - 1];
    }
  }

  /** The reported box: the extent widened by the padding on every side, cut to [0, 1]. */
  function PaddedBox(b: Bounds): (r: Box)
    ensures 0.0 <= r.x1 && 0.0 <= r.y1 && r.x2 <= 1.0 && r.y2 <= 1.0
    ensures b.minX <= 1.0 ==> r.x1 <= Clamp01(b.minX)
    ensures b.minY <= 1.0 ==> r.y1 <= Clamp01(b.minY)
    ensures b.maxX >= 0.0 ==> Clamp01(b.maxX) <= r.x2
    ensures b.maxY >= 0.0 ==> Clamp01(b.maxY) <= r.y2
    ensures b.minX <= b.maxX && b.minY <= b.maxY && b.minX <= 1.0 && b.minY <= 1.0 && b.maxX >= 0.0 && b.maxY >= 0.0
      ==> InUnitSquare(r) && Ordered(r)
  {
    Box(Max(0.0, b.minX - BoxPadding), Max(0.0, b.minY - BoxPadding),
        Min(1.0, b.maxX + BoxPadding), Min(1.0, b.maxY + BoxPadding))
  }

  /** The detections of one output tensor: one person, carrying all keypoints and the
      padded box, when some keypoint qualifies; none otherwise.  The box lies in the unit
      square, is ordered, and covers every qualifying keypoint (cut to the unit square). */
  function PersonDetections(t: PoseTensor, front: bool): (ds: seq<PersonDetection>)
    ensures |ds| <= 1
    ensures ds != [] <==> exists i :: 0 <= i < 17 && t[i].score > MinScore
    ensures ds != [] ==>
      var ks := PoseKeypoints(t, front);
      && ds[0] == PersonDetection(PersonTag, 1.0, ks, PaddedBox(BoundsOf(ks)))
      && InUnitSquare(ds[0].box) && Ordered(ds[0].box)
      && forall i :: 0 <= i < 17 && Qualifies(ks[i]) ==>
           && ds[0].box.x1 <= Clamp01(ks[i].x) <= ds[0].box.x2
           && ds[0].box.y1 <= Clamp01(ks[i].y) <= ds[0].box.y2
  {
    var ks := PoseKeypoints(t, front);
    BoundsEnclose(ks);
    assert (exists i :: 0 <= i < 17 && t[i].score > MinScore) <==> (exists i :: 0 <= i < 17 && Qualifies(ks[i])) by {
      forall i | 0 <= i < 17 ensures t[i].score > MinScore <==> Qualifies(ks[i]) { }
    }
    var b := BoundsOf(ks);
    if b.found then [PersonDetection(PersonTag, 1.0, ks, PaddedBox(b))] else []
  }

  /** The keypoint loop of `detectPose`: builds the keypoint list and the accumulators, then
      pads the box and adds the person only when some keypoint qualified. */
  method DecodePose(t: PoseTensor, front: bool) returns (detections: seq<PersonDetection>)
    ensures detections == PersonDetections(t, front)
  {
    var keypoints: seq<Keypoint> := [];
    var minX, minY, maxX, maxY := 1.0, 1.0, 0.0, 0.0;
    var hasValidKeypoints := false;
    for i := 0 to 17
      invariant keypoints == PoseKeypoints(t, front)[..i]
      invariant Bounds(minX, minY, maxX, maxY, hasValidKeypoints) == BoundsOf(keypoints)
    {
      var y := t[i].y;
      var x := t[i].x;
      if front {
        x := 1.0 - x;
      }
      var score := t[i].score;
      var keypoint := Keypoint(KeypointNames[i], x, y, score);
      BoundsOfAppend(keypoints, keypoint);
      keypoints := keypoints + [keypoint];
      if score > MinScore {
        minX := Min(minX, x);
        minY := Min(minY, y);
        maxX := Max(maxX, x);
        maxY := Max(maxY, y);
        hasValidKeypoints := true;
      }
    }
    assert keypoints == PoseKeypoints(t, front);
    if hasValidKeypoints {
      minX := Max(0.0, minX - BoxPadding);
      minY := Max(0.0, minY - BoxPadding);
      maxX := Min(1.0, maxX + BoxPadding);
      maxY := Min(1.0, maxY + BoxPadding);
      detections := [PersonDetection(PersonTag, 1.0, keypoints, Box(minX, minY, maxX, maxY))];
    } else {
      detections := [];
    }
  }

  // ---------------------------------------------------------------- frame preparation

  /** How `detectPose` brings the bitmap to the model's 192x192 input. */
  datatype ScalePlan =
    | RotateThenScale(degrees: int)   // rotate the bitmap, then scale the result
    | Unchanged                       // already 192x192 and upright: use it as it is
    | RotateAndScale(degrees: int)    // one matrix that rotates and scales
    | ScaleOnly                       // upright, scale to 192x192

  /** The four cases of the preprocessing, as a partition of (rotation, width, height). */
  function ChooseScalePlan(rotation: int, width: int, height: int): (p: ScalePlan)
    ensures p.RotateThenScale? <==> rotation == 90 || rotation == 270
    ensures p.Unchanged? <==> rotation == 0 && width == InputSize && height == InputSize
    ensures p.RotateAndScale? <==> rotation != 0 && rotation != 90 && rotation != 270
    ensures p.ScaleOnly? <==> rotation == 0 && !(width == InputSize && height == InputSize)
    ensures (p.RotateThenScale? || p.RotateAndScale?) ==> p.degrees == rotation
  {
    if rotation == 90 || rotation == 270 then RotateThenScale(rotation)
    else if width == InputSize && height == InputSize && rotation == 0 then Unchanged
    else if rotation != 0 then RotateAndScale(rotation)
    else ScaleOnly
  }

  /** What `Bitmap.createScaledBitmap(_, 192, 192, _)` guarantees: the two plans that end in
      that call give a 192 x 192 bitmap.  (A combined rotate-and-scale matrix gives the
      rotated bounding box, which is 192 x 192 only for multiples of 90 degrees.) */
  ghost predicate ScalesToModel(transform: (ScalePlan, Frame) -> Frame) {
    && (forall d: int, f: Frame :: transform(RotateThenScale(d), f).width == InputSize && transform(RotateThenScale(d), f).height == InputSize)
    && (forall f: Frame :: transform(ScaleOnly, f).width == InputSize && transform(ScaleOnly, f).height == InputSize)
  }

  /** The model-resolution bitmap: the bitmap itself when no transformation is needed,
      otherwise what the bitmap library (`transform`) makes of it under the chosen plan. */
  function ModelFrame(bitmap: Frame, rotation: int, transform: (ScalePlan, Frame) -> Frame): (f: Frame)
    ensures ChooseScalePlan(rotation, bitmap.width, bitmap.height).Unchanged? ==> f == bitmap
    ensures ScalesToModel(transform) && !ChooseScalePlan(rotation, bitmap.width, bitmap.height).RotateAndScale? ==>
      f.width == InputSize && f.height == InputSize
  {
    var plan := ChooseScalePlan(rotation, bitmap.width, bitmap.height);
    if plan.Unchanged? then bitmap else transform(plan, bitmap)
  }

  /** The bitmap the MoveNet handler gets from a camera frame: the planar conversion when
      both chroma planes were sent and it succeeds, the grayscale conversion otherwise. */
  function ConvertedFrame(luma: seq<uint8>, planes: Option<Chroma>, width: int, height: int): (f: Option<Frame>)
    ensures f.Some? ==> f.value.width == width && f.value.height == height
  {
    if planes.Some? && PlanesConvertible(luma, planes.value, width, height) then
      Some(RawFrame(width, height, PlanarImage(luma, planes.value, width, height)))
    else if GrayConvertible(luma, width, height) then
      OffsetIsProduct(height, width);
      Some(RawFrame(width, height, GrayImage(luma[..width * height])))
    else None
  }

  /** Because of the grayscale fallback a frame converts exactly when its luma plane covers
      `width * height` pixels, whatever the chroma planes hold; and the planar image is used
      whenever the planes allow it. */
  lemma ConversionNeedsOnlyLuma(luma: seq<uint8>, planes: Option<Chroma>, width: int, height: int)
    ensures ConvertedFrame(luma, planes, width, height).Some? <==> GrayConvertible(luma, width, height)
    ensures planes.Some? && PlanesConvertible(luma, planes.value, width, height) ==>
      ConvertedFrame(luma, planes, width, height).value.pixels == PlanarImage(luma, planes.value, width, height)
  {
    if planes.Some? {
      PlanesConvertibleIff(luma, planes.value, width, height);
    }
  }

  /** `yuvPlanesToBitmap` with its fallback, or `yuvToBitmap` when a chroma plane is missing. */
  method ConvertFrame(luma: seq<uint8>, planes: Option<Chroma>, width: int, height: int)
    returns (frame: Option<Frame>)
    ensures frame == ConvertedFrame(luma, planes, width, height)
  {
    if planes.Some? {
      var argb := YuvPlanesToBitmap(luma, planes.value, width, height);
      if argb.Some? {
        return Some(RawFrame(width, height, argb.value[..]));
      }
    }
    var gray := YuvToBitmap(luma, width, height);
    if gray.Some? {
      OffsetIsProduct(height, width);
      return Some(RawFrame(width, height, gray.value[..]));
    }
    return None;
  }

  // ---------------------------------------------------------------- inference

  /** What `detectPose` returns: an empty map, or the detections and the inference time. */
  datatype PoseResult = EmptyResult | PoseMap(detections: seq<PersonDetection>, inferenceTime: int)

  /** The quantised run failed in a way that makes `detectPose` retry with float input. */
  predicate RetriesWithFloats(message: Option<string>) {
    message.Some? && Contains(message.value, CopyError)
  }

  /** The retry rule on sample messages: the engine's copy error retries, also inside a longer
      message; a missing message, a truncated one and an unrelated one do not. */
  lemma RetryMessages()
    ensures RetriesWithFloats(Some(CopyError))
    ensures RetriesWithFloats(Some("Internal error: " + CopyError + " (input) with 110592 bytes"))
    ensures !RetriesWithFloats(None)
    ensures !RetriesWithFloats(Some("Cannot copy to a TensorFlowLite"))
    ensures !RetriesWithFloats(Some("Out of memory"))
  {
    assert OccursAt(CopyError, CopyError, 0);
    var m := "Internal error: " + CopyError + " (input) with 110592 bytes";
    assert m[16..16 + |CopyError|] == CopyError;
    assert OccursAt(m, CopyError, 16);
  }

  /** The result of `detectPose` on the model-resolution bitmap `scaled`.  The input shape is
      read as `[batch, height, width, channels]`; the quantised buffer has
      `batch * height * width * channels` bytes, the float retry `width * height * channels`
      floats.  A shape with fewer than four entries, a negative buffer size, a pixel request
      outside the bitmap, a buffer too small for three values per pixel, or a run that throws
      (other than the one retry) ends in the empty map. */
  function PoseOutcome(interpreter: Option<Interpreter>, scaled: Frame, front: bool,
                       run: TensorInput -> RunOutcome<PoseTensor>, elapsed: int): (r: PoseResult)
    ensures interpreter.None? ==> r == EmptyResult
    ensures r.PoseMap? ==> r.inferenceTime == elapsed && |r.detections| <= 1
    ensures r.PoseMap? ==> forall d :: d in r.detections ==>
      d.tag == PersonTag && |d.keypoints| == 17 && InUnitSquare(d.box) && Ordered(d.box)
  {
    if interpreter.None? || |interpreter.value.inputShape| < 4 then EmptyResult
    else
      var shape := interpreter.value.inputShape;
      var byteCount := shape[0] * shape[1] * shape[2] * shape[3];
      var pixels := GetPixels(scaled, shape[2], shape[1]);
      if byteCount < 0 || pixels.None? || 3 * |pixels.value| > byteCount then EmptyResult
      else match run(Quantized(PackedTensor(pixels.value, ByteOf, byteCount, 0)))
        case Ran(output) => PoseMap(PersonDetections(output, front), elapsed)
        case Threw(message) =>
          var floatCount := shape[2] * shape[1] * shape[3];
          if !RetriesWithFloats(message) || floatCount < 0 || 3 * |pixels.value| > floatCount then EmptyResult
          else match run(Float(PackedTensor(pixels.value, Normalize, floatCount, 0.0)))
            case Ran(output) => PoseMap(PersonDetections(output, front), elapsed)
            case Threw(_) => EmptyResult
  }

  /** `a * n == b * n` cancels to `a == b` for positive `n`. */
  lemma CancelPositive(a: int, b: int, n: int)
    requires n > 0
    ensures a * n == b * n <==> a == b
  {
    if a * n == b * n {
      assert (a - b) * n == 0;
    }
  }

  /** The quantised tensor of `batch * height * width * channels` bytes holds the pixels'
      channel bytes and no zero padding iff `batch * channels == 3`: one image of three
      channels, or three images of one channel. */
  lemma QuantizedBufferExactlyFull(pixels: seq<uint32>, batch: int, height: int, width: int, channels: int)
    requires width > 0 && height > 0 && |pixels| == width * height
    requires 3 * |pixels| <= batch * height * width * channels
    ensures PackedTensor(pixels, ByteOf, batch * height * width * channels, 0) == ChannelStream(pixels, ByteOf)
      <==> batch * channels == 3
  {
    PackedTensorPrefix(pixels, ByteOf, batch * height * width * channels, 0);
    ExactFill(batch, height, width, channels);
  }

  /** `3 * (width * height)` slots out of `batch * height * width * channels` are all of them
      iff `batch * channels == 3`. */
  lemma ExactFill(batch: int, height: int, width: int, channels: int)
    requires width > 0 && height > 0
    ensures 3 * (width * height) == batch * height * width * channels <==> batch * channels == 3
  {
    var n := width * height;
    assert batch * height * width * channels == (batch * channels) * n;
    CancelPositive(3, batch * channels, n);
  }

  /** `3 * (width * height)` slots fit in `width * height * channels` iff `channels >= 3`. */
  lemma ThreeChannelsFit(height: int, width: int, channels: int)
    requires width > 0 && height > 0
    ensures 3 * (width * height) <= width * height * channels <==> channels >= 3
  {
    var n := width * height;
    assert width * height * channels == channels * n;
    if channels < 3 {
      assert channels * n <= 2 * n;
    }
  }

  /** The float retry buffer of `width * height * channels` floats takes three floats per pixel
      iff the tensor has at least three channels; it then starts with the pixels' normalised
      channels. */
  lemma FloatBufferLargeEnough(pixels: seq<uint32>, height: int, width: int, channels: int)
    requires width > 0 && height > 0 && |pixels| == width * height
    ensures 3 * |pixels| <= width * height * channels <==> channels >= 3
    ensures channels >= 3 ==>
      PackedTensor(pixels, Normalize, width * height * channels, 0.0)[..3 * |pixels|] == ChannelStream(pixels, Normalize)
  {
    ThreeChannelsFit(height, width, channels);
    if channels >= 3 {
      PackedTensorPrefix(pixels, Normalize, width * height * channels, 0.0);
    }
  }

  /** The standard `[1, 192, 192, 3]` model on an upright or quarter-turned frame, with a bitmap
      library that keeps its promise: the pixels are read and exactly fill the quantised
      tensor, so the result is the empty map only when the engine fails, on the first run and
      on the float retry the message allows. */
  lemma StandardModelRuns(interpreter: Option<Interpreter>, bitmap: Frame, rotation: int,
                          transform: (ScalePlan, Frame) -> Frame, front: bool,
                          run: TensorInput -> RunOutcome<PoseTensor>, elapsed: int)
    requires ScalesToModel(transform)
    requires rotation == 0 || rotation == 90 || rotation == 270
    requires interpreter.Some? && interpreter.value.inputShape == [1, InputSize, InputSize, 3]
    ensures var scaled := ModelFrame(bitmap, rotation, transform);
      var pixels := GetPixels(scaled, InputSize, InputSize);
      && pixels.Some?
      && 3 * |pixels.value| == 3 * InputSize * InputSize
      && var bytes := PackedTensor(pixels.value, ByteOf, 3 * InputSize * InputSize, 0);
         var floats := PackedTensor(pixels.value, Normalize, 3 * InputSize * InputSize, 0.0);
         && bytes == ChannelStream(pixels.value, ByteOf)
         && (PoseOutcome(interpreter, scaled, front, run, elapsed).PoseMap? <==>
               || run(Quantized(bytes)).Ran?
               || (RetriesWithFloats(run(Quantized(bytes)).message) && run(Float(floats)).Ran?))
  {
    var scaled := ModelFrame(bitmap, rotation, transform);
    var pixels := GetPixels(scaled, InputSize, InputSize);
    assert |pixels.value| == InputSize * InputSize;
    QuantizedBufferExactlyFull(pixels.value, 1, InputSize, InputSize, 3);
  }

  /** The reply of the `detectObjects` channel call: the detections, the inference time when
      detection ran, and an error text when the frame could not be converted. */
  datatype PoseReply = PoseReply(detections: seq<PersonDetection>, inferenceTimeMs: Option<int>, error: Option<string>)

  // ---------------------------------------------------------------- the helper

  /** `MoveNetHelper`: the interpreter and GPU delegate it holds, and (ghost) every native
      resource it has closed, in order. */
  class MoveNetHelper {
    var interpreter: Option<Interpreter>
    var gpuDelegate: Option<GpuDelegate>
    ghost var released: seq<Native>

    constructor ()
      ensures interpreter.None? && gpuDelegate.None? && released == []
    {
      interpreter := None;
      gpuDelegate := None;
      released := [];
    }

    /** `loadModels`.  A missing path fails with `NULL_MODEL_PATH` and changes nothing.
        Otherwise the `assets/` prefix is stripped, the delegate field takes a newly created
        GPU delegate (when the GPU was asked for and `created` is one), and the model is model
        with the preferred options: on success it replaces the interpreter, on failure the old
        interpreter stays and the reply is `LOAD_FAIL`.  Nothing is closed. */
    method LoadModels(modelPath: Option<string>, useGpu: bool, created: Option<GpuDelegate>,
                      open: (string, Options) -> Option<Interpreter>) returns (reply: LoadReply)
      modifies this
      ensures released == old(released)
      ensures modelPath.None? ==>
        reply == LoadFailed(NullModelPath) && interpreter == old(interpreter) && gpuDelegate == old(gpuDelegate)
      ensures modelPath.Some? ==>
        var delegate := RequestedDelegate(useGpu, created);
        var model := open(StripAssets(modelPath.value), PreferredOptions(delegate));
        && gpuDelegate == (if delegate.Some? then delegate else old(gpuDelegate))
        && interpreter == (if model.Some? then model else old(interpreter))
        && reply == (if model.Some? then Loaded else LoadFailed(LoadFail))
    {
      if modelPath.None? {
        return LoadFailed(NullModelPath);
      }
      var path := StripAssets(modelPath.value);
      var delegate := None;
      if useGpu && created.Some? {
        gpuDelegate := created;
        delegate := created;
      }
      var model := open(path, PreferredOptions(delegate));
      if model.None? {
        return LoadFailed(LoadFail);
      }
      interpreter := model;
      return Loaded;
    }

    /** `detectPose` on a converted bitmap; it changes nothing in the helper. */
    method DetectPose(bitmap: Frame, rotation: int, front: bool, transform: (ScalePlan, Frame) -> Frame,
                      run: TensorInput -> RunOutcome<PoseTensor>, elapsed: int) returns (result: PoseResult)
      ensures result == PoseOutcome(interpreter, ModelFrame(bitmap, rotation, transform), front, run, elapsed)
    {
      if interpreter.None? || |interpreter.value.inputShape| < 4 {
        return EmptyResult;
      }
      var plan := ChooseScalePlan(rotation, bitmap.width, bitmap.height);
      var scaled := if plan.Unchanged? then bitmap else transform(plan, bitmap);
      var shape := interpreter.value.inputShape;
      var batchSize, inputHeight, inputWidth, channels := shape[0], shape[1], shape[2], shape[3];
      var bufferSize := batchSize * inputHeight * inputWidth * channels;
      if bufferSize < 0 {
        return EmptyResult;
      }
      var pixels := GetPixels(scaled, inputWidth, inputHeight);
      if pixels.None? {
        return EmptyResult;
      }
      var bytes := PackPixels(bufferSize, 0, pixels.value, ByteOf);
      if bytes.None? {
        return EmptyResult;
      }
      var outcome := run(Quantized(bytes.value));
      if outcome.Threw? {
        if !RetriesWithFloats(outcome.message) {
          return EmptyResult;
        }
        var floatCount := inputWidth * inputHeight * channels;
        if floatCount < 0 {
          return EmptyResult;
        }
        var floats := PackPixels(floatCount, 0.0, pixels.value, Normalize);
        if floats.None? {
          return EmptyResult;
        }
        outcome := run(Float(floats.value));
        if outcome.Threw? {
          return EmptyResult;
        }
      }
      var detections := DecodePose(outcome.output, front);
      return PoseMap(detections, elapsed);
    }

    /** The `detectObjects` call: convert the frame, then detect.  A frame that cannot be
        converted gives no detections and the conversion error; an empty detection result
        gives no detections and inference time 0. */
    method DetectObjects(luma: seq<uint8>, planes: Option<Chroma>, width: int, height: int,
                         rotation: int, front: bool, transform: (ScalePlan, Frame) -> Frame,
                         run: TensorInput -> RunOutcome<PoseTensor>, elapsed: int) returns (reply: PoseReply)
      ensures reply.error.Some? <==> !GrayConvertible(luma, width, height)
      ensures reply.error.Some? ==> reply == PoseReply([], None, Some(ConversionError))
      ensures reply.error.None? ==>
        var result := PoseOutcome(interpreter, ModelFrame(ConvertedFrame(luma, planes, width, height).value, rotation, transform),
                                  front, run, elapsed);
        reply == (if result.PoseMap? then PoseReply(result.detections, Some(result.inferenceTime), None)
                  else PoseReply([], Some(0), None))
    {
      ConversionNeedsOnlyLuma(luma, planes, width, height);
      var frame := ConvertFrame(luma, planes, width, height);
      if frame.None? {
        return PoseReply([], None, Some(ConversionError));
      }
      var result := DetectPose(frame.value, rotation, front, transform, run, elapsed);
      if result.PoseMap? {
        reply := PoseReply(result.detections, Some(result.inferenceTime), None);
      } else {
        reply := PoseReply([], Some(0), None);
      }
    }

    /** `dispose`: closes the interpreter and then the delegate, each only if present, and
        clears both fields; on a disposed helper it changes nothing. */
    method Dispose()
      modifies this
      ensures interpreter.None? && gpuDelegate.None?
      ensures released == old(released)
        + (if old(interpreter).Some? then [InterpreterHandle(old(interpreter).value)] else [])
        + (if old(gpuDelegate).Some? then [DelegateHandle(old(gpuDelegate).value)] else [])
      ensures old(interpreter).None? && old(gpuDelegate).None? ==> released == old(released)
    {
      if interpreter.Some? {
        released := released + [InterpreterHandle(interpreter.value)];
        interpreter := None;
      }
      if gpuDelegate.Some? {
        released := released + [DelegateHandle(gpuDelegate.value)];
        gpuDelegate := None;
      }
    }
  }
}
