# Frame-to-detection pipeline of the footy_testing Android plugin

This project models the native detection core of a mobile sports-training app in Dafny. The
core is two Flutter method-channel handlers:

- `MoveNetHelper` runs a single-person pose estimator with 17 keypoints and derives a person box.
- `BallDetectionHelper` runs a YOLOv8 detector and reports the first candidate of the
  ball class.

Both handlers:

- turn the camera's YUV planes into an ARGB bitmap, with a grayscale path when the chroma planes
  are missing;
- rotate and scale the bitmap for the model;
- pack it into an interleaved RGB tensor, as bytes for quantized models or as floats in
  `[0, 1]`;
- run the engine and decode its output into keypoints or boxes, mirrored for the front camera.
  Keypoint coordinates are copied unclipped; the person box and the ball box are clipped to
  `[0, 1]`;
- keep and release native interpreter and GPU-delegate handles.

The ball helper also resolves the ball class from the label file and keeps running latency
counters.

Modules, in dependency order:

- `Wrappers`: `Option` and a first-index search.
- `Text`: prefix tests, substring search, ASCII lower-casing, and stripping of the `assets/`
  prefix.
- `Geometry`: min, max, clamping to `[0, 1]`, and boxes.
- `ColorConversion`: pixel packing, the saturating fixed-point YUV→RGB step, strided chroma
  indexing, and the two bitmap builders. The builders are methods over arrays.
- `TensorPacking`: the pixel read-back (`getPixels`) and a `ByteBuffer` class with overflow.
  It also holds the channel-interleaving loop and its specification `ChannelStream`/`PackedTensor`.
- `Engine`: the abstract TensorFlow Lite engine: shapes, data types, options, and run outcomes.
- `MoveNet`: keypoint decoding, the person box, the scale plan, the float retry, and the
  `MoveNetHelper` class.
- `BallDetection`: box decoding, the first-above-threshold decoder, label resolution, the
  two-attempt load, the latency counters, and the `BallDetectionHelper` class.

The engine, the Android bitmap transforms, the label file reader and the clock are not modelled
as code. Each is a function-valued or integer parameter of the operation that calls it:

- `open` loads a model file with options, or fails;
- `readLabels` reads a label file;
- `run` returns the output tensor, or "threw" with an optional message;
- `transform`, `rotate` and `scale` stand for the `Bitmap`/`Matrix` calls;
- `elapsed` is the measured inference time.

A Java exception in the modelled code becomes the corresponding `None`, `Threw` or error variant.

Behaviour of the code worth knowing:

- Loading a model does not release the previous interpreter or delegate. Both `loadModels`
  handlers overwrite the fields.
- Reloading does not reset the ball helper's latency counters.
- A reload whose labels name no ball class keeps the previous class id.
- A channel count other than 3 is not a load-time error. The quantized buffer overflows, or is
  left partly zero, on each frame.

## Model

| member | source | states |
|---|---|---|
| Text.LowerChar | android/app/src/main/java/com/example/footy_testing/pose/BallDetectionHelper.java:126 | upper-case ASCII letters map to the letter 32 code points higher; every other character is unchanged |
| Text.ToLower | android/app/src/main/java/com/example/footy_testing/pose/BallDetectionHelper.java:126 | lower-casing keeps the length, maps each character by `LowerChar`, and leaves no upper-case ASCII letter |
| Text.StripAssets | android/app/src/main/java/com/example/footy_testing/pose/MoveNetHelper.java:84-85 | a path starting with `assets/` loses exactly that prefix; any other path is unchanged; the length drops by 7 iff the prefix was present |
| Text.StripAssetsInverse | android/app/src/main/java/com/example/footy_testing/pose/BallDetectionHelper.java:70-73 | stripping undoes prefixing with `assets/` |
| Geometry.Min | android/app/src/main/java/com/example/footy_testing/pose/MoveNetHelper.java:440-441 | the result is below both arguments and is one of them |
| Geometry.Max | android/app/src/main/java/com/example/footy_testing/pose/MoveNetHelper.java:442-443 | the result is above both arguments and is one of them |
| Geometry.Clamp01 | android/app/src/main/java/com/example/footy_testing/pose/BallDetectionHelper.java:391-394 | the result lies in `[0, 1]`; values inside are kept; values below map to 0 and values above to 1 |
| Geometry.Clamp01Monotone | android/app/src/main/java/com/example/footy_testing/pose/BallDetectionHelper.java:391-394 | clamping preserves order |
| ColorConversion.Argb | android/app/src/main/java/com/example/footy_testing/pose/MoveNetHelper.java:541 | the opaque pixel `0xFF000000 | r << 16 | g << 8 | b`; its channels unpack back to r, g and b, as `ArgbUnpacks` proves |
| ColorConversion.ArgbUnpacks | android/app/src/main/java/com/example/footy_testing/pose/MoveNetHelper.java:346-350 | unpacking an opaque pixel packed from r, g and b (shifted into bits 16, 8 and 0) gives back r, g and b, with alpha 0xFF |
| ColorConversion.GrayPixel | android/app/src/main/java/com/example/footy_testing/pose/MoveNetHelper.java:489-491 | a luma sample gives an opaque pixel with R = G = B = Y |
| ColorConversion.Saturate | android/app/src/main/java/com/example/footy_testing/pose/MoveNetHelper.java:537-539 | the channel is the quotient by 1024 of the pre-shift value clamped to `[0, 262143]` |
| ColorConversion.SaturateIsShiftThenCap | android/app/src/main/java/com/example/footy_testing/pose/MoveNetHelper.java:537-539 | the saturating step equals "0 if negative, else `v >> 10` capped at 255" |
| ColorConversion.SaturateMonotone | android/app/src/main/java/com/example/footy_testing/pose/MoveNetHelper.java:537-539 | saturation preserves order |
| ColorConversion.YuvToRgb | android/app/src/main/java/com/example/footy_testing/pose/MoveNetHelper.java:529-539 | neutral chroma gives a gray pixel; it is black at Y <= 16 and white at Y >= 236 |
| ColorConversion.PreShiftFitsInJavaInt | android/app/src/main/java/com/example/footy_testing/pose/MoveNetHelper.java:532-535 | the three fixed-point sums never overflow a 32-bit int, so unbounded arithmetic is exact here |
| ColorConversion.ClampChroma | android/app/src/main/java/com/example/footy_testing/pose/MoveNetHelper.java:524-527 | each chroma index past the end of its plane is pulled back to that plane's last sample |
| ColorConversion.UIndex | android/app/src/main/java/com/example/footy_testing/pose/MoveNetHelper.java:520-529 | with non-empty planes and a non-negative strided index, the U sample read is in range |
| ColorConversion.VIndex | android/app/src/main/java/com/example/footy_testing/pose/MoveNetHelper.java:520-530 | the same for the V sample |
| ColorConversion.PlanarRow | android/app/src/main/java/com/example/footy_testing/pose/MoveNetHelper.java:516-542 | row y has `width` pixels, and pixel x is the planar conversion of luma (x, y) and its chroma sample |
| ColorConversion.PlanarRows | android/app/src/main/java/com/example/footy_testing/pose/MoveNetHelper.java:511-543 | the first `rows` rows hold `rows * width` pixels |
| ColorConversion.PlanarRowsAt | android/app/src/main/java/com/example/footy_testing/pose/MoveNetHelper.java:517-541 | the pixel at row-major index `y * width + x` is the conversion of pixel (x, y) |
| ColorConversion.PlanarImageAt | android/app/src/main/java/com/example/footy_testing/pose/MoveNetHelper.java:509-541 | the planar image has `width * height` pixels, and index `y * width + x` holds pixel (x, y) |
| ColorConversion.PlanesConvertibleIff | android/app/src/main/java/com/example/footy_testing/pose/MoveNetHelper.java:509-530 | planar conversion succeeds iff the size is positive, the luma plane covers `width * height` samples, both chroma planes are non-empty, and no strided chroma index is negative |
| ColorConversion.NonNegativeStridesReadChroma | android/app/src/main/java/com/example/footy_testing/pose/MoveNetHelper.java:513-522 | non-negative strides never produce a negative chroma index |
| ColorConversion.GrayImage | android/app/src/main/java/com/example/footy_testing/pose/MoveNetHelper.java:487-493 | the gray image has one opaque pixel per luma sample, with all three channels equal to it |
| ColorConversion.BlackFrameIsBlack | android/app/src/main/java/com/example/footy_testing/pose/MoveNetHelper.java:489-491 | an all-zero luma plane gives opaque black, 0xFF000000, everywhere |
| ColorConversion.YuvToBitmap | android/app/src/main/java/com/example/footy_testing/pose/MoveNetHelper.java:481-502 | a bitmap is returned iff the size is positive and luma covers it; it is a fresh array equal to the gray image of the first `width * height` samples |
| ColorConversion.YuvPlanesToBitmap | android/app/src/main/java/com/example/footy_testing/pose/BallDetectionHelper.java:443-490 | a bitmap is returned iff the planes are convertible; it is a fresh array equal to the planar image |
| ColorConversion.ConvertRow | android/app/src/main/java/com/example/footy_testing/pose/MoveNetHelper.java:516-542 | the inner loop succeeds iff every pixel of the row is readable; it then appends exactly that row after the rows already written |
| ColorConversion.PlanarPixel | android/app/src/main/java/com/example/footy_testing/pose/MoveNetHelper.java:517-541 | the planar pixel at (x, y): the YUV conversion of the luma sample and its clamped chroma samples, packed opaque; `PlanarPixelChannels` states its channels |
| ColorConversion.PlanarPixelChannels | android/app/src/main/java/com/example/footy_testing/pose/MoveNetHelper.java:517-541 | the planar pixel is opaque and its red, green and blue channels are those of the YUV conversion of the luma and chroma samples read for (x, y) |
| TensorPacking.Normalize | android/app/src/main/java/com/example/footy_testing/pose/MoveNetHelper.java:386-388 | a channel divided by 255 lies in `[0, 1]` and times 255 gives the channel back |
| TensorPacking.ChannelStream | android/app/src/main/java/com/example/footy_testing/pose/MoveNetHelper.java:344-356 | the stream has 3 values per pixel; value i encodes channel `i % 3` (R, G, B) of pixel `i / 3` |
| TensorPacking.QuantizedPixelBytes | android/app/src/main/java/com/example/footy_testing/pose/MoveNetHelper.java:346-354 | a pixel packed from (r, g, b) contributes exactly the bytes r, g, b at offsets 3k, 3k+1 and 3k+2 |
| TensorPacking.GrayFrameTensor | android/app/src/main/java/com/example/footy_testing/pose/BallDetectionHelper.java:311-315 | the byte tensor of a gray bitmap repeats each luma sample three times |
| TensorPacking.FloatTensorInUnitInterval | android/app/src/main/java/com/example/footy_testing/pose/BallDetectionHelper.java:324-328 | every float of a float tensor lies in `[0, 1]` |
| TensorPacking.CropRows | android/app/src/main/java/com/example/footy_testing/pose/MoveNetHelper.java:339-340 | the top-left `w`-wide crop of `rows` rows has `rows * w` pixels |
| TensorPacking.GetPixels | android/app/src/main/java/com/example/footy_testing/pose/MoveNetHelper.java:339-340 | `getPixels` succeeds iff the requested region fits in the bitmap, and it then returns `w * h` pixels |
| TensorPacking.CropRowsAt | android/app/src/main/java/com/example/footy_testing/pose/BallDetectionHelper.java:308-309 | crop pixel (x, y) is bitmap pixel (x, y), read with the bitmap's own stride |
| TensorPacking.WholeFramePixels | android/app/src/main/java/com/example/footy_testing/pose/MoveNetHelper.java:339-340 | reading the whole bitmap returns its pixels unchanged |
| TensorPacking.Buffer.constructor | android/app/src/main/java/com/example/footy_testing/pose/MoveNetHelper.java:336 | a fresh buffer of the given capacity, zero-filled, at position 0 |
| TensorPacking.Buffer.Put | android/app/src/main/java/com/example/footy_testing/pose/MoveNetHelper.java:352-354 | a put succeeds iff there is room; it then writes at the position and advances it; otherwise (a `BufferOverflowException`) nothing changes |
| TensorPacking.PutChannels | android/app/src/main/java/com/example/footy_testing/pose/MoveNetHelper.java:342-356 | the loop succeeds iff the buffer has room for 3 values per pixel; it then appends the channel stream and leaves the rest of the buffer unchanged |
| TensorPacking.PackedTensor | android/app/src/main/java/com/example/footy_testing/pose/BallDetectionHelper.java:302-329 | a packed tensor fills the whole capacity: the channel stream first, then the zeros the buffer started with |
| TensorPacking.PackedTensorPrefix | android/app/src/main/java/com/example/footy_testing/pose/BallDetectionHelper.java:302-329 | a packed tensor starts with the channel stream, and is exactly the stream iff the capacity is three values per pixel |
| TensorPacking.PackPixels | android/app/src/main/java/com/example/footy_testing/pose/MoveNetHelper.java:336-356 | packing into a buffer of the given capacity succeeds iff 3 values per pixel fit, and yields the packed tensor |
| Engine.RequestedDelegate | android/app/src/main/java/com/example/footy_testing/pose/MoveNetHelper.java:99-116 | a GPU delegate is used iff the GPU was requested and its constructor succeeded |
| Engine.PreferredOptions | android/app/src/main/java/com/example/footy_testing/pose/MoveNetHelper.java:89-116 | the first-choice options use 4 threads; NNAPI is on exactly when no delegate was added |
| Engine.FallbackDiffersFromPreferred | android/app/src/main/java/com/example/footy_testing/pose/BallDetectionHelper.java:143-151 | the fallback options are one thread, NNAPI on and no delegate; they differ from every first choice and use fewer threads |
| MoveNet.PoseKeypoints | android/app/src/main/java/com/example/footy_testing/pose/MoveNetHelper.java:419-435 | 17 keypoints in `KEYPOINT_NAMES` order; y and score are copied, and x is mirrored to `1 - x` iff the front camera is used |
| MoveNet.FrontCameraMirrors | android/app/src/main/java/com/example/footy_testing/pose/MoveNetHelper.java:423-425 | the front-camera x is one minus the back-camera x, and mirroring it back gives the raw value; y does not change |
| MoveNet.Include | android/app/src/main/java/com/example/footy_testing/pose/MoveNetHelper.java:439-445 | one accumulator step: the flag is set iff it was set or the keypoint scores above 0.2; a low-scoring keypoint changes nothing; a qualifying one ends up inside the bounds; the minima only fall and the maxima only rise |
| MoveNet.BoundsOf | android/app/src/main/java/com/example/footy_testing/pose/MoveNetHelper.java:414-445 | the accumulators after a keypoint prefix: with no qualifying keypoint they keep their start values; the minima stay at most 1 and the maxima at least 0 |
| MoveNet.BoundsOfAppend | android/app/src/main/java/com/example/footy_testing/pose/MoveNetHelper.java:437-445 | one more keypoint is one more accumulator step |
| MoveNet.BoundsEnclose | android/app/src/main/java/com/example/footy_testing/pose/MoveNetHelper.java:414-446 | the accumulator flags a person iff some keypoint scores above 0.2; every such keypoint lies inside the accumulated min/max |
| MoveNet.BoundsAttained | android/app/src/main/java/com/example/footy_testing/pose/MoveNetHelper.java:439-445 | each accumulated bound is either its start value or the coordinate of a qualifying keypoint |
| MoveNet.PaddedBox | android/app/src/main/java/com/example/footy_testing/pose/MoveNetHelper.java:450-456 | the padded box lies within `[0, 1]`; it covers the clamped bounds; bounds that are ordered and in range give an ordered box in the unit square |
| MoveNet.PersonDetections | android/app/src/main/java/com/example/footy_testing/pose/MoveNetHelper.java:406-464 | at most one person; a person iff some score exceeds 0.2; it is tagged `person` with confidence 1 and all 17 keypoints; its padded box is ordered, in the unit square, and covers every qualifying keypoint |
| MoveNet.DecodePose | android/app/src/main/java/com/example/footy_testing/pose/MoveNetHelper.java:406-464 | the decoding loop computes the person list specified above |
| MoveNet.ChooseScalePlan | android/app/src/main/java/com/example/footy_testing/pose/MoveNetHelper.java:266-317 | 90/270 means rotate then scale; 0 with a 192×192 bitmap means unchanged; any other non-zero rotation means one combined matrix; otherwise scale only; the plans are exclusive and keep the rotation |
| MoveNet.ModelFrame | android/app/src/main/java/com/example/footy_testing/pose/MoveNetHelper.java:266-317 | an unchanged plan uses the bitmap as it is; a bitmap library that scales to 192×192 gives a 192×192 bitmap for every plan except the combined matrix |
| MoveNet.ConvertedFrame | android/app/src/main/java/com/example/footy_testing/pose/MoveNetHelper.java:170-175 | a converted bitmap has the frame's width and height |
| MoveNet.ConversionNeedsOnlyLuma | android/app/src/main/java/com/example/footy_testing/pose/MoveNetHelper.java:548-551 | because a planar failure falls back to grayscale, conversion succeeds iff the gray conversion does; with convertible planes the result is the planar image |
| MoveNet.ConvertFrame | android/app/src/main/java/com/example/footy_testing/pose/MoveNetHelper.java:170-175 | the conversion step returns the converted frame |
| MoveNet.RetriesWithFloats | android/app/src/main/java/com/example/footy_testing/pose/MoveNetHelper.java:374 | the float retry rule: the first run threw with a non-null message that contains "Cannot copy to a TensorFlowLite tensor"; `RetryMessages` states it on samples |
| MoveNet.RetryMessages | android/app/src/main/java/com/example/footy_testing/pose/MoveNetHelper.java:374 | the float retry happens on the engine copy error, also inside a longer message; a missing, truncated or unrelated message gives no retry |
| MoveNet.PoseOutcome | android/app/src/main/java/com/example/footy_testing/pose/MoveNetHelper.java:251-475 | no interpreter gives the empty result; a successful run reports the elapsed time and at most one person, whose box is ordered and in the unit square |
| MoveNet.QuantizedBufferExactlyFull | android/app/src/main/java/com/example/footy_testing/pose/MoveNetHelper.java:330-356 | for `w * h` pixels, the packed `batch*h*w*c`-byte tensor is the RGB channel stream with no zero padding iff `batch * channels == 3` |
| MoveNet.FloatBufferLargeEnough | android/app/src/main/java/com/example/footy_testing/pose/MoveNetHelper.java:377-394 | for `w * h` pixels, the `w*h*c` float retry buffer takes three floats per pixel iff the model has at least 3 channels, and the packed tensor then starts with the normalised channel stream |
| MoveNet.StandardModelRuns | android/app/src/main/java/com/example/footy_testing/pose/MoveNetHelper.java:266-394 | for the standard `[1, 192, 192, 3]` model, a frame rotated by 0, 90 or 270 degrees and a library that keeps its size promise: the pixels are read, they fill the byte tensor exactly, and a pose result comes iff the first run succeeds or the retry is allowed and the float run succeeds |
| MoveNet.MoveNetHelper.constructor | android/app/src/main/java/com/example/footy_testing/pose/MoveNetHelper.java:64-66 | no interpreter, no delegate, nothing released |
| MoveNet.MoveNetHelper.LoadModels | android/app/src/main/java/com/example/footy_testing/pose/MoveNetHelper.java:72-145 | a missing path gives `NULL_MODEL_PATH` and changes nothing; otherwise a created delegate is stored before the load; the stripped path is opened with the preferred options; success replaces the interpreter and failure gives `LOAD_FAIL` and keeps the old one |
| MoveNet.MoveNetHelper.DetectPose | android/app/src/main/java/com/example/footy_testing/pose/MoveNetHelper.java:251-476 | detection is the pose outcome of the bitmap the scale plan produces |
| MoveNet.MoveNetHelper.DetectObjects | android/app/src/main/java/com/example/footy_testing/pose/MoveNetHelper.java:148-227 | the conversion error is reported iff the gray conversion is impossible; otherwise the reply carries the detections and inference time, and an empty result is read as no detections and time 0 |
| MoveNet.MoveNetHelper.Dispose | android/app/src/main/java/com/example/footy_testing/pose/MoveNetHelper.java:556-565 | both handles end up null; the interpreter and then the delegate are released, each only if it was held |
| BallDetection.Corners | android/app/src/main/java/com/example/footy_testing/pose/BallDetectionHelper.java:380-383 | the corners have the given centre and the given width and height |
| BallDetection.Mirror | android/app/src/main/java/com/example/footy_testing/pose/BallDetectionHelper.java:385-389 | mirroring keeps y and the width, and reflects the x centre about 0.5 |
| BallDetection.MirrorInvolution | android/app/src/main/java/com/example/footy_testing/pose/BallDetectionHelper.java:385-389 | mirroring twice gives the original box; mirroring keeps boxes ordered and inside the unit square |
| BallDetection.Clip | android/app/src/main/java/com/example/footy_testing/pose/BallDetectionHelper.java:391-394 | a clipped box lies in the unit square, and a box already inside is unchanged |
| BallDetection.ClipKeepsOrder | android/app/src/main/java/com/example/footy_testing/pose/BallDetectionHelper.java:391-394 | clipping an ordered box keeps it ordered |
| BallDetection.CandidateBoxOrdered | android/app/src/main/java/com/example/footy_testing/pose/BallDetectionHelper.java:375-394 | a candidate with non-negative size decodes to an ordered box in the unit square, mirrored or not |
| BallDetection.CandidateBox | android/app/src/main/java/com/example/footy_testing/pose/BallDetectionHelper.java:375-394 | the box lies in the unit square; its rows are the clipped `y ∓ h/2`; its columns are the clipped `x ∓ w/2`, or for the front camera the clipped `1 - (x ± w/2)` |
| BallDetection.BallDetections | android/app/src/main/java/com/example/footy_testing/pose/BallDetectionHelper.java:364-410 | at most one ball; none for an invalid class; a ball iff some candidate's class score exceeds 0.10; the ball is the lowest such candidate, tagged `soccer_ball`, with its score as confidence and a clipped box |
| BallDetection.DecodeBall | android/app/src/main/java/com/example/footy_testing/pose/BallDetectionHelper.java:362-416 | the scanning loop with its `break` computes the detections specified above |
| BallDetection.ResolvedClass | android/app/src/main/java/com/example/footy_testing/pose/BallDetectionHelper.java:125-132 | when some label matches, the id is the first matching label; otherwise the previous id is kept |
| BallDetection.SportsBallResolves | android/app/src/main/java/com/example/footy_testing/pose/BallDetectionHelper.java:125-131 | the COCO label `sports ball` is recognised as the ball class when no earlier label matches |
| BallDetection.IsBallLabel | android/app/src/main/java/com/example/footy_testing/pose/BallDetectionHelper.java:126-127 | the label rule: after lower-casing, the label contains "soccer" or "sports ball", or is "ball"; `BallLabelCases` states it on samples |
| BallDetection.BallLabelCases | android/app/src/main/java/com/example/footy_testing/pose/BallDetectionHelper.java:126-127 | "ball", "BALL", "sports ball" and "Soccer Ball" are ball labels; "football", "balls" and "person" are not |
| BallDetection.SumNonNegative | android/app/src/main/java/com/example/footy_testing/pose/BallDetectionHelper.java:354 | the total of non-negative inference times is non-negative |
| BallDetection.SumAtMost | android/app/src/main/java/com/example/footy_testing/pose/BallDetectionHelper.java:354 | the total of `n` times, each at most `t`, is at most `n * t` |
| BallDetection.JavaDiv | android/app/src/main/java/com/example/footy_testing/pose/BallDetectionHelper.java:355 | Java `long` division: the Euclidean quotient for a non-negative dividend; a negative dividend never gives a positive quotient |
| BallDetection.JavaDivOdd | android/app/src/main/java/com/example/footy_testing/pose/BallDetectionHelper.java:355 | negating the dividend negates the quotient |
| BallDetection.JavaDivTruncates | android/app/src/main/java/com/example/footy_testing/pose/BallDetectionHelper.java:355 | the quotient truncates toward zero: the remainder has the dividend's sign and is smaller than the divisor |
| BallDetection.AverageLatency | android/app/src/main/java/com/example/footy_testing/pose/BallDetectionHelper.java:353-355 | the average is 0 before the first inference, the only time after one, and otherwise the truncated quotient of the total by the count |
| BallDetection.AverageLatencyBounds | android/app/src/main/java/com/example/footy_testing/pose/BallDetectionHelper.java:353-355 | with times between 0 and `t`, the average lies between 0 and `t` |
| BallDetection.BallFrame | android/app/src/main/java/com/example/footy_testing/pose/BallDetectionHelper.java:198-203 | a converted bitmap has the frame's width and height |
| BallDetection.ConversionAgreesWithPose | android/app/src/main/java/com/example/footy_testing/pose/BallDetectionHelper.java:198-209 | when the ball conversion succeeds, the pose conversion gives the same bitmap; with planes present, it succeeds iff the planes are convertible, since there is no grayscale fallback |
| BallDetection.ConvertFrame | android/app/src/main/java/com/example/footy_testing/pose/BallDetectionHelper.java:198-209 | the conversion step returns the converted frame |
| BallDetection.DecodedRun | android/app/src/main/java/com/example/footy_testing/pose/BallDetectionHelper.java:337-416 | an output tensor of the wrong shape counts as a failed run with no detections; a run yields at most one valid ball, and none for a class outside the rows |
| BallDetection.BallOutcome | android/app/src/main/java/com/example/footy_testing/pose/BallDetectionHelper.java:279-423 | no interpreter means no run and no detections; a failed run gives no detections; results are at most one valid ball |
| BallDetection.PackInput | android/app/src/main/java/com/example/footy_testing/pose/BallDetectionHelper.java:299-329 | packing succeeds iff the buffer has room for 3 values per pixel; it then yields bytes for UINT8/INT8 models and floats otherwise |
| BallDetection.UnresolvedClassFindsNothing | android/app/src/main/java/com/example/footy_testing/pose/BallDetectionHelper.java:370 | with class id −1 (no ball label) no ball is ever reported |
| BallDetection.BufferExactlyFull | android/app/src/main/java/com/example/footy_testing/pose/BallDetectionHelper.java:305-315 | for `w * h` pixels, the packed `w*h*c`-byte tensor is the RGB channel stream with no zero padding iff the model has 3 channels |
| BallDetection.BallRunsUnlessEngineFails | android/app/src/main/java/com/example/footy_testing/pose/BallDetectionHelper.java:279-360 | with a scaler that returns the requested size, a positive model size and at least 3 channels, the pixels are read and fit the buffer; a completed inference then happens iff the engine runs and fills the allocated output |
| BallDetection.LoadSucceedsIff | android/app/src/main/java/com/example/footy_testing/pose/BallDetectionHelper.java:63-174 | loading succeeds iff both paths are given, the labels can be read, and either the preferred or the minimal options load the model; the new interpreter is the first attempt's, else the second's |
| BallDetection.LoadOutcome | android/app/src/main/java/com/example/footy_testing/pose/BallDetectionHelper.java:63-174 | a missing path fails with `LOAD_FAIL` and changes nothing; the reply is success or `LOAD_FAIL`; success leaves an interpreter and labels and resolves the class from them; failure keeps the labels and class id; the delegate is the old one or the created one |
| BallDetection.BallDetectionHelper.constructor | android/app/src/main/java/com/example/footy_testing/pose/BallDetectionHelper.java:40-58 | no handles and no labels, class id −1, and counters at zero |
| BallDetection.BallDetectionHelper.ScanLabels | android/app/src/main/java/com/example/footy_testing/pose/BallDetectionHelper.java:125-132 | the class id becomes the resolved class of the labels |
| BallDetection.BallDetectionHelper.LoadModels | android/app/src/main/java/com/example/footy_testing/pose/BallDetectionHelper.java:63-174 | the new handles, labels, class id and reply are those of the two-attempt load, and the latency counters are untouched |
| BallDetection.BallDetectionHelper.RecordInference | android/app/src/main/java/com/example/footy_testing/pose/BallDetectionHelper.java:353-355 | one more inference is recorded; the counters keep the count, the sum and the truncated mean of all recorded times |
| BallDetection.BallDetectionHelper.DetectBall | android/app/src/main/java/com/example/footy_testing/pose/BallDetectionHelper.java:279-423 | the detections are those of the ball outcome, and the elapsed time is recorded iff the engine ran |
| BallDetection.BallDetectionHelper.DetectBallCall | android/app/src/main/java/com/example/footy_testing/pose/BallDetectionHelper.java:176-260 | a failed conversion gives `IMAGE_CONVERSION_ERROR` and records nothing; otherwise the frame is rotated for a non-zero rotation and detected on |
| BallDetection.BallDetectionHelper.Dispose | android/app/src/main/java/com/example/footy_testing/pose/BallDetectionHelper.java:425-441 | both handles end up null; the interpreter and then the delegate are released, each only if it was held |

## Left out

- Method-channel argument parsing and the `Map`/`List` reply marshalling. Replies are datatypes
  (`PoseReply`, `BallReply`, `LoadReply`). Argument defaults such as `uvRowStride = width` and
  `uvPixelStride = 1` are the caller's choice of `Chroma`.
- `MainActivity` registration and the `registerWith` glue are not part of this model.
- The ball helper's `dispose` method is modelled. Its channel has no `dispose` case, and none is
  added.
- The TensorFlow Lite interpreter, GPU delegate and NNAPI are foreign calls. They are parameters:
  `open`, `run`, and a `created` delegate outcome.
- `getMessage` of a load failure is reduced to the code `LOAD_FAIL`.
- The MoveNet float retry depends only on whether the first failure's message contains
  "Cannot copy to a TensorFlowLite tensor".
- Android `Bitmap`/`Matrix` rotation and scaling are parameters (`transform`, `rotate`, `scale`).
  Only MoveNet's choice of scale plan is modelled. The `OutOfMemoryError` fallbacks of that code
  are not. What `createScaledBitmap` guarantees about the size of its result is the hypothesis
  `MoveNet.ScalesToModel` or `BallDetection.ScalesExactly` of the lemmas that rely on it.
- `System.currentTimeMillis` and logging are not modelled. The inference time is the `elapsed`
  parameter, and `processingTimeMs` is not reported.
- IEEE-754 single precision is modelled as `real`, so `c / 255.0f`, `w / 2` and the comparisons with
  0.2 and 0.10 are exact. Native byte order and the 4-byte float layout are not modelled. A float
  tensor is a sequence of values.
- Text.ToLower: lower-cases ASCII letters only, not all of Java's Unicode `toLowerCase`.
- Java `int`/`long` overflow is not modelled in shape products, buffer sizes or the latency sum.
  `PreShiftFitsInJavaInt` shows that the colour arithmetic cannot overflow.
- ColorConversion.ChromaIndex: the planar index products `y * width`, `(y >> 1) * uvRowStride` and
  `(x >> 1) * uvPixelStride` are unbounded here, whereas Java computes them in 32-bit `int`. A
  stride near 2^30 can wrap to a negative index in Java and make it throw: MoveNet then falls
  back to grayscale, and the ball helper reports a conversion error. The model instead finds the
  planes convertible. Camera strides are far below that range.
- BallDetection.BallDetectionHelper.RecordInference: `movingAvgInferenceTime` is kept as the
  integer that `long / long` produces. The widening to Java `double` is left out, since it does
  not change the value.
- BallDetection.DecodedRun: an engine output whose shape differs from the allocated
  `[d0][d1][d2]` array counts as a failed run, as TensorFlow Lite rejects it. An output with batch
  size 0 is read as no detections; in Java, indexing `output[0]` would throw inside the decoder's
  own catch, which also results in no detections.
- MoveNet.PoseOutcome: a keypoint tensor that is not `[1][1][17][3]` is not modelled. The output
  array is allocated at that shape, and the engine is trusted to fill it.
- MoveNet.QuantizedBufferExactlyFull: the quantised tensor is exactly full iff
  `batch * channels == 3`, for example batch 1 with 3 channels, or batch 3 with 1 channel. The code
  checks neither the batch nor the channel count.
- `yuvPlanesToBitmap` is one nested loop. The model splits the inner loop into
  `ColorConversion.ConvertRow`.
- Java exceptions become total error values. A negative chroma index, an index past the luma
  plane, or a non-positive size ends the planar conversion with no bitmap. MoveNet's caller
  then falls back to grayscale.
- Label reading is deterministic: both load attempts see the same `readLabels` result.
