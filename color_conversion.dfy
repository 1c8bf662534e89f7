/** Camera planes to ARGB pixels: `yuvToBitmap` (luma only) and `yuvPlanesToBitmap`
    (full planar YUV), which both helpers carry in identical copies.  The copies
    differ only in what a failed planar conversion returns; that policy sits in
    each helper's own module. */
module ColorConversion {
  import opened Wrappers

  /** A sample read from a Java `byte[]` plane after `& 0xFF`. */
  type uint8 = x: int | 0 <= x < 256

  /** The bit pattern of a Java `int` pixel, read as an unsigned number. */
  type uint32 = x: int | 0 <= x < 0x1_0000_0000

  // Channel extraction, `(p >> 24) & 0xFF`, `(p >> 16) & 0xFF`, `(p >> 8) & 0xFF`, `p & 0xFF`.
  function Alpha(p: uint32): uint8 { p / 0x100_0000 }
  function Red(p: uint32): uint8 { (p / 0x1_0000) % 0x100 }
  function Green(p: uint32): uint8 { (p / 0x100) % 0x100 }
  function Blue(p: uint32): uint8 { p % 0x100 }

  /** Channel `c` of a pixel in tensor order: 0 is red, 1 green, 2 blue. */
  function Channel(p: uint32, c: nat): uint8
    requires c < 3
  {
    if c == 0 then Red(p) else if c == 1 then Green(p) else Blue(p)
  }

  /** Division and remainder by a fixed power of two split `q * d + r` back into `q` and `r`. */
  lemma SplitByte(q: int, r: int)
    requires 0 <= r < 0x100
    ensures (q * 0x100 + r) / 0x100 == q && (q * 0x100 + r) % 0x100 == r
  {
  }

  lemma SplitHalfWord(q: int, r: int)
    requires 0 <= r < 0x1_0000
    ensures (q * 0x1_0000 + r) / 0x1_0000 == q
  {
  }

  lemma SplitTopByte(q: int, r: int)
    requires 0 <= r < 0x100_0000
    ensures (q * 0x100_0000 + r) / 0x100_0000 == q
  {
  }

  /** `0xff000000 | (r << 16) | (g << 8) | b`: an opaque pixel.  The four fields do not
      overlap, so the bitwise or is a sum. */
  function Argb(r: uint8, g: uint8, b: uint8): uint32 {
    0xFF00_0000 + r * 0x1_0000 + g * 0x100 + b
  }

  /** Unpacking a packed pixel gives back the channels it was built from, and alpha 0xFF. */
  lemma ArgbUnpacks(r: uint8, g: uint8, b: uint8)
    ensures Alpha(Argb(r, g, b)) == 0xFF
    ensures Red(Argb(r, g, b)) == r && Green(Argb(r, g, b)) == g && Blue(Argb(r, g, b)) == b
  {
    SplitByte(0xFF_0000 + r * 0x100 + g, b);
    SplitByte(0xFF00 + r, g);
    SplitHalfWord(0xFF00 + r, g * 0x100 + b);
    SplitByte(0xFF, r);
    SplitTopByte(0xFF, r * 0x1_0000 + g * 0x100 + b);
  }

  /** The grayscale pixel of a luma sample: R = G = B = Y, alpha 0xFF. */
  function GrayPixel(y: uint8): (p: uint32)
    ensures Alpha(p) == 0xFF && Red(p) == y && Green(p) == y && Blue(p) == y
  {
    ArgbUnpacks(y, y, y);
    Argb(y, y, y)
  }

  /** The largest pre-shift value whose `>> 10` is still 255. */
  const PreShiftMax: int := 262143

  function ClampInt(v: int, lo: int, hi: int): int
    requires lo <= hi
  {
    if v < lo then lo else if v > hi then hi else v
  }

  /** `v < 0 ? 0 : (v > 262143 ? 255 : v >> 10)`: the channel is the 1024th part of the
      pre-shift value clamped to [0, 262143], rounded down. */
  function Saturate(v: int): (c: uint8)
    ensures c * 1024 <= ClampInt(v, 0, PreShiftMax) < c * 1024 + 1024
  {
    if v < 0 then 0 else if v > PreShiftMax then 255 else v / 1024
  }

  /** Clamping before the shift is the same as shifting and then capping at 255, because
      262143 is exactly the last value that shifts to 255. */
  lemma SaturateIsShiftThenCap(v: int)
    ensures Saturate(v) == if v < 0 then 0 else if v / 1024 > 255 then 255 else v / 1024
  {
  }

  /** Saturation never decreases as the pre-shift value grows. */
  lemma SaturateMonotone(a: int, b: int)
    requires a <= b
    ensures Saturate(a) <= Saturate(b)
  {
  }

  datatype Rgb = Rgb(r: uint8, g: uint8, b: uint8)

  /** The fixed-point BT.601-style transform of one pixel. */
  function YuvToRgb(y: uint8, u: uint8, v: uint8): (c: Rgb)
    ensures u == 128 && v == 128 ==> c.r == c.g == c.b
    ensures u == 128 && v == 128 && y <= 16 ==> c == Rgb(0, 0, 0)
    ensures u == 128 && v == 128 && y >= 236 ==> c == Rgb(255, 255, 255)
  {
    var y1192 := 1192 * (y - 16);
    var uu := u - 128;
    var vv := v - 128;
    Rgb(Saturate(y1192 + 1634 * vv),
        Saturate(y1192 - 833 * vv - 400 * uu),
        Saturate(y1192 + 2066 * uu))
  }

  /** The three pre-shift sums stay far inside Java's 32-bit `int` range, so the model's
      unbounded integers compute the same values as the source. */
  lemma PreShiftFitsInJavaInt(y: uint8, u: uint8, v: uint8)
    ensures -0x8000_0000 <= 1192 * (y - 16) + 1634 * (v - 128) < 0x8000_0000
    ensures -0x8000_0000 <= 1192 * (y - 16) - 833 * (v - 128) - 400 * (u - 128) < 0x8000_0000
    ensures -0x8000_0000 <= 1192 * (y - 16) + 2066 * (u - 128) < 0x8000_0000
  {
  }

  /** The chroma planes of a frame with their strides.  U and V share one index. */
  datatype Chroma = Chroma(u: seq<uint8>, v: seq<uint8>, rowStride: int, pixelStride: int)

  /** The position of element `n` in a layout whose elements lie `stride` apart, built up
      one element at a time as the loops do (`y * width`, `(y >> 1) * uvRowStride`, ...). */
  function Offset(n: nat, stride: int): int {
    if n == 0 then 0 else Offset(n - 1, stride) + stride
  }

  lemma {:induction false} OffsetIsProduct(n: nat, stride: int)
    ensures Offset(n, stride) == n * stride
  {
    if n > 0 {
      OffsetIsProduct(n - 1, stride);
      assert n * stride == (n - 1) * stride + stride;
    }
  }

  /** Row-major positions of a `width`-wide image stay below the position of row `rows`. */
  lemma {:induction false} RowMajorBound(x: nat, y: nat, width: nat, rows: nat)
    requires x < width && y < rows
    ensures 0 <= Offset(y, width) + x < Offset(rows, width)
  {
    if y < rows - 1 {
      RowMajorBound(x, y, width, rows - 1);
    } else {
      OffsetNonNegative(y, width);
    }
  }

  lemma {:induction false} OffsetNonNegative(n: nat, stride: nat)
    ensures Offset(n, stride) >= 0
  {
    if n > 0 {
      OffsetNonNegative(n - 1, stride);
    }
  }

  lemma {:induction false} OffsetMonotone(a: nat, b: nat, stride: nat)
    requires a <= b
    ensures 0 <= Offset(a, stride) <= Offset(b, stride)
  {
    if a < b {
      OffsetMonotone(a, b - 1, stride);
    } else {
      OffsetNonNegative(a, stride);
    }
  }

  /** The luma index `y * width + x` of pixel `(x, y)`. */
  function LumaIndex(x: nat, y: nat, width: int): int {
    Offset(y, width) + x
  }

  /** `(y >> 1) * uvRowStride + (x >> 1) * uvPixelStride` (for `x, y >= 0`, `>> 1` is `/ 2`). */
  function ChromaIndex(x: nat, y: nat, rowStride: int, pixelStride: int): int {
    Offset(y / 2, rowStride) + Offset(x / 2, pixelStride)
  }

  /** The guarded clamp: if either index is past its plane, both are cut to their plane's
      last element.  Because U and V share the index, this is the same as cutting each
      index to its own plane unconditionally. */
  function ClampChroma(index: int, uLength: nat, vLength: nat): (r: (int, int))
    ensures r.0 == if index < uLength then index else uLength - 1
    ensures r.1 == if index < vLength then index else vLength - 1
  {
    if index >= uLength || index >= vLength then
      (if index < uLength then index else uLength - 1,
       if index < vLength then index else vLength - 1)
    else
      (index, index)
  }

  /** Pixel `(x, y)` can be converted without an out-of-bounds read: its luma sample exists
      and both clamped chroma indices land inside their planes. */
  predicate PixelReadable(luma: seq<uint8>, c: Chroma, width: int, x: nat, y: nat) {
    && 0 <= LumaIndex(x, y, width) < |luma|
    && |c.u| > 0 && |c.v| > 0
    && ChromaIndex(x, y, c.rowStride, c.pixelStride) >= 0
  }

  /** The U sample read for pixel `(x, y)`, clamped to the plane. */
  function UIndex(c: Chroma, x: nat, y: nat): (i: int)
    requires |c.u| > 0 && |c.v| > 0 && ChromaIndex(x, y, c.rowStride, c.pixelStride) >= 0
    ensures 0 <= i < |c.u|
  {
    ClampChroma(ChromaIndex(x, y, c.rowStride, c.pixelStride), |c.u|, |c.v|).0
  }

  /** The V sample read for pixel `(x, y)`, clamped to the plane. */
  function VIndex(c: Chroma, x: nat, y: nat): (i: int)
    requires |c.u| > 0 && |c.v| > 0 && ChromaIndex(x, y, c.rowStride, c.pixelStride) >= 0
    ensures 0 <= i < |c.v|
  {
    ClampChroma(ChromaIndex(x, y, c.rowStride, c.pixelStride), |c.u|, |c.v|).1
  }

  /** The converted pixel `(x, y)`: luma at `y * width + x`, chroma at half resolution. */
  function PlanarPixel(luma: seq<uint8>, c: Chroma, width: int, x: nat, y: nat): uint32
    requires PixelReadable(luma, c, width, x, y)
  {
    var rgb := YuvToRgb(luma[LumaIndex(x, y, width)], c.u[UIndex(c, x, y)], c.v[VIndex(c, x, y)]);
    Argb(rgb.r, rgb.g, rgb.b)
  }

  /** A converted pixel is opaque, and its channels are the YUV->RGB conversion of its luma
      sample and of the clamped chroma samples of its 2 x 2 block. */
  lemma PlanarPixelChannels(luma: seq<uint8>, c: Chroma, width: int, x: nat, y: nat)
    requires PixelReadable(luma, c, width, x, y)
    ensures var p := PlanarPixel(luma, c, width, x, y);
      var rgb := YuvToRgb(luma[LumaIndex(x, y, width)], c.u[UIndex(c, x, y)], c.v[VIndex(c, x, y)]);
      Alpha(p) == 0xFF && Red(p) == rgb.r && Green(p) == rgb.g && Blue(p) == rgb.b
  {
    var rgb := YuvToRgb(luma[LumaIndex(x, y, width)], c.u[UIndex(c, x, y)], c.v[VIndex(c, x, y)]);
    ArgbUnpacks(rgb.r, rgb.g, rgb.b);
  }

  /** Every pixel of the first `rows` rows is readable. */
  predicate RowsReadable(luma: seq<uint8>, c: Chroma, width: int, rows: int) {
    forall y: nat, x: nat | y < rows && x < width :: PixelReadable(luma, c, width, x, y)
  }

  /** The planar conversion succeeds: a non-empty image all of whose pixels are readable. */
  predicate PlanesConvertible(luma: seq<uint8>, c: Chroma, width: int, height: int) {
    width > 0 && height > 0 && RowsReadable(luma, c, width, height)
  }

  /** The first `n` pixels of row `y`. */
  function PlanarRow(luma: seq<uint8>, c: Chroma, width: int, y: nat, n: nat): (row: seq<uint32>)
    requires forall x: nat | x < n :: PixelReadable(luma, c, width, x, y)
    ensures |row| == n
    ensures forall x :: 0 <= x < n ==> row[x] == PlanarPixel(luma, c, width, x, y)
  {
    seq(n, x requires 0 <= x < n => PlanarPixel(luma, c, width, x, y))
  }

  /** The first `rows` rows of the converted image, row after row. */
  function PlanarRows(luma: seq<uint8>, c: Chroma, width: nat, rows: nat): (img: seq<uint32>)
    requires RowsReadable(luma, c, width, rows)
    ensures |img| == Offset(rows, width)
  {
    if rows == 0 then []
    else PlanarRows(luma, c, width, rows - 1) + PlanarRow(luma, c, width, rows - 1, width)
  }

  /** The image the planar conversion produces. */
  function PlanarImage(luma: seq<uint8>, c: Chroma, width: int, height: int): seq<uint32>
    requires PlanesConvertible(luma, c, width, height)
  {
    PlanarRows(luma, c, width, height)
  }

  /** Pixel `(x, y)` of the first `rows` rows sits at its row-major position. */
  lemma {:induction false} PlanarRowsAt(luma: seq<uint8>, c: Chroma, width: nat, rows: nat, x: nat, y: nat)
    requires RowsReadable(luma, c, width, rows)
    requires x < width && y < rows
    ensures 0 <= LumaIndex(x, y, width) < |PlanarRows(luma, c, width, rows)|
    ensures PlanarRows(luma, c, width, rows)[LumaIndex(x, y, width)] == PlanarPixel(luma, c, width, x, y)
  {
    RowMajorBound(x, y, width, rows);
    var prev := PlanarRows(luma, c, width, rows - 1);
    assert PlanarRows(luma, c, width, rows) == prev + PlanarRow(luma, c, width, rows - 1, width);
    if y < rows - 1 {
      PlanarRowsAt(luma, c, width, rows - 1, x, y);
    }
  }

  /** When the conversion succeeds its image has `width * height` pixels and pixel `(x, y)`,
      at index `y * width + x`, is the planar formula: the nested loops write every pixel
      once, at its row-major position. */
  lemma PlanarImageAt(luma: seq<uint8>, c: Chroma, width: int, height: int, x: nat, y: nat)
    requires PlanesConvertible(luma, c, width, height)
    requires x < width && y < height
    ensures |PlanarImage(luma, c, width, height)| == width * height
    ensures PlanarImage(luma, c, width, height)[y * width + x] == PlanarPixel(luma, c, width, x, y)
  {
    PlanarRowsAt(luma, c, width, height, x, y);
    OffsetIsProduct(height, width);
    OffsetIsProduct(y, width);
  }

  /** Success of the planar conversion in plain terms: a positive size, a luma plane with at
      least `width * height` samples, non-empty chroma planes and no negative chroma index. */
  lemma PlanesConvertibleIff(luma: seq<uint8>, c: Chroma, width: int, height: int)
    ensures PlanesConvertible(luma, c, width, height) <==>
      && width > 0 && height > 0 && |luma| >= width * height
      && |c.u| > 0 && |c.v| > 0
      && forall y: nat, x: nat | y < height && x < width :: ChromaIndex(x, y, c.rowStride, c.pixelStride) >= 0
  {
    if width > 0 && height > 0 {
      OffsetIsProduct(height, width);
      assert Offset(height, width) == Offset(height - 1, width) + width;
      if PlanesConvertible(luma, c, width, height) {
        assert PixelReadable(luma, c, width, width - 1, height - 1);
        forall y: nat, x: nat | y < height && x < width
          ensures ChromaIndex(x, y, c.rowStride, c.pixelStride) >= 0
        {
          assert PixelReadable(luma, c, width, x, y);
        }
      }
      if && |luma| >= width * height && |c.u| > 0 && |c.v| > 0
         && forall y: nat, x: nat | y < height && x < width :: ChromaIndex(x, y, c.rowStride, c.pixelStride) >= 0
      {
        forall y: nat, x: nat | y < height && x < width
          ensures PixelReadable(luma, c, width, x, y)
        {
          RowMajorBound(x, y, width, height);
        }
      }
    }
  }

  /** With non-negative strides no chroma index is negative, so only the plane sizes matter. */
  lemma NonNegativeStridesReadChroma(c: Chroma, x: nat, y: nat)
    requires c.rowStride >= 0 && c.pixelStride >= 0
    ensures ChromaIndex(x, y, c.rowStride, c.pixelStride) >= 0
  {
    OffsetNonNegative(y / 2, c.rowStride);
    OffsetNonNegative(x / 2, c.pixelStride);
  }

  /** The luma-only conversion succeeds: a non-empty image and enough luma samples. */
  predicate GrayConvertible(luma: seq<uint8>, width: int, height: int) {
    width > 0 && height > 0 && |luma| >= width * height
  }

  /** The grayscale image of a luma plane, one pixel per sample. */
  function GrayImage(luma: seq<uint8>): (img: seq<uint32>)
    ensures |img| == |luma|
    ensures forall k :: 0 <= k < |luma| ==>
      Alpha(img[k]) == 0xFF && Red(img[k]) == luma[k] && Green(img[k]) == luma[k] && Blue(img[k]) == luma[k]
  {
    seq(|luma|, k requires 0 <= k < |luma| => GrayPixel(luma[k]))
  }

  /** An all-black luma plane gives a uniformly black opaque image. */
  lemma BlackFrameIsBlack(luma: seq<uint8>)
    requires forall k :: 0 <= k < |luma| ==> luma[k] == 0
    ensures forall k :: 0 <= k < |luma| ==> GrayImage(luma)[k] == 0xFF00_0000
  {
  }

  /** `yuvToBitmap`: the luma-only fallback.  `Bitmap.createBitmap` rejects a non-positive
      size and a short luma plane ends the loop with an out-of-bounds read; either way
      the result is `null` (`None`). */
  method YuvToBitmap(luma: seq<uint8>, width: int, height: int) returns (bitmap: Option<array<uint32>>)
    ensures bitmap.Some? <==> GrayConvertible(luma, width, height)
    ensures bitmap.Some? ==> fresh(bitmap.value)
    ensures bitmap.Some? ==> bitmap.value[..] == GrayImage(luma[..width * height])
  {
    if width <= 0 || height <= 0 {
      return None;
    }
    OffsetIsProduct(height, width);
    var pixels := new uint32[width * height];
    for i := 0 to height
      invariant 0 <= Offset(i, width) <= Offset(height, width)
      invariant Offset(i, width) <= |luma|
      invariant forall k :: 0 <= k < Offset(i, width) ==> pixels[k] == GrayPixel(luma[k])
    {
      var rowOffset := Offset(i, width);
      assert Offset(i + 1, width) == rowOffset + width;
      OffsetMonotone(i + 1, height, width);
      for j := 0 to width
        invariant rowOffset + j <= |luma|
        invariant forall k :: 0 <= k < rowOffset + j ==> pixels[k] == GrayPixel(luma[k])
      {
        var k := rowOffset + j;
        if k >= |luma| {
          return None;
        }
        pixels[k] := GrayPixel(luma[k]);
      }
    }
    assert pixels[..] == GrayImage(luma[..width * height]);
    return Some(pixels);
  }

  /** `yuvPlanesToBitmap` with the `null` result on failure.  A negative array size, a
      non-positive bitmap size or an out-of-bounds plane read all end in `None`. */
  method YuvPlanesToBitmap(luma: seq<uint8>, chroma: Chroma, width: int, height: int)
    returns (bitmap: Option<array<uint32>>)
    ensures bitmap.Some? <==> PlanesConvertible(luma, chroma, width, height)
    ensures bitmap.Some? ==> fresh(bitmap.value)
    ensures bitmap.Some? ==> bitmap.value[..] == PlanarImage(luma, chroma, width, height)
  {
    if width <= 0 || height <= 0 {
      return None;
    }
    OffsetIsProduct(height, width);
    var argb := new uint32[width * height];
    for y := 0 to height
      invariant 0 <= Offset(y, width) <= Offset(height, width)
      invariant RowsReadable(luma, chroma, width, y)
      invariant argb[..Offset(y, width)] == PlanarRows(luma, chroma, width, y)
    {
      assert Offset(y + 1, width) == Offset(y, width) + width;
      OffsetMonotone(y + 1, height, width);
      var ok := ConvertRow(luma, chroma, width, y, argb);
      if !ok {
        return None;
      }
      assert PlanarRows(luma, chroma, width, y + 1) == PlanarRows(luma, chroma, width, y) + PlanarRow(luma, chroma, width, y, width);
    }
    assert argb[..] == argb[..Offset(height, width)];
    return Some(argb);
  }

  /** The inner loop of `yuvPlanesToBitmap`: row `y` is converted pixel by pixel into
      `argb`, and the conversion stops at the first pixel whose luma or chroma read would
      be out of bounds.  Nothing before the row changes. */
  method ConvertRow(luma: seq<uint8>, chroma: Chroma, width: nat, y: nat, argb: array<uint32>)
    returns (ok: bool)
    requires 0 <= Offset(y, width) && Offset(y, width) + width <= argb.Length
    modifies argb
    ensures ok <==> forall x: nat | x < width :: PixelReadable(luma, chroma, width, x, y)
    ensures ok ==> argb[..Offset(y, width) + width] == old(argb[..Offset(y, width)]) + PlanarRow(luma, chroma, width, y, width)
  {
    var yRowOffset := Offset(y, width);
    for x := 0 to width
      invariant forall x': nat | x' < x :: PixelReadable(luma, chroma, width, x', y)
      invariant argb[..yRowOffset + x] == old(argb[..yRowOffset]) + PlanarRow(luma, chroma, width, y, x)
    {
      var yIndex := yRowOffset + x;
      if yIndex >= |luma| {
        assert !PixelReadable(luma, chroma, width, x, y);
        return false;
      }
      var uvIndex := ChromaIndex(x, y, chroma.rowStride, chroma.pixelStride);
      var (uIndex, vIndex) := ClampChroma(uvIndex, |chroma.u|, |chroma.v|);
      if uIndex < 0 || vIndex < 0 {
        assert !PixelReadable(luma, chroma, width, x, y);
        return false;
      }
      assert PixelReadable(luma, chroma, width, x, y);
      var rgb := YuvToRgb(luma[yIndex], chroma.u[uIndex], chroma.v[vIndex]);
      argb[yIndex] := Argb(rgb.r, rgb.g, rgb.b);
      assert argb[..yIndex + 1] == argb[..yIndex] + [argb[yIndex]];
      assert PlanarRow(luma, chroma, width, y, x + 1) == PlanarRow(luma, chroma, width, y, x) + [PlanarPixel(luma, chroma, width, x, y)];
    }
    return true;
  }
}
