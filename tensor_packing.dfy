/** Writing model-resolution ARGB pixels into a model's input buffer: R, G, B of each
    pixel in row-major order, as raw bytes (quantised models) or as `c / 255` floats. */
module TensorPacking {
  import opened Wrappers
  import opened ColorConversion

  /** `(byte) c` keeps the low 8 bits, which for a channel value is the value itself. */
  function ByteOf(c: uint8): uint8 { c }

  /** `c / 255.0f`: a channel scaled to the unit interval (exact here, rounded in Java). */
  function Normalize(c: uint8): (v: real)
    ensures 0.0 <= v <= 1.0
    ensures v * 255.0 == c as real
  {
    c as real / 255.0
  }

  /** The values the packing loop writes: for pixel `k`, `encode` of its red, green and blue
      channel at positions `3k`, `3k + 1`, `3k + 2`. */
  function ChannelStream<T>(pixels: seq<uint32>, encode: uint8 -> T): (s: seq<T>)
    ensures |s| == 3 * |pixels|
    ensures forall i :: 0 <= i < |s| ==> s[i] == encode(Channel(pixels[i / 3], i % 3))
  {
    if pixels == [] then []
    else
      var last := pixels[|pixels| - 1];
      ChannelStream(pixels[..|pixels| - 1], encode) + [encode(Red(last)), encode(Green(last)), encode(Blue(last))]
  }

  /** Byte `3k + c` of the quantised tensor is channel `c` (R, G, B) of pixel `k`: a pixel the
      converter built from `(r, g, b)` packs back to exactly `r`, `g`, `b`. */
  lemma QuantizedPixelBytes(pixels: seq<uint32>, k: nat, r: uint8, g: uint8, b: uint8)
    requires k < |pixels| && pixels[k] == Argb(r, g, b)
    ensures var bytes := ChannelStream(pixels, ByteOf);
      bytes[3 * k] == r && bytes[3 * k + 1] == g && bytes[3 * k + 2] == b
  {
    ArgbUnpacks(r, g, b);
    assert (3 * k) / 3 == k && (3 * k + 1) / 3 == k && (3 * k + 2) / 3 == k;
  }

  /** A grayscale frame packs to a tensor whose three channels all carry the luma sample. */
  lemma GrayFrameTensor(luma: seq<uint8>, i: nat)
    requires i < 3 * |luma|
    ensures ChannelStream(GrayImage(luma), ByteOf)[i] == luma[i / 3]
  {
  }

  /** Every value of a float tensor lies in [0, 1]. */
  lemma FloatTensorInUnitInterval(pixels: seq<uint32>, i: nat)
    requires i < 3 * |pixels|
    ensures 0.0 <= ChannelStream(pixels, Normalize)[i] <= 1.0
  {
  }

  /** A decoded `Bitmap`: `width * height` ARGB pixels in row-major order. */
  datatype RawFrame = RawFrame(width: nat, height: nat, pixels: seq<uint32>)
  type Frame = f: RawFrame | |f.pixels| == Offset(f.height, f.width) witness RawFrame(0, 0, [])

  /** The first `w` pixels of each of the first `rows` rows of `f`, row after row. */
  function CropRows(f: Frame, w: nat, rows: nat): (r: seq<uint32>)
    requires w <= f.width && rows <= f.height
    ensures |r| == Offset(rows, w)
  {
    if rows == 0 then []
    else
      OffsetNonNegative(rows - 1, f.width);
      OffsetMonotone(rows, f.height, f.width);
      CropRows(f, w, rows - 1) + f.pixels[Offset(rows - 1, f.width)..Offset(rows - 1, f.width) + w]
  }

  /** `bitmap.getPixels(pixels, 0, w, 0, 0, w, h)` into a fresh `int[w * h]`: the top-left
      `w` by `h` corner of the bitmap, or nothing when the request is negative or reaches
      outside the bitmap (the array size or the bounds check throws). */
  function GetPixels(f: Frame, w: int, h: int): (r: Option<seq<uint32>>)
    ensures r.Some? <==> 0 <= w <= f.width && 0 <= h <= f.height
    ensures r.Some? ==> |r.value| == w * h
  {
    if 0 <= w <= f.width && 0 <= h <= f.height then
      OffsetIsProduct(h, w);
      Some(CropRows(f, w, h))
    else None
  }

  /** Pixel `(x, y)` of the requested corner is pixel `(x, y)` of the bitmap. */
  lemma {:induction false} CropRowsAt(f: Frame, w: nat, rows: nat, x: nat, y: nat)
    requires w <= f.width && rows <= f.height && x < w && y < rows
    ensures 0 <= Offset(y, w) && 0 <= Offset(y, f.width)
      && Offset(y, w) + x < Offset(rows, w) && Offset(y, f.width) + x < |f.pixels|
      && CropRows(f, w, rows)[Offset(y, w) + x] == f.pixels[Offset(y, f.width) + x]
  {
    OffsetMonotone(y + 1, f.height, f.width);
    OffsetMonotone(y + 1, rows, w);
    OffsetNonNegative(y, w);
    OffsetNonNegative(y, f.width);
    if y < rows - 1 {
      CropRowsAt(f, w, rows - 1, x, y);
    }
  }

  /** Reading the whole bitmap gives back all of its pixels, in order. */
  lemma {:induction false} WholeFramePixels(f: Frame)
    ensures GetPixels(f, f.width, f.height) == Some(f.pixels)
  {
    var r := CropRows(f, f.width, f.height);
    forall k | 0 <= k < |r|
      ensures r[k] == f.pixels[k]
    {
      var y := RowOf(k, f.width, f.height);
      CropRowsAt(f, f.width, f.height, k - Offset(y, f.width), y);
    }
    assert r == f.pixels;
  }

  /** The row that flat index `k` falls in, for `rows` rows of `width` pixels. */
  lemma {:induction false} RowOf(k: int, width: nat, rows: nat) returns (y: nat)
    requires 0 <= k < Offset(rows, width)
    ensures y < rows && Offset(y, width) <= k < Offset(y, width) + width
  {
    if k >= Offset(rows - 1, width) {
      y := rows - 1;
    } else {
      y := RowOf(k, width, rows - 1);
    }
  }

  /** A direct buffer of fixed capacity with its write position (`ByteBuffer`).  A slot holds
      one byte (`put`) or, in a float buffer, one 32-bit float (`putFloat`). */
  class Buffer<T> {
    const data: array<T>
    var position: nat

    ghost predicate Valid()
      reads this
    {
      position <= data.Length
    }

    /** `ByteBuffer.allocateDirect`: zero-filled, positioned at its start. */
    constructor (capacity: nat, zero: T)
      ensures Valid() && fresh(data)
      ensures data.Length == capacity && position == 0
      ensures forall i :: 0 <= i < capacity ==> data[i] == zero
    {
      data := new T[capacity](_ => zero);
      position := 0;
    }

    /** `put`: writes at the position and advances it; on a full buffer it throws
        `BufferOverflowException` and leaves the buffer as it was. */
    method Put(x: T) returns (ok: bool)
      requires Valid()
      modifies this, data
      ensures Valid()
      ensures ok <==> old(position) < data.Length
      ensures ok ==> position == old(position) + 1 && data[..] == old(data[..])[old(position) := x]
      ensures !ok ==> position == old(position) && data[..] == old(data[..])
    {
      if position == data.Length {
        return false;
      }
      data[position] := x;
      position := position + 1;
      return true;
    }
  }

  /** The packing loop: for each pixel in turn, `encode` of its R, G and B, written with three
      `put` calls.  It succeeds iff the buffer has room for all `3 * |pixels|` values; then the
      written region holds exactly the channel stream and nothing after it changed. */
  method PutChannels<T>(buffer: Buffer<T>, pixels: seq<uint32>, encode: uint8 -> T) returns (ok: bool)
    requires buffer.Valid()
    modifies buffer, buffer.data
    ensures buffer.Valid()
    ensures ok <==> old(buffer.position) + 3 * |pixels| <= buffer.data.Length
    ensures ok ==> buffer.position == old(buffer.position) + 3 * |pixels|
    ensures ok ==> buffer.data[..buffer.position] == old(buffer.data[..buffer.position]) + ChannelStream(pixels, encode)
    ensures ok ==> buffer.data[buffer.position..] == old(buffer.data[buffer.position + 3 * |pixels|..])
  {
    ghost var start := buffer.position;
    ghost var before := buffer.data[..];
    for k := 0 to |pixels|
      invariant buffer.Valid()
      invariant buffer.position == start + 3 * k
      invariant buffer.data[..buffer.position] == before[..start] + ChannelStream(pixels[..k], encode)
      invariant buffer.data[buffer.position..] == before[buffer.position..]
    {
      var pixelValue := pixels[k];
      var written := ChannelStream(pixels[..k], encode);
      var r := buffer.Put(encode(Red(pixelValue)));
      if !r { return false; }
      var g := buffer.Put(encode(Green(pixelValue)));
      if !g { return false; }
      var b := buffer.Put(encode(Blue(pixelValue)));
      if !b { return false; }
      assert pixels[..k + 1][..k] == pixels[..k];
      assert buffer.data[..buffer.position] == before[..start] + written
        + [encode(Red(pixelValue)), encode(Green(pixelValue)), encode(Blue(pixelValue))];
    }
    assert pixels[..|pixels|] == pixels;
    return true;
  }

  /** The input tensor a packed buffer hands to the interpreter after `rewind()`: the channel
      stream followed by the untouched zero slots up to the buffer's capacity. */
  function PackedTensor<T>(pixels: seq<uint32>, encode: uint8 -> T, capacity: nat, zero: T): (t: seq<T>)
    requires 3 * |pixels| <= capacity
    ensures |t| == capacity
    ensures forall i :: 0 <= i < 3 * |pixels| ==> t[i] == encode(Channel(pixels[i / 3], i % 3))
    ensures forall i :: 3 * |pixels| <= i < capacity ==> t[i] == zero
  {
    ChannelStream(pixels, encode) + seq(capacity - 3 * |pixels|, _ => zero)
  }

  /** A packed tensor starts with the channel stream, and is nothing else iff the capacity is
      exactly three values per pixel. */
  lemma PackedTensorPrefix<T>(pixels: seq<uint32>, encode: uint8 -> T, capacity: nat, zero: T)
    requires 3 * |pixels| <= capacity
    ensures PackedTensor(pixels, encode, capacity, zero)[..3 * |pixels|] == ChannelStream(pixels, encode)
    ensures PackedTensor(pixels, encode, capacity, zero) == ChannelStream(pixels, encode) <==> capacity == 3 * |pixels|
  {
    var t, c := PackedTensor(pixels, encode, capacity, zero), ChannelStream(pixels, encode);
    assert t == c + seq(capacity - 3 * |pixels|, _ => zero);
    assert t[..|c|] == c;
  }

  /** `ByteBuffer.allocateDirect(capacity)`, the packing loop and `rewind()`: the tensor the
      buffer then holds, or nothing when the pixels overflow it. */
  method PackPixels<T>(capacity: nat, zero: T, pixels: seq<uint32>, encode: uint8 -> T)
    returns (tensor: Option<seq<T>>)
    ensures tensor.Some? <==> 3 * |pixels| <= capacity
    ensures tensor.Some? ==> tensor.value == PackedTensor(pixels, encode, capacity, zero)
  {
    var buffer := new Buffer<T>(capacity, zero);
    ghost var zeros := buffer.data[..];
    var ok := PutChannels(buffer, pixels, encode);
    if !ok {
      return None;
    }
    assert buffer.data[..] == buffer.data[..buffer.position] + buffer.data[buffer.position..];
    assert zeros[3 * |pixels|..] == seq(capacity - 3 * |pixels|, _ => zero);
    return Some(buffer.data[..]);
  }
}
