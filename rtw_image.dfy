/**
 * The image store of `src/rtw_image.rs`: the empty image a search starts from,
 * the gamma-linearising maps `load` applies to the decoded RGB bytes, and the
 * clamped pixel lookup `pixel_data`.  Decoding a file is the image crate's
 * work; the model receives its result.
 */
module Images {
  import opened Wrappers
  import opened Bits

  type Byte = b: int | 0 <= b < 256

  /** The colour `pixel_data` answers with when nothing is loaded. */
  const Magenta: seq<Byte> := [255, 0, 255]

  /** What `image::open(..)?.to_rgb8()` yields: the size and the raw RGB bytes. */
  datatype Decoded = Decoded(width: nat, height: nat, rgb: seq<Byte>)

  /**
   * `((b as f64).powi(2) / 255.0) as u8`.  The square is exact, and a quotient
   * that is not an integer is at least 1/255 from one, so the rounded division
   * truncates to the integer quotient; it never exceeds 255, so the cast does
   * not saturate.
   */
  function Linearise(b: Byte): (r: Byte)
    ensures r * 255 <= b * b < (r + 1) * 255
    ensures r <= b
    ensures b == 0 ==> r == 0
    ensures b == 255 ==> r == 255
  {
    assert b * b <= 255 * b by { MulBelow(b, b, 255); }
    (b * b) / 255
  }

  lemma MulBelow(a: nat, b: nat, c: nat)
    requires b <= c
    ensures a * b <= c * a
  {
  }

  /** A brighter byte never linearises to a darker one. */
  lemma LineariseMonotone(a: Byte, b: Byte)
    requires a <= b
    ensures Linearise(a) <= Linearise(b)
  {
    MulBelow(a, a, b);
    MulBelow(b, a, b);
  }

  /** `(byte as f32 / 255.0).powi(2)`, the channel as a fraction of full intensity, squared. */
  function LinearFloat(b: Byte): (r: real)
    ensures 0.0 <= r <= 1.0
  {
    var f := b as real / 255.0;
    assert f * f <= f;
    f * f
  }

  /** The byte map of `load`, applied to every raw byte in order. */
  function LineariseAll(rgb: seq<Byte>): (r: seq<Byte>)
    ensures |r| == |rgb|
    ensures forall k :: 0 <= k < |r| ==> r[k] <= rgb[k]
  {
    seq(|rgb|, k requires 0 <= k < |rgb| => Linearise(rgb[k]))
  }

  /** The float map of `load`, over the channels of every pixel in order. */
  function LinearFloats(rgb: seq<Byte>): (r: seq<real>)
    ensures |r| == |rgb|
    ensures forall k :: 0 <= k < |r| ==> 0.0 <= r[k] <= 1.0
  {
    seq(|rgb|, k requires 0 <= k < |rgb| => LinearFloat(rgb[k]))
  }

  /** The byte data is the float data at full scale, truncated. */
  lemma ByteIsScaledFloat(b: Byte)
    ensures Linearise(b) == (255.0 * LinearFloat(b)).Floor
  {
    var f := b as real / 255.0;
    var n := b * b;
    assert f * f == n as real / 65025.0;
    assert 255.0 * (f * f) == n as real / 255.0;
    FloorOfQuotient(n, 255, Linearise(b));
  }

  /** `n / d` in the reals truncates to the integer quotient `r`. */
  lemma FloorOfQuotient(n: nat, d: nat, r: int)
    requires 0 < d && r * d <= n < (r + 1) * d
    ensures (n as real / d as real).Floor == r
  {
    var q := n as real / d as real;
    QuotientDistance(n - r * d, d, q - r as real);
    QuotientDistance((r + 1) * d - n, d, (r + 1) as real - q);
  }

  /** `e / d` is the distance `g` when `g * d = e`, and is non-negative with `e`. */
  lemma QuotientDistance(e: int, d: nat, g: real)
    requires 0 < d && g * d as real == e as real
    ensures 0 <= e ==> 0.0 <= g
    ensures 0 < e ==> 0.0 < g
  {
  }

  /** The two buffers `load` fills agree channel by channel. */
  lemma LoadedBuffersAgree(rgb: seq<Byte>)
    ensures forall k :: 0 <= k < |rgb| ==>
      LineariseAll(rgb)[k] == (255.0 * LinearFloats(rgb)[k]).Floor
  {
    forall k | 0 <= k < |rgb|
      ensures LineariseAll(rgb)[k] == (255.0 * LinearFloats(rgb)[k]).Floor
    {
      ByteIsScaledFloat(rgb[k]);
    }
  }

  /** `u32 as i32`: the same 32 bits read as two's complement. */
  function WrapI32(n: nat): (m: int)
    requires n <= U32Max
    ensures I32Min <= m <= I32Max
    ensures n <= I32Max ==> m == n
    ensures I32Max < n ==> m < 0
  {
    if n <= I32Max then n else n - 0x1_0000_0000
  }

  /**
   * `RtwImage::clamp`, that is `value.clamp(min, max - 1)`.  Rust's `clamp`
   * panics when its lower bound exceeds its upper one, and in a debug build
   * `max - 1` panics on overflow when `max` is `i32::MIN`; both are the case
   * `max - 1 < min`.
   */
  function Clamp(value: int, min: int, max: int): (r: Fallible<int>)
    ensures r.Panics? <==> max - 1 < min
    ensures r.Returns? ==> min <= r.value <= max - 1
    ensures r.Returns? && min <= value <= max - 1 ==> r.value == value
    ensures r.Returns? && value < min ==> r.value == min
    ensures r.Returns? && max - 1 < value ==> r.value == max - 1
  {
    if max - 1 < min then Panics
    else if value < min then Returns(min)
    else if max - 1 < value then Returns(max - 1)
    else Returns(value)
  }

  /** Clamping a clamped value changes nothing. */
  lemma ClampIdempotent(value: int, min: int, max: int)
    requires Clamp(value, min, max).Returns?
    ensures Clamp(Clamp(value, min, max).value, min, max) == Clamp(value, min, max)
  {
  }

  /** The first byte of pixel `(x, y)` in a row-major buffer. */
  function PixelOffset(x: nat, y: nat, width: nat, bytesPerPixel: nat): (i: nat)
    ensures x < width ==> i + bytesPerPixel <= (y + 1) * width * bytesPerPixel
  {
    assert x < width ==> (y * width + x + 1) * bytesPerPixel <= (y + 1) * width * bytesPerPixel by {
      if x < width {
        assert y * width + x + 1 <= (y + 1) * width;
        MulBelow(bytesPerPixel, y * width + x + 1, (y + 1) * width);
      }
    }
    (y * width + x) * bytesPerPixel
  }

  /** Every pixel of a `width` by `height` image starts a whole pixel inside the buffer. */
  lemma OffsetInBuffer(x: nat, y: nat, width: nat, height: nat, bytesPerPixel: nat)
    requires x < width && y < height
    ensures PixelOffset(x, y, width, bytesPerPixel) + bytesPerPixel <= width * height * bytesPerPixel
  {
    var rows := (y + 1) * width;
    MulBelow(width, y + 1, height);
    assert rows <= height * width;
    MulBelow(bytesPerPixel, rows, height * width);
    assert (y + 1) * width * bytesPerPixel == rows * bytesPerPixel;
    assert width * height * bytesPerPixel == height * width * bytesPerPixel;
  }

  class RtwImage {
    var bytesPerPixel: nat
    var width: nat
    var height: nat
    var floatData: Option<seq<real>>
    var byteData: Option<seq<Byte>>

    /** Three bytes per pixel, and sizes that fit a `u32`. */
    predicate Valid()
      reads this
    {
      bytesPerPixel == 3 && width <= U32Max && height <= U32Max
    }

    /** The struct `RtwImage::new` builds before searching for the file. */
    constructor Empty()
      ensures Valid()
      ensures bytesPerPixel == 3 && width == 0 && height == 0
      ensures floatData == None && byteData == None
    {
      bytesPerPixel := 3;
      width := 0;
      height := 0;
      floatData := None;
      byteData := None;
    }

    /**
     * `load`: a file the image crate cannot open is an error that leaves the
     * image as it was; otherwise the size and both linearised buffers are set.
     */
    method Load(decoded: Option<Decoded>) returns (ok: bool)
      requires Valid()
      requires decoded.Some? ==> decoded.value.width <= U32Max && decoded.value.height <= U32Max
      modifies this
      ensures Valid()
      ensures ok <==> decoded.Some?
      ensures !ok ==> unchanged(this)
      ensures ok ==> width == decoded.value.width && height == decoded.value.height
      ensures ok ==> byteData == Some(LineariseAll(decoded.value.rgb))
      ensures ok ==> floatData == Some(LinearFloats(decoded.value.rgb))
    {
      if decoded.None? {
        return false;
      }
      var img := decoded.value;
      width := img.width;
      height := img.height;
      byteData := Some(LineariseAll(img.rgb));
      floatData := Some(LinearFloats(img.rgb));
      return true;
    }

    /**
     * `pixel_data(x, y)`: magenta without data; otherwise the coordinates are
     * clamped to the image and the pixel's `bytes_per_pixel` bytes are sliced
     * out, which panics when the buffer is too short.
     */
    function PixelData(x: int, y: int): (r: Fallible<seq<Byte>>)
      requires Valid()
      requires I32Min <= x <= I32Max && I32Min <= y <= I32Max
      reads this
      ensures byteData.None? ==> r == Returns(Magenta)
      ensures byteData.Some? && (width == 0 || height == 0) ==> r.Panics?
      ensures r.Returns? ==> |r.value| == 3
    {
      if byteData.None? then Returns(Magenta)
      else
        match Clamp(x, 0, WrapI32(width))
        case Panics => Panics
        case Returns(cx) =>
          match Clamp(y, 0, WrapI32(height))
          case Panics => Panics
          case Returns(cy) =>
            var index := PixelOffset(cx, cy, width, bytesPerPixel);
            if index + bytesPerPixel <= |byteData.value| then
              Returns(byteData.value[index..index + bytesPerPixel])
            else
              Panics
    }

    /**
     * With a buffer of exactly `width * height * 3` bytes, an image no wider or
     * taller than `i32::MAX` answers every in-range pixel with its own three bytes.
     */
    lemma PixelInBounds(x: int, y: int)
      requires Valid() && byteData.Some?
      requires 1 <= width <= I32Max && 1 <= height <= I32Max
      requires |byteData.value| == width * height * bytesPerPixel
      requires 0 <= x < width && 0 <= y < height
      ensures var i := PixelOffset(x, y, width, 3);
        i == (y * width + x) * 3 && i + 3 <= |byteData.value| &&
        PixelData(x, y) == Returns(byteData.value[i..i + 3])
    {
      OffsetInBuffer(x, y, width, height, bytesPerPixel);
    }

    /**
     * Off the image the lookup repeats the nearest edge pixel: coordinates are
     * clamped into `[0, width - 1]` and `[0, height - 1]`.
     */
    lemma PixelClampsToEdge(x: int, y: int)
      requires Valid() && byteData.Some?
      requires 1 <= width <= I32Max && 1 <= height <= I32Max
      requires I32Min <= x <= I32Max && I32Min <= y <= I32Max
      ensures x < 0 ==> PixelData(x, y) == PixelData(0, y)
      ensures width <= x ==> PixelData(x, y) == PixelData(width - 1, y)
      ensures y < 0 ==> PixelData(x, y) == PixelData(x, 0)
      ensures height <= y ==> PixelData(x, y) == PixelData(x, height - 1)
    {
    }
  }
}
