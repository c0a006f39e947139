/**
 * RGBA to luma conversion. The pixel is read as one little-endian 32-bit word
 * c = b0 + b1*2^8 + b2*2^16 + b3*2^24 of the bytes [b0, b1, b2, b3] that the
 * image stores as [R, G, B, A], and the luma is
 * ((c >>> 16 & 0xff) * 13933 + (c >>> 8 & 0xff) * 46871 + (c & 0xff) * 4732) >>> 16.
 */
module Grayscale {
  import opened JsNumbers

  /** The word a `Uint32Array` view reads on a little-endian host. */
  function Word(b0: byte, b1: byte, b2: byte, b3: byte): int {
    b0 + 256 * b1 + 65536 * b2 + 16777216 * b3
  }

  /** The luma formula on the word c. */
  function LumaOfWord(c: int): int
    requires 0 <= c < TWO_32
  {
    ((c / 65536) % 256 * 13933 + (c / 256) % 256 * 46871 + c % 256 * 4732) / 65536
  }

  /** The luma formula on the bytes: byte 2 gets 13933, byte 1 46871 and byte 0 4732. */
  function Luma(b0: byte, b1: byte, b2: byte): (l: int)
    ensures 0 <= l < 256
    ensures b0 == b1 == b2 ==> l == b0
  {
    (b2 * 13933 + b1 * 46871 + b0 * 4732) / 65536
  }

  /** Extracting the channels from the little-endian word picks bytes 2, 1 and 0. */
  lemma LumaOfWordReadsBytes(b0: byte, b1: byte, b2: byte, b3: byte)
    ensures 0 <= Word(b0, b1, b2, b3) < TWO_32
    ensures LumaOfWord(Word(b0, b1, b2, b3)) == Luma(b0, b1, b2)
  {
    var c := Word(b0, b1, b2, b3);
    assert c == b0 + 256 * (b1 + 256 * b2 + 65536 * b3);
    assert c % 256 == b0 && c / 256 == b1 + 256 * (b2 + 256 * b3);
    var c8 := c / 256;
    assert c8 % 256 == b1 && c8 / 256 == b2 + 256 * b3;
    assert c / 65536 == c8 / 256;
    assert (c / 65536) % 256 == b2;
  }

  /**
   * Whatever the 32-bit word, `(...) >>> 16` of the weighted channels is a
   * byte: each channel is at most 255 and the weights sum to 2^16.
   */
  lemma LumaOfWordIsByte(c: int)
    requires 0 <= c < TWO_32
    ensures 0 <= LumaOfWord(c) < 256
  {
    var b2, b1, b0 := (c / 65536) % 256, (c / 256) % 256, c % 256;
    assert b2 * 13933 <= 255 * 13933;
    assert b1 * 46871 <= 255 * 46871;
    assert b0 * 4732 <= 255 * 4732;
    assert b2 * 13933 + b1 * 46871 + b0 * 4732 < 256 * 65536;
  }

  /**
   * On the byte order [R, G, B, A] the weight 13933 (0.2126 * 2^16, the red
   * weight of BT.709) falls on blue and red gets 4732: a pure red pixel has
   * luma 18 and a pure blue one 54.
   */
  lemma RedAndBlueWeightsSwapped()
    ensures Luma(255, 0, 0) == 18
    ensures Luma(0, 0, 255) == 54
  {
  }

  /**
   * The luma with the BT.709 weights on the channels they are meant for, on
   * the byte order [R, G, B, A]: red (byte 0) gets 13933, green 46871 and
   * blue (byte 2) 4732.
   */
  function LumaBT709(b0: byte, b1: byte, b2: byte): (l: int)
    ensures 0 <= l < 256
    ensures b0 == b1 == b2 ==> l == b0
  {
    (b0 * 13933 + b1 * 46871 + b2 * 4732) / 65536
  }

  /**
   * The intended luma is the code's luma with red and blue exchanged: pure
   * red gets 54 and pure blue 18, where the code gives 18 and 54.
   */
  lemma BT709IsSwappedLuma(b0: byte, b1: byte, b2: byte)
    ensures LumaBT709(b0, b1, b2) == Luma(b2, b1, b0)
    ensures LumaBT709(255, 0, 0) == 54 && LumaBT709(0, 0, 255) == 18
    ensures LumaBT709(255, 0, 0) != Luma(255, 0, 0)
  {
    RedAndBlueWeightsSwapped();
  }

  /** Luma of pixel i of an RGBA buffer. */
  function PixelLuma(pixels: seq<byte>, i: int): byte
    requires 0 <= i && 4 * i + 3 < |pixels|
  {
    Luma(pixels[4 * i], pixels[4 * i + 1], pixels[4 * i + 2])
  }

  /** The image `grayscale(pixels)` returns without `fillRGBA`: one luma byte per RGBA pixel. */
  function LumaImage(pixels: seq<byte>): (gray: seq<byte>)
    requires |pixels| % 4 == 0
    ensures |gray| == |pixels| / 4
  {
    seq(|pixels| / 4, i requires 0 <= i < |pixels| / 4 => PixelLuma(pixels, i))
  }

  /** Byte k of the fillRGBA output: luma in the three colour bytes, the alpha byte kept. */
  function FilledByte(pixels: seq<byte>, k: int): byte
    requires 0 <= k < |pixels| && |pixels| % 4 == 0
  {
    if k % 4 == 3 then pixels[k] else PixelLuma(pixels, k / 4)
  }

  /** The four bytes the fillRGBA output holds for pixel i. */
  lemma FilledPixel(pixels: seq<byte>, i: int)
    requires |pixels| % 4 == 0 && 0 <= i < |pixels| / 4
    ensures FilledByte(pixels, 4 * i) == PixelLuma(pixels, i)
    ensures FilledByte(pixels, 4 * i + 1) == PixelLuma(pixels, i)
    ensures FilledByte(pixels, 4 * i + 2) == PixelLuma(pixels, i)
    ensures FilledByte(pixels, 4 * i + 3) == pixels[4 * i + 3]
  {
    assert (4 * i) / 4 == i && (4 * i) % 4 == 0;
    assert (4 * i + 1) / 4 == i && (4 * i + 1) % 4 == 1;
    assert (4 * i + 2) / 4 == i && (4 * i + 2) % 4 == 2;
    assert (4 * i + 3) % 4 == 3;
  }

  /**
   * `grayscale(pixels, fillRGBA)`: one luma byte per pixel, or, with fillRGBA,
   * the bytes of the word luma * 0x10101 | (c & 0xff000000) per pixel.
   */
  method ToGrayscale(pixels: seq<byte>, fillRGBA: bool) returns (gray: seq<byte>)
    requires |pixels| % 4 == 0
    ensures !fillRGBA ==> |gray| == |pixels| / 4
    ensures !fillRGBA ==> forall i :: 0 <= i < |gray| ==> gray[i] == PixelLuma(pixels, i)
    ensures !fillRGBA ==> gray == LumaImage(pixels)
    ensures fillRGBA ==> |gray| == |pixels|
    ensures fillRGBA ==> forall k :: 0 <= k < |gray| ==> gray[k] == FilledByte(pixels, k)
  {
    if fillRGBA {
      gray := FillLuma(pixels);
    } else {
      gray := LumaBytes(pixels);
    }
  }

  /** The loop of `grayscale` without fillRGBA: one luma byte per pixel. */
  method LumaBytes(pixels: seq<byte>) returns (gray: seq<byte>)
    requires |pixels| % 4 == 0
    ensures gray == LumaImage(pixels)
  {
    var len := |pixels| / 4;
    var out := new byte[len](_ => 0);
    var i := 0;
    while i < len
      invariant 0 <= i <= len
      invariant forall k :: 0 <= k < i ==> out[k] == PixelLuma(pixels, k)
    {
      out[i] := Luma(pixels[4 * i], pixels[4 * i + 1], pixels[4 * i + 2]);
      i := i + 1;
    }
    gray := out[..];
    assert forall k :: 0 <= k < len ==> gray[k] == LumaImage(pixels)[k];
  }

  /** Pixels 0..n-1 of `out` hold the luma in their colour bytes and the source alpha. */
  predicate PixelsFilled(out: seq<byte>, pixels: seq<byte>, n: int)
    requires |out| == |pixels| && |pixels| % 4 == 0 && 0 <= n <= |pixels| / 4
  {
    forall j :: 0 <= j < n ==>
      && out[4 * j] == PixelLuma(pixels, j) && out[4 * j + 1] == PixelLuma(pixels, j)
      && out[4 * j + 2] == PixelLuma(pixels, j) && out[4 * j + 3] == pixels[4 * j + 3]
  }

  /** Writing pixel i's four bytes extends the filled prefix by one pixel. */
  lemma FillStep(prev: seq<byte>, pixels: seq<byte>, i: int)
    requires |prev| == |pixels| && |pixels| % 4 == 0 && 0 <= i < |pixels| / 4 && PixelsFilled(prev, pixels, i)
    ensures var l := PixelLuma(pixels, i);
      PixelsFilled(prev[4 * i := l][4 * i + 1 := l][4 * i + 2 := l][4 * i + 3 := pixels[4 * i + 3]], pixels, i + 1)
  {
  }

  /** Filled pixel by pixel, the buffer is the fillRGBA output byte by byte. */
  lemma FilledBytes(out: seq<byte>, pixels: seq<byte>)
    requires |out| == |pixels| && |pixels| % 4 == 0 && PixelsFilled(out, pixels, |pixels| / 4)
    ensures forall k :: 0 <= k < |out| ==> out[k] == FilledByte(pixels, k)
  {
    forall k | 0 <= k < |out|
      ensures out[k] == FilledByte(pixels, k)
    {
      var j, r := k / 4, k % 4;
      PixelOfByte(k, |pixels|);
      FilledPixel(pixels, j);
      assert PixelLuma(pixels, j) == out[4 * j] == out[4 * j + 1] == out[4 * j + 2];
      assert out[4 * j + 3] == pixels[4 * j + 3];
      if r == 0 {
        assert k == 4 * j;
      } else if r == 1 {
        assert k == 4 * j + 1;
      } else if r == 2 {
        assert k == 4 * j + 2;
      } else {
        assert k == 4 * j + 3;
      }
    }
  }

  /** Byte k of an RGBA buffer belongs to pixel k / 4, as its channel k % 4. */
  lemma PixelOfByte(k: int, size: int)
    requires 0 <= k < size && size % 4 == 0
    ensures 0 <= k / 4 < size / 4 && 0 <= k % 4 < 4 && k == 4 * (k / 4) + k % 4
  {
  }

  /** The loop of `grayscale` with fillRGBA: the luma in the three colour bytes, the alpha byte kept. */
  method FillLuma(pixels: seq<byte>) returns (gray: seq<byte>)
    requires |pixels| % 4 == 0
    ensures |gray| == |pixels|
    ensures forall k :: 0 <= k < |gray| ==> gray[k] == FilledByte(pixels, k)
  {
    var len := |pixels| / 4;
    var out := new byte[4 * len](_ => 0);
    var i := 0;
    while i < len
      invariant 0 <= i <= len
      invariant PixelsFilled(out[..], pixels, i)
    {
      ghost var prev: seq<byte> := out[..];
      var luma: byte := Luma(pixels[4 * i], pixels[4 * i + 1], pixels[4 * i + 2]);
      // little-endian bytes of luma * 0x10101 | (c & 0xff000000)
      out[4 * i] := luma;
      out[4 * i + 1] := luma;
      out[4 * i + 2] := luma;
      out[4 * i + 3] := pixels[4 * i + 3];
      ghost var alpha: byte := pixels[4 * i + 3];
      assert out[..] == prev[4 * i := luma][4 * i + 1 := luma][4 * i + 2 := luma][4 * i + 3 := alpha];
      FillStep(prev, pixels, i);
      i := i + 1;
    }
    gray := out[..];
    FilledBytes(gray, pixels);
  }
}
