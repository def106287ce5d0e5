// A synthetic frame with a timecode painted into it, and reading the timecode back (src/timecode_frame.rs).
module Timecodes {
  import opened Common

  const BIT_BLOCK_SIZE: nat := 8
  const TIMECODE_BITS: nat := 64

  datatype Color = Color(r: Byte, g: Byte, b: Byte)

  const WHITE := Color(255, 255, 255)
  const BLACK := Color(0, 0, 0)

  // ---------------------------------------------------------------------
  // Bits
  // ---------------------------------------------------------------------

  /** `(v >> k) & 1 == 1`. */
  predicate Bit(v: nat, k: nat)
    decreases k
  {
    if k == 0 then v % 2 == 1 else Bit(v / 2, k - 1)
  }

  /** `v | (1 << k)`. */
  function WithBit(v: nat, k: nat): nat
    decreases k
  {
    if k == 0 then (if v % 2 == 1 then v else v + 1) else 2 * WithBit(v / 2, k - 1) + v % 2
  }

  function Pow2(n: nat): nat {
    if n == 0 then 1 else 2 * Pow2(n - 1)
  }

  lemma {:induction false} Quotient(v: nat, p: nat, q: nat, rest: nat)
    requires p > 0 && v == p * q + rest && rest < p
    ensures v / p == q
  {
    var w, r := v / p, v % p;
    Multiple(p, w - q, rest - r);
  }

  lemma {:induction false} Multiple(p: nat, d: int, x: int)
    requires p > 0 && p * d == x && 0 - p < x < p
    ensures d == 0
  {
  }

  lemma {:induction false} HalveFirst(v: nat, p: nat)
    requires p > 0
    ensures v / (2 * p) == v / 2 / p
  {
    var half: nat := v / 2;
    var q: nat, rest: nat := half / p, half % p;
    assert v == (2 * p) * q + (2 * rest + v % 2);
    Quotient(v, 2 * p, q, 2 * rest + v % 2);
  }

  lemma {:induction false} PowPositive(n: nat)
    ensures Pow2(n) > 0
  {
    if n > 0 {
      PowPositive(n - 1);
    }
  }

  /** Bit `k` counts 2^k: it is the parity of the value's multiple of 2^k. */
  lemma {:induction false} BitIsParity(v: nat, k: nat)
    ensures Pow2(k) > 0
    ensures Bit(v, k) <==> v / Pow2(k) % 2 == 1
    decreases k
  {
    PowPositive(k);
    if k > 0 {
      PowPositive(k - 1);
      BitIsParity(v / 2, k - 1);
      HalveFirst(v, Pow2(k - 1));
    }
  }

  lemma {:induction false} BitOfWithBit(v: nat, k: nat, j: nat)
    ensures Bit(WithBit(v, k), j) <==> j == k || Bit(v, j)
    decreases j
  {
    if k > 0 {
      assert WithBit(v, k) / 2 == WithBit(v / 2, k - 1);
      if j > 0 {
        BitOfWithBit(v / 2, k - 1, j - 1);
      }
    }
  }

  lemma {:induction false} Halves(v: nat)
    ensures v == 2 * (v / 2) + v % 2 && 0 <= v % 2 < 2
  {
  }

  lemma {:induction false} WithBitBounded(v: nat, k: nat, n: nat)
    requires v < Pow2(n) && k < n
    ensures WithBit(v, k) < Pow2(n)
    decreases k
  {
    var half, last, bound: nat := v / 2, v % 2, Pow2(n - 1);
    Halves(v);
    assert half < bound;
    if k > 0 {
      WithBitBounded(half, k - 1, n - 1);
      assert WithBit(v, k) == 2 * WithBit(half, k - 1) + last;
    }
  }

  lemma {:induction false} ZeroHasNoBits(k: nat)
    ensures !Bit(0, k)
  {
    if k > 0 {
      ZeroHasNoBits(k - 1);
    }
  }

  /** A number below 2^n is determined by its first n bits. */
  lemma {:induction false} BitsDetermine(v: nat, w: nat, n: nat)
    requires v < Pow2(n) && w < Pow2(n) && forall k {:trigger Bit(v, k)} :: 0 <= k < n ==> (Bit(v, k) <==> Bit(w, k))
    ensures v == w
    decreases n
  {
    if n > 0 {
      forall k | 0 <= k < n - 1
        ensures Bit(v / 2, k) <==> Bit(w / 2, k)
      {
        assert Bit(v, k + 1) <==> Bit(w, k + 1);
      }
      BitsDetermine(v / 2, w / 2, n - 1);
      assert Bit(v, 0) <==> Bit(w, 0);
    }
  }

  // ---------------------------------------------------------------------
  // Pixels
  // ---------------------------------------------------------------------

  /** Where a pixel starts in the row-major bytes. */
  function Index(width: nat, x: nat, y: nat): nat {
    (y * width + x) * 3
  }

  function PixelAt(rgb: seq<Byte>, width: nat, x: nat, y: nat): Color
    requires Index(width, x, y) + 3 <= |rgb|
  {
    var i := Index(width, x, y);
    Color(rgb[i], rgb[i + 1], rgb[i + 2])
  }

  lemma {:induction false} RowBelow(width: nat, y: nat, y': nat)
    requires y < y'
    ensures y * width + width <= y' * width
  {
    var d: nat := y' - y - 1;
    assert y' * width == y * width + width + d * width;
  }

  lemma {:induction false} IndexInBounds(width: nat, height: nat, x: nat, y: nat)
    requires x < width && y < height
    ensures Index(width, x, y) + 3 <= width * height * 3
  {
    RowBelow(width, y, height);
  }

  /** Different pixels of a frame occupy different bytes. */
  lemma {:induction false} PixelsApart(width: nat, x: nat, y: nat, x': nat, y': nat)
    requires x < width && x' < width && (x, y) != (x', y')
    ensures Index(width, x, y) + 3 <= Index(width, x', y') || Index(width, x', y') + 3 <= Index(width, x, y)
  {
    if y < y' {
      RowBelow(width, y, y');
    } else if y' < y {
      RowBelow(width, y', y);
    }
  }

  class SyntheticFrame {
    const width: nat
    const height: nat
    const rgb: array<Byte>

    ghost predicate Valid() {
      rgb.Length == width * height * 3
    }

    ghost predicate Has(x: nat, y: nat) {
      x < width && y < height
    }

    ghost function Pixel(x: nat, y: nat): Color
      requires Valid() && Has(x, y)
      reads rgb
    {
      IndexInBounds(width, height, x, y);
      PixelAt(rgb[..], width, x, y)
    }

    constructor (width: nat, height: nat)
      ensures this.width == width && this.height == height && Valid() && fresh(rgb)
    {
      this.width := width;
      this.height := height;
      rgb := new Byte[width * height * 3](_ => 0);
    }

    /** Changes one pixel and no other. */
    method SetPixel(x: nat, y: nat, color: Color)
      requires Valid() && Has(x, y)
      modifies rgb
      ensures forall x': nat, y': nat {:trigger Has(x', y')} :: Has(x', y') ==>
                Pixel(x', y') == if x' == x && y' == y then color else old(Pixel(x', y'))
      ensures var i := (y * width + x) * 3;
              i + 3 <= rgb.Length && rgb[i] == color.r && rgb[i + 1] == color.g && rgb[i + 2] == color.b
    {
      IndexInBounds(width, height, x, y);
      var idx := (y * width + x) * 3;
      rgb[idx], rgb[idx + 1], rgb[idx + 2] := color.r, color.g, color.b;
      forall x': nat, y': nat | Has(x', y')
        ensures Pixel(x', y') == if x' == x && y' == y then color else old(Pixel(x', y'))
      {
        IndexInBounds(width, height, x', y');
        if (x', y') != (x, y) {
          PixelsApart(width, x, y, x', y');
        }
      }
    }

    method GetPixel(x: nat, y: nat) returns (color: Color)
      requires Index(width, x, y) + 3 <= rgb.Length
      ensures color == PixelAt(rgb[..], width, x, y)
    {
      var idx := (y * width + x) * 3;
      color := Color(rgb[idx], rgb[idx + 1], rgb[idx + 2]);
    }
  }

  // ---------------------------------------------------------------------
  // Painting
  // ---------------------------------------------------------------------

  function BitColor(timecode: nat, k: nat): Color {
    if Bit(timecode, k) then WHITE else BLACK
  }

  /** The pixels painted once blocks up to `bit`, and in block `bit` the pixels before column `x` of row `y`, are
      done. */
  predicate Painted(bit: nat, x: nat, y: nat, x': nat, y': nat) {
    y' < BIT_BLOCK_SIZE &&
    (x' / BIT_BLOCK_SIZE < bit || (x' / BIT_BLOCK_SIZE == bit && (y' < y || (y' == y && x' < x))))
  }

  /** A pixel's color at that point. */
  function PartlyPainted(timecode: nat, background: Color, bit: nat, x: nat, y: nat, x': nat, y': nat): Color {
    if Painted(bit, x, y, x', y') then BitColor(timecode, x' / BIT_BLOCK_SIZE) else background
  }

  /** The picture the generator is to draw: at the top left a row of 64 blocks of 8 by 8 pixels, lowest bit first and
      white for a one, and background everywhere else. */
  function Target(timecode: nat, background: Color, x: nat, y: nat): Color {
    if y < 8 && x < 512 then (if Bit(timecode, x / 8) then Color(255, 255, 255) else Color(0, 0, 0))
    else background
  }

  ghost predicate Shows(frame: SyntheticFrame, timecode: nat, background: Color)
    requires frame.Valid()
    reads frame.rgb
  {
    forall x: nat, y: nat {:trigger frame.Has(x, y)} :: frame.Has(x, y) ==>
      frame.Pixel(x, y) == Target(timecode, background, x, y)
  }

  /** Every pixel is white or black for its bit inside the bit row, and background outside it. */
  method GenerateTimecodeFrame(width: U32, height: U32, timecode: U64, background: Color)
    returns (frame: SyntheticFrame)
    requires width >= TIMECODE_BITS * BIT_BLOCK_SIZE && height >= BIT_BLOCK_SIZE
    requires width * height * 3 <= U32_MAX
    ensures fresh(frame) && fresh(frame.rgb) && frame.width == width && frame.height == height && frame.Valid()
    ensures Shows(frame, timecode, background)
  {
    frame := new SyntheticFrame(width, height);
    for y := 0 to height
      invariant forall x': nat, y': nat {:trigger frame.Has(x', y')} :: frame.Has(x', y') && y' < y ==>
                  frame.Pixel(x', y') == background
    {
      for x := 0 to width
        invariant forall x': nat, y': nat {:trigger frame.Has(x', y')} ::
                    frame.Has(x', y') && (y' < y || (y' == y && x' < x)) ==> frame.Pixel(x', y') == background
      {
        frame.SetPixel(x, y, background);
      }
    }
    for bit := 0 to TIMECODE_BITS
      invariant forall x': nat, y': nat {:trigger frame.Has(x', y')} :: frame.Has(x', y') ==>
        frame.Pixel(x', y') == PartlyPainted(timecode, background, bit, 0, 0, x', y')
    {
      var color := if Bit(timecode, bit) then WHITE else BLACK;
      PaintBlock(frame, timecode, background, bit, color);
    }
  }

  method PaintBlock(frame: SyntheticFrame, timecode: nat, background: Color, bit: nat, color: Color)
    requires frame.Valid() && bit < TIMECODE_BITS && color == BitColor(timecode, bit)
    requires frame.width >= TIMECODE_BITS * BIT_BLOCK_SIZE && frame.height >= BIT_BLOCK_SIZE
    requires forall x': nat, y': nat {:trigger frame.Has(x', y')} :: frame.Has(x', y') ==>
      frame.Pixel(x', y') == PartlyPainted(timecode, background, bit, 0, 0, x', y')
    modifies frame.rgb
    ensures forall x': nat, y': nat {:trigger frame.Has(x', y')} :: frame.Has(x', y') ==>
      frame.Pixel(x', y') == PartlyPainted(timecode, background, bit + 1, 0, 0, x', y')
  {
    var x0 := bit * BIT_BLOCK_SIZE;
    for y := 0 to BIT_BLOCK_SIZE
      invariant forall x': nat, y': nat {:trigger frame.Has(x', y')} :: frame.Has(x', y') ==>
        frame.Pixel(x', y') == PartlyPainted(timecode, background, bit, 0, y, x', y')
    {
      for x := x0 to x0 + BIT_BLOCK_SIZE
        invariant forall x': nat, y': nat {:trigger frame.Has(x', y')} :: frame.Has(x', y') ==>
          frame.Pixel(x', y') == PartlyPainted(timecode, background, bit, x, y, x', y')
      {
        frame.SetPixel(x, y, color);
      }
    }
  }

  // ---------------------------------------------------------------------
  // Reading back
  // ---------------------------------------------------------------------

  function Brightness(c: Color): nat {
    c.r + c.g + c.b
  }

  /** The centre pixel of a block is more than half as bright as white. */
  predicate Bright(rgb: seq<Byte>, width: nat, k: nat)
    requires k < TIMECODE_BITS && Readable(rgb, width)
  {
    CentreInBounds(rgb, width, k);
    Brightness(PixelAt(rgb, width, 8 * k + 4, 4)) > 384
  }

  function CentreX(k: nat): nat {
    k * BIT_BLOCK_SIZE + BIT_BLOCK_SIZE / 2
  }

  /** The bytes reach as far as the centre of the last block. */
  predicate Readable(rgb: seq<Byte>, width: nat) {
    Index(width, CentreX(TIMECODE_BITS - 1), BIT_BLOCK_SIZE / 2) + 3 <= |rgb|
  }

  lemma {:induction false} CentreInBounds(rgb: seq<Byte>, width: nat, k: nat)
    requires k < TIMECODE_BITS && Readable(rgb, width)
    ensures Index(width, CentreX(k), BIT_BLOCK_SIZE / 2) + 3 <= |rgb|
  {
  }

  /** A 64-bit value whose bits say which of the first `n` block centres are bright, and no other bit set. */
  ghost predicate Reads(rgb: seq<Byte>, width: nat, value: nat, n: nat)
    requires Readable(rgb, width) && n <= TIMECODE_BITS
  {
    && value < Pow2(TIMECODE_BITS)
    && forall k {:trigger Bit(value, k)} ::
         0 <= k < TIMECODE_BITS ==> (Bit(value, k) <==> k < n && Bright(rgb, width, k))
  }

  method ExtractTimecode(frame: SyntheticFrame) returns (value: nat)
    requires Readable(frame.rgb[..], frame.width)
    ensures Reads(frame.rgb[..], frame.width, value, TIMECODE_BITS)
  {
    value := 0;
    Pow64(TIMECODE_BITS);
    forall k: nat
      ensures !Bit(0, k)
    {
      ZeroHasNoBits(k);
    }
    for bit := 0 to TIMECODE_BITS
      invariant Reads(frame.rgb[..], frame.width, value, bit)
    {
      CentreInBounds(frame.rgb[..], frame.width, bit);
      var c := frame.GetPixel(bit * BIT_BLOCK_SIZE + BIT_BLOCK_SIZE / 2, BIT_BLOCK_SIZE / 2);
      var brightness := c.r + c.g + c.b;
      if brightness > 3 * 128 {
        ReadsStep(frame.rgb[..], frame.width, value, bit);
        value := WithBit(value, bit);
      }
    }
  }

  lemma {:induction false} ReadsStep(rgb: seq<Byte>, width: nat, value: nat, n: nat)
    requires Readable(rgb, width) && n < TIMECODE_BITS && Reads(rgb, width, value, n) && Bright(rgb, width, n)
    ensures Reads(rgb, width, WithBit(value, n), n + 1)
  {
    WithBitBounded(value, n, TIMECODE_BITS);
    forall k | 0 <= k < TIMECODE_BITS
      ensures Bit(WithBit(value, n), k) <==> k < n + 1 && Bright(rgb, width, k)
    {
      BitOfWithBit(value, n, k);
    }
  }

  lemma {:induction false} EightMore(n: nat)
    ensures Pow2(n + 8) == 256 * Pow2(n)
  {
    assert Pow2(n + 2) == 4 * Pow2(n);
    assert Pow2(n + 4) == 16 * Pow2(n);
    assert Pow2(n + 6) == 64 * Pow2(n);
  }

  lemma {:induction false} ThirtyTwoMore(n: nat)
    ensures Pow2(n + 32) == 0x1_0000_0000 * Pow2(n)
  {
    EightMore(n);
    EightMore(n + 8);
    EightMore(n + 16);
    EightMore(n + 24);
  }

  lemma {:induction false} Pow64(n: nat)
    requires n == TIMECODE_BITS
    ensures Pow2(n) == U64_MAX + 1
  {
    var zero := n - TIMECODE_BITS;
    ThirtyTwoMore(zero);
    ThirtyTwoMore(zero + 32);
  }

  /** Every block centre is on the side of the threshold that the timecode's bit asks for. */
  ghost predicate CentresAgree(rgb: seq<Byte>, width: nat, timecode: nat)
    requires Readable(rgb, width)
  {
    forall k {:trigger Bit(timecode, k)} :: 0 <= k < TIMECODE_BITS ==> (Bit(timecode, k) <==> Bright(rgb, width, k))
  }

  /** Extraction gives the timecode if and only if the block centres agree with it, however the rest of the frame was
      distorted. */
  lemma {:induction false} ExtractedIff(rgb: seq<Byte>, width: nat, value: nat, timecode: U64)
    requires Readable(rgb, width) && Reads(rgb, width, value, TIMECODE_BITS)
    ensures value <= U64_MAX
    ensures value == timecode <==> CentresAgree(rgb, width, timecode)
  {
    Pow64(TIMECODE_BITS);
    if CentresAgree(rgb, width, timecode) {
      forall k | 0 <= k < TIMECODE_BITS
        ensures Bit(value, k) <==> Bit(timecode, k)
      {
      }
      BitsDetermine(value, timecode, TIMECODE_BITS);
    }
  }

  lemma {:induction false} CentreShows(frame: SyntheticFrame, timecode: nat, background: Color, k: nat)
    requires frame.Valid() && Shows(frame, timecode, background) && Readable(frame.rgb[..], frame.width)
    requires frame.width >= TIMECODE_BITS * BIT_BLOCK_SIZE && frame.height >= BIT_BLOCK_SIZE && k < TIMECODE_BITS
    ensures Bit(timecode, k) <==> Bright(frame.rgb[..], frame.width, k)
  {
    var x := 8 * k + 4;
    assert x / 8 == k && x < 512;
    assert frame.Has(x, 4);
    assert frame.Pixel(x, 4) == Target(timecode, background, x, 4);
  }

  lemma {:induction false} CentresOf(frame: SyntheticFrame, timecode: nat, background: Color)
    requires frame.Valid() && Shows(frame, timecode, background) && Readable(frame.rgb[..], frame.width)
    requires frame.width >= TIMECODE_BITS * BIT_BLOCK_SIZE && frame.height >= BIT_BLOCK_SIZE
    ensures CentresAgree(frame.rgb[..], frame.width, timecode)
  {
    forall k | 0 <= k < TIMECODE_BITS
      ensures Bit(timecode, k) <==> Bright(frame.rgb[..], frame.width, k)
    {
      CentreShows(frame, timecode, background, k);
    }
  }

  /** The round trip: what is read from a generated frame is the timecode, whatever the background. */
  method GenerateThenExtract(width: U32, height: U32, timecode: U64, background: Color) returns (value: nat)
    requires width >= TIMECODE_BITS * BIT_BLOCK_SIZE && height >= BIT_BLOCK_SIZE
    requires width * height * 3 <= U32_MAX
    ensures value == timecode
  {
    var frame := GenerateTimecodeFrame(width, height, timecode, background);
    IndexInBounds(width, height, CentreX(TIMECODE_BITS - 1), BIT_BLOCK_SIZE / 2);
    value := ExtractTimecode(frame);
    CentresOf(frame, timecode, background);
    ExtractedIff(frame.rgb[..], width, value, timecode);
  }
}
