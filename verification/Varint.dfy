// Variable-length integers (src/varint.rs), section 16 of RFC 9000.
module Varint {
  import opened Common

  const MAX: nat := 0x3FFF_FFFF_FFFF_FFFF

  /** `v` shifted left by `n` bytes. */
  function Shifted(v: nat, n: nat): nat {
    if n == 0 then v else 256 * Shifted(v, n - 1)
  }

  /** Big-endian bytes of a value, `n` of them: `to_be_bytes`. */
  function BeBytes(v: nat, n: nat): (b: seq<Byte>)
    ensures |b| == n
  {
    if n == 0 then [] else BeBytes(v / 256, n - 1) + [v % 256]
  }

  /** `value` continued with big-endian bytes. */
  function BeFrom(value: nat, b: seq<Byte>): nat {
    if b == [] then value else BeFrom(value, b[..|b| - 1]) * 256 + b[|b| - 1]
  }

  /** The number of bytes the two top bits of the first byte announce. */
  function FieldLength(first: Byte): (n: nat)
    ensures n == 1 || n == 2 || n == 4 || n == 8
  {
    if first < 0x40 then 1 else if first < 0x80 then 2 else if first < 0xC0 then 4 else 8
  }

  /** The value at the start of `buf` and its length, once all its bytes are there. */
  function Dec(buf: seq<Byte>): Option<(nat, nat)> {
    if |buf| == 0 || |buf| < FieldLength(buf[0]) then None
    else Some((BeFrom(buf[0] % 0x40, buf[1..FieldLength(buf[0])]), FieldLength(buf[0])))
  }

  function Enc(v: nat): seq<Byte>
    requires v <= MAX
  {
    if v < 0x40 then [v]
    else if v < 0x4000 then [0x40 + v / 256, v % 256]
    else if v < 0x4000_0000 then BeBytes(0x8000_0000 + v, 4)
    else BeBytes(0xC000_0000_0000_0000 + v, 8)
  }

  method Decode(buf: seq<Byte>) returns (r: Option<(nat, nat)>)
    ensures r == Dec(buf)
  {
    if |buf| == 0 {
      return None;
    }
    var first := buf[0];
    var len := FieldLength(first);
    if |buf| < len {
      return None;
    }
    var value: nat := first % 0x40;
    for i := 1 to len
      invariant value == BeFrom(first % 0x40, buf[1..i])
    {
      assert buf[1..i + 1][..i - 1] == buf[1..i];
      value := value * 256 + buf[i];
    }
    r := Some((value, len));
  }

  /** Appends the shortest encoding to `out`. */
  method Encode(value: nat, out: seq<Byte>) returns (out': seq<Byte>)
    requires value <= MAX
    ensures out' == out + Enc(value)
  {
    if value < 0x40 {
      out' := out + [value];
    } else if value < 0x4000 {
      out' := out + [0x40 + value / 256, value % 256];
    } else if value < 0x4000_0000 {
      out' := out + BeBytes(0x8000_0000 + value, 4);
    } else {
      out' := out + BeBytes(0xC000_0000_0000_0000 + value, 8);
    }
  }

  // ---------------------------------------------------------------------
  // Round trip, shortest form, prefixes and extensions
  // ---------------------------------------------------------------------

  lemma {:induction false} DivByteUp(x: nat, b: nat)
    ensures (256 * x + b) / 256 == x + b / 256 && (256 * x + b) % 256 == b % 256
  {
  }

  /** Reading n big-endian bytes back onto a value. */
  lemma {:induction false} BeReadBack(value: nat, v: nat, n: nat)
    requires v < Shifted(1, n)
    ensures BeFrom(value, BeBytes(v, n)) == Shifted(value, n) + v
  {
    if n > 0 {
      BeReadBack(value, v / 256, n - 1);
      assert BeBytes(v, n)[..n - 1] == BeBytes(v / 256, n - 1);
    }
  }

  /** The first of n + 1 big-endian bytes holds everything above the last n. */
  lemma {:induction false} BeHead(a: Byte, b: nat, n: nat)
    requires b < Shifted(1, n)
    ensures BeBytes(Shifted(a, n) + b, n + 1) == [a] + BeBytes(b, n)
  {
    if n > 0 {
      DivByteUp(Shifted(a, n - 1), b);
      BeHead(a, b / 256, n - 1);
    } else {
      assert BeBytes(a, 1) == BeBytes(a / 256, 0) + [a % 256];
    }
  }

  lemma {:induction false} Shifts(v: nat)
    ensures Shifted(v, 1) == 0x100 * v
    ensures Shifted(v, 3) == 0x100_0000 * v
    ensures Shifted(v, 7) == 0x100_0000_0000_0000 * v
  {
    assert Shifted(v, 1) == 0x100 * v;
    assert Shifted(v, 2) == 0x1_0000 * v;
    assert Shifted(v, 3) == 0x100_0000 * v;
    assert Shifted(v, 4) == 0x1_0000_0000 * v;
    assert Shifted(v, 5) == 0x100_0000_0000 * v;
    assert Shifted(v, 6) == 0x1_0000_0000_0000 * v;
  }

  /** One shape for all four forms: a first byte with the tag and the top bits, then `n` more bytes. */
  ghost predicate Shape(v: nat, e: seq<Byte>, first: Byte, low: nat, n: nat) {
    && FieldLength(first) == n + 1 && low < Shifted(1, n) && v == Shifted(first % 0x40, n) + low
    && e == [first] + BeBytes(low, n)
  }

  lemma {:induction false} ShapeOne(v: nat)
    requires v < 0x40
    ensures Shape(v, Enc(v), v, 0, 0)
  {
  }

  lemma {:induction false} ShapeTwo(v: nat)
    requires 0x40 <= v < 0x4000
    ensures Shape(v, Enc(v), 0x40 + v / 256, v % 256, 1)
  {
    Shifts(1);
    Shifts(v / 256);
    assert BeBytes(v % 256, 1) == BeBytes(v % 256 / 256, 0) + [v % 256 % 256];
  }

  lemma {:induction false} ShapeFour(v: nat)
    requires 0x4000 <= v < 0x4000_0000
    ensures Shape(v, Enc(v), 0x80 + v / 0x100_0000, v % 0x100_0000, 3)
  {
    var top := v / 0x100_0000;
    Shifts(1);
    Shifts(top);
    Shifts(0x80 + top);
    BeHead(0x80 + top, v % 0x100_0000, 3);
  }

  lemma {:induction false} ShapeEight(v: nat)
    requires 0x4000_0000 <= v <= MAX
    ensures Shape(v, Enc(v), 0xC0 + v / 0x100_0000_0000_0000, v % 0x100_0000_0000_0000, 7)
  {
    var top := v / 0x100_0000_0000_0000;
    Shifts(1);
    Shifts(top);
    Shifts(0xC0 + top);
    BeHead(0xC0 + top, v % 0x100_0000_0000_0000, 7);
  }

  lemma {:induction false} EncShape(v: nat) returns (first: Byte, low: nat, n: nat)
    requires v <= MAX
    ensures Shape(v, Enc(v), first, low, n)
  {
    if v < 0x40 {
      ShapeOne(v);
      first, low, n := v, 0, 0;
    } else if v < 0x4000 {
      ShapeTwo(v);
      first, low, n := 0x40 + v / 256, v % 256, 1;
    } else if v < 0x4000_0000 {
      ShapeFour(v);
      first, low, n := 0x80 + v / 0x100_0000, v % 0x100_0000, 3;
    } else {
      ShapeEight(v);
      first, low, n := 0xC0 + v / 0x100_0000_0000_0000, v % 0x100_0000_0000_0000, 7;
    }
  }

  lemma {:induction false} ShapeDecodes(v: nat, e: seq<Byte>, first: Byte, low: nat, n: nat, rest: seq<Byte>)
    requires Shape(v, e, first, low, n)
    ensures Dec(e + rest) == Some((v, |e|))
  {
    assert (e + rest)[1..n + 1] == BeBytes(low, n);
    BeReadBack(first % 0x40, low, n);
  }

  /** Decoding undoes encoding, whatever follows. */
  lemma {:induction false} RoundTrip(v: nat, rest: seq<Byte>)
    requires v <= MAX
    ensures Dec(Enc(v) + rest) == Some((v, |Enc(v)|))
  {
    var first, low, n := EncShape(v);
    ShapeDecodes(v, Enc(v), first, low, n, rest);
  }

  /** A value followed by one more byte. */
  function Then(v: nat, b: nat): nat {
    v * 0x100 + b
  }

  lemma {:induction false} BeFromSlice(value: nat, buf: seq<Byte>, i: nat, j: nat)
    requires i < j <= |buf|
    ensures BeFrom(value, buf[i..j]) == BeFrom(Then(value, buf[i]), buf[i + 1..j])
    decreases j - i
  {
    if i + 1 < j {
      BeFromSlice(value, buf, i, j - 1);
      assert buf[i..j][..j - i - 1] == buf[i..j - 1];
      assert buf[i + 1..j][..j - i - 2] == buf[i + 1..j - 1];
    } else {
      assert buf[i..j][..0] == [];
    }
  }

  /** What any bytes at all decode to: the two top bits of the first give the length, everything else the value, most
      significant first; longer forms than necessary are read like any other. */
  lemma {:induction false} DecodesTo(buf: seq<Byte>)
    ensures |buf| == 0 ==> Dec(buf) == None
    ensures |buf| > 0 && buf[0] < 0x40 ==> Dec(buf) == Some((buf[0] as nat, 1))
    ensures |buf| > 0 && 0x40 <= buf[0] < 0x80 ==>
              Dec(buf) == if |buf| < 2 then None else Some((Then(buf[0] - 0x40, buf[1]), 2))
    ensures |buf| > 0 && 0x80 <= buf[0] < 0xC0 ==>
              Dec(buf) == if |buf| < 4 then None
                          else Some((Then(Then(Then(buf[0] - 0x80, buf[1]), buf[2]), buf[3]), 4))
    ensures |buf| > 0 && 0xC0 <= buf[0] ==>
              Dec(buf) == if |buf| < 8 then None
                          else Some((Then(Then(Then(Then(Then(Then(Then(
                            buf[0] - 0xC0, buf[1]), buf[2]), buf[3]), buf[4]), buf[5]), buf[6]), buf[7]), 8))
  {
    if |buf| >= 2 && 0x40 <= buf[0] < 0x80 {
      ValueOfTwo(buf[0] - 0x40, buf);
    } else if |buf| >= 4 && 0x80 <= buf[0] < 0xC0 {
      ValueOfFour(buf[0] - 0x80, buf);
    } else if |buf| >= 8 && 0xC0 <= buf[0] {
      ValueOfEight(buf[0] - 0xC0, buf);
    }
  }

  lemma {:induction false} ValueOfTwo(v: nat, buf: seq<Byte>)
    requires |buf| >= 2
    ensures BeFrom(v, buf[1..2]) == Then(v, buf[1])
  {
    BeFromSlice(v, buf, 1, 2);
  }

  lemma {:induction false} ValueOfFour(v: nat, buf: seq<Byte>)
    requires |buf| >= 4
    ensures BeFrom(v, buf[1..4]) == Then(Then(Then(v, buf[1]), buf[2]), buf[3])
  {
    var v1 := Then(v, buf[1]);
    var v2 := Then(v1, buf[2]);
    BeFromSlice(v, buf, 1, 4);
    BeFromSlice(v1, buf, 2, 4);
    BeFromSlice(v2, buf, 3, 4);
  }

  lemma {:induction false} FourMore(v: nat, buf: seq<Byte>, i: nat, j: nat)
    requires i + 4 < j <= |buf|
    ensures BeFrom(v, buf[i..j])
         == BeFrom(Then(Then(Then(Then(v, buf[i]), buf[i + 1]), buf[i + 2]), buf[i + 3]), buf[i + 4..j])
  {
    var v2 := Then(Then(v, buf[i]), buf[i + 1]);
    BeFromSlice(v, buf, i, j);
    BeFromSlice(Then(v, buf[i]), buf, i + 1, j);
    BeFromSlice(v2, buf, i + 2, j);
    BeFromSlice(Then(v2, buf[i + 2]), buf, i + 3, j);
  }

  lemma {:induction false} ValueOfEight(v: nat, buf: seq<Byte>)
    requires |buf| >= 8
    ensures BeFrom(v, buf[1..8])
         == Then(Then(Then(Then(Then(Then(Then(v, buf[1]), buf[2]), buf[3]), buf[4]), buf[5]), buf[6]), buf[7])
  {
    var v4 := Then(Then(Then(Then(v, buf[1]), buf[2]), buf[3]), buf[4]);
    FourMore(v, buf, 1, 8);
    var v6 := Then(Then(v4, buf[5]), buf[6]);
    BeFromSlice(v4, buf, 5, 8);
    BeFromSlice(Then(v4, buf[5]), buf, 6, 8);
    BeFromSlice(v6, buf, 7, 8);
  }

  /** A strict prefix of an encoding decodes to nothing yet. */
  lemma {:induction false} PrefixIncomplete(v: nat, k: nat)
    requires v <= MAX && k < |Enc(v)|
    ensures Dec(Enc(v)[..k]).None?
  {
    var first, low, n := EncShape(v);
  }

  /** Once decoded, more bytes change nothing. */
  lemma {:induction false} Stable(buf: seq<Byte>, more: seq<Byte>)
    requires Dec(buf).Some?
    ensures Dec(buf + more) == Dec(buf)
  {
    var len := FieldLength(buf[0]);
    assert (buf + more)[1..len] == buf[1..len];
  }

  lemma {:induction false} BeFromBound(value: nat, b: seq<Byte>)
    ensures BeFrom(value, b) < Shifted(value + 1, |b|)
  {
    if b != [] {
      BeFromBound(value, b[..|b| - 1]);
    }
  }

  /** No other bytes that decode to `v` are fewer. */
  lemma {:induction false} ShortestForm(v: nat, buf: seq<Byte>)
    requires v <= MAX && Dec(buf).Some? && Dec(buf).value.0 == v
    ensures |Enc(v)| <= Dec(buf).value.1
  {
    var len := FieldLength(buf[0]);
    BeFromBound(buf[0] % 0x40, buf[1..len]);
    Shifts(buf[0] % 0x40 + 1);
  }
}
