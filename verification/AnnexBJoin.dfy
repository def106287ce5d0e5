// Concatenation of Annex-B streams. Gluing two byte strings together can move a
// unit boundary by one byte, or create a start code across the seam; these
// lemmas say exactly what it does to the NAL units.
module AnnexBJoin {
  import opened Common
  import opened Lists
  import opened AnnexB

  /** `b` opens with a three- or four-byte start code. */
  predicate BeginsWithCode(b: Stream) {
    CodeAt(b, 0) || (|b| > 0 && b[0] == 0 && CodeAt(b, 1))
  }

  /** Nothing follows the last start code. */
  predicate EndsWithCode(a: Stream) {
    |a| >= 3 && CodeAt(a, |a| - 3)
  }

  /** The last unit gives up one trailing zero byte, and disappears if that was all it had. */
  function TrimLast(us: List<Nal>): List<Nal> {
    match us
    case Nil => Nil
    case Cons(u, Nil) => if u[|u| - 1] != 0 then us else if |u| == 1 then Nil else Cons(u[..|u| - 1], Nil)
    case Cons(u, rest) => Cons(u, TrimLast(rest))
  }

  predicate LastTypeByteNonzero(us: List<Nal>) {
    match us
    case Nil => true
    case Cons(u, Nil) => u[0] != 0
    case Cons(_, rest) => LastTypeByteNonzero(rest)
  }

  lemma {:induction false} SliceLeft(a: Stream, b: Stream, i: nat, j: nat)
    requires i <= j <= |a|
    ensures (a + b)[i..j] == a[i..j]
  {
  }

  lemma {:induction false} SliceRight(a: Stream, b: Stream, i: nat, j: nat)
    requires i <= j <= |b|
    ensures (a + b)[|a| + i..|a| + j] == b[i..j]
  {
  }

  lemma {:induction false} CodeLeft(a: Stream, b: Stream, i: nat)
    ensures i + 3 <= |a| ==> CodeAt(a + b, i) == CodeAt(a, i)
  {
  }

  // ---------------------------------------------------------------------
  // Shifting
  // ---------------------------------------------------------------------

  lemma {:induction false} FirstCodeShift(a: Stream, b: Stream, k: nat)
    requires k <= |b|
    ensures FirstCode(a + b, |a| + k) == |a| + FirstCode(b, k)
    decreases |b| - k
  {
    if k < |b| {
      assert CodeAt(a + b, |a| + k) == CodeAt(b, k);
      if !CodeAt(b, k) {
        FirstCodeShift(a, b, k + 1);
      }
    }
  }

  lemma {:induction false} HeadShift(a: Stream, b: Stream, k: nat)
    requires k <= |b|
    ensures var p := FirstCode(b, k); var end := CodeStart(b, k, p);
            && FirstCode(a + b, |a| + k) == |a| + p
            && CodeStart(a + b, |a| + k, |a| + p) == |a| + end
            && (a + b)[|a| + k..|a| + end] == b[k..end]
  {
    FirstCodeShift(a, b, k);
    var p := FirstCode(b, k);
    if k < p < |b| {
      assert (a + b)[|a| + p - 1] == b[p - 1];
    }
    SliceRight(a, b, k, CodeStart(b, k, p));
  }

  /** The same bytes up to the next start code, and the same units after it. */
  lemma {:induction false} SameUnits(s: Stream, i: nat, t: Stream, j: nat, p: nat, q: nat)
    requires i <= |s| && j <= |t| && p == FirstCode(s, i) && q == FirstCode(t, j)
    requires s[i..CodeStart(s, i, p)] == t[j..CodeStart(t, j, q)]
    requires p < |s| <==> q < |t|
    requires p < |s| ==> UnitsFrom(s, p + 3) == UnitsFrom(t, q + 3)
    ensures UnitsFrom(s, i) == UnitsFrom(t, j)
  {
    assert |s[i..CodeStart(s, i, p)]| == CodeStart(s, i, p) - i;
    assert |t[j..CodeStart(t, j, q)]| == CodeStart(t, j, q) - j;
  }

  lemma {:induction false} UnitsShift(a: Stream, b: Stream, k: nat)
    requires k <= |b|
    ensures UnitsFrom(a + b, |a| + k) == UnitsFrom(b, k)
    decreases |b| - k
  {
    HeadShift(a, b, k);
    var p := FirstCode(b, k);
    if p < |b| {
      UnitsShift(a, b, p + 3);
    }
    SameUnits(a + b, |a| + k, b, k, |a| + p, p);
  }

  /** The units from an offset not past the first start code: possibly one headless unit, then all of them. */
  lemma {:induction false} LeadingUnit(b: Stream, k: nat) returns (x: List<Nal>)
    requires k <= FirstCode(b, 0)
    ensures UnitsFrom(b, k) == Append(x, Units(b)) && Length(x) <= 1
    ensures BeginsWithCode(b) && k == 0 ==> x == Nil
  {
    SameFirstCode(b, 0, k);
    var p := FirstCode(b, 0);
    if BeginsWithCode(b) {
      assert p == 0 || p == 1;
    }
    var end := CodeStart(b, k, p);
    x := if k < end then Cons(b[k..end], Nil) else Nil;
  }

  lemma {:induction false} SameFirstCode(s: Stream, i: nat, k: nat)
    requires i <= k <= |s| && k <= FirstCode(s, i)
    ensures FirstCode(s, k) == FirstCode(s, i)
    decreases k - i
  {
    if i < k {
      SameFirstCode(s, i + 1, k);
    }
  }

  // ---------------------------------------------------------------------
  // Joining in front of a start code: exactly one byte can change hands
  // ---------------------------------------------------------------------

  lemma {:induction false} FirstCodeJoin(a: Stream, b: Stream, from: nat)
    requires from <= |a|
    ensures FirstCode(a, from) < |a| ==> FirstCode(a + b, from) == FirstCode(a, from)
    ensures FirstCode(a, from) == |a| && BeginsWithCode(b) ==> FirstCode(a + b, from) == |a| + FirstCode(b, 0)
    decreases |a| - from
  {
    if from == |a| {
      FirstCodeShift(a, b, 0);
    } else {
      CodeLeft(a, b, from);
      if !CodeAt(a, from) {
        assert BeginsWithCode(b) ==> !CodeAt(a + b, from);
        FirstCodeJoin(a, b, from + 1);
      }
    }
  }

  lemma {:induction false} OpenHasUnit(a: Stream, start: nat)
    requires start < |a| && !EndsWithCode(a)
    ensures UnitsFrom(a, start).Cons?
    decreases |a| - start
  {
    var p := FirstCode(a, start);
    if p + 3 < |a| {
      OpenHasUnit(a, p + 3);
    } else {
      FirstCodeFacts(a, start);
    }
  }

  function TrimIf(trim: bool, us: List<Nal>): List<Nal> {
    if trim then TrimLast(us) else us
  }

  /** A unit runs to the end of `a` exactly when no start code ends it. */
  lemma {:induction false} OpenAtEnd(a: Stream, start: nat)
    requires 3 <= start <= |a| && CodeAt(a, start - 3) && FirstCode(a, start) == |a|
    ensures EndsWithCode(a) <==> start == |a|
  {
    assert a[start - 1] == 1;
    FirstCodeFacts(a, start);
    if start < |a| {
      assert |a| - 3 < start ==> !CodeAt(a, |a| - 3);
    }
  }

  lemma {:induction false} CodeComesFirst(b: Stream)
    requires BeginsWithCode(b)
    ensures FirstCode(b, 0) + 3 <= |b|
  {
    assert FirstCode(b, 0) <= 1;
  }

  lemma {:induction false} UnitsAre(b: Stream, q: nat)
    requires q == FirstCode(b, 0)
    ensures q < |b| ==> Units(b) == UnitsFrom(b, q + 3)
    ensures q == |b| ==> Units(b) == Nil
  {
  }

  /** The units behind the first start code at or after the seam. */
  lemma {:induction false} UnitsBehind(a: Stream, b: Stream, q: nat)
    requires q == FirstCode(b, 0)
    ensures q < |b| ==> Units(b) == UnitsFrom(a + b, |a| + (q + 3))
    ensures q == |b| ==> Units(b) == Nil
  {
    UnitsAre(b, q);
    if q < |b| {
      UnitsShift(a, b, q + 3);
    }
  }

  /** The units from one that a start code at `p` ends. */
  lemma {:induction false} UnitThenRest(s: Stream, start: nat, p: nat, end: nat, u: seq<Byte>, rest: List<Nal>)
    requires start <= |s| && p == FirstCode(s, start) < |s| && end == CodeStart(s, start, p)
    requires u == s[start..end] && rest == UnitsFrom(s, p + 3)
    ensures UnitsFrom(s, start) == if start < end then Cons(u, rest) else rest
  {
  }

  /** The seam: the unit at `start`, cut at `end`, and then the units of `b`. */
  lemma {:induction false} SeamUnit(a: Stream, b: Stream, start: nat, end: nat)
    requires start <= end <= |a| && FirstCode(a, start) == |a| && BeginsWithCode(b)
    requires end == CodeStart(a + b, start, |a| + FirstCode(b, 0))
    ensures UnitsFrom(a + b, start) == if start < end then Cons(a[start..end], Units(b)) else Units(b)
  {
    FirstCodeJoin(a, b, start);
    CodeComesFirst(b);
    SliceLeft(a, b, start, end);
    var q := FirstCode(b, 0);
    UnitsBehind(a, b, q);
    UnitThenRest(a + b, start, |a| + q, end, a[start..end], Units(b));
  }

  /** Before a three-byte start code ... */
  lemma {:induction false} SeamBeforeThree(a: Stream, b: Stream, start: nat)
    requires 3 <= start <= |a| && CodeAt(a, start - 3) && CodeAt(b, 0) && FirstCode(a, start) == |a|
    ensures UnitsFrom(a + b, start) == Append(TrimIf(!EndsWithCode(a), UnitsFrom(a, start)), Units(b))
  {
    OpenAtEnd(a, start);
    SeamUnit(a, b, start, CodeStart(a + b, start, |a|));
    if start < |a| {
      assert (a + b)[|a| - 1] == a[|a| - 1];
      TrimOpen(a, start, CodeStart(a + b, start, |a|));
    }
  }

  lemma {:induction false} TrimOpen(a: Stream, start: nat, end: nat)
    requires start < |a| && FirstCode(a, start) == |a|
    requires end == if a[|a| - 1] == 0 then |a| - 1 else |a|
    ensures TrimLast(UnitsFrom(a, start)) == if start < end then Cons(a[start..end], Nil) else Nil
  {
    var u := a[start..|a|];
    assert UnitsFrom(a, start) == Cons(u, Nil);
    assert u[|u| - 1] == a[|a| - 1];
    if end < |a| {
      assert u[..|u| - 1] == a[start..end];
    }
  }

  /** ... and before a four-byte one. */
  lemma {:induction false} SeamBeforeFour(a: Stream, b: Stream, start: nat)
    requires 3 <= start <= |a| && |b| > 0 && b[0] == 0 && CodeAt(b, 1) && FirstCode(a, start) == |a|
    ensures UnitsFrom(a + b, start) == Append(UnitsFrom(a, start), Units(b))
  {
    assert FirstCode(b, 0) == 1;
    assert (a + b)[|a|] == b[0];
    SeamUnit(a, b, start, |a|);
  }

  /** One unit of `a`, if it is not empty, in front of `rest`. */
  function Emit(a: Stream, start: nat, rest: List<Nal>): List<Nal>
    requires start <= |a|
  {
    var end := CodeStart(a, start, FirstCode(a, start));
    if start < end then Cons(a[start..end], rest) else rest
  }

  /** A unit of `a` that a start code of `a` ends is not touched by what follows. */
  lemma {:induction false} EndedUnit(a: Stream, b: Stream, start: nat)
    requires start <= |a| && FirstCode(a, start) < |a|
    ensures var p := FirstCode(a, start);
            && UnitsFrom(a, start) == Emit(a, start, UnitsFrom(a, p + 3))
            && UnitsFrom(a + b, start) == Emit(a, start, UnitsFrom(a + b, p + 3))
  {
    FirstCodeJoin(a, b, start);
    var p := FirstCode(a, start);
    assert CodeStart(a + b, start, p) == CodeStart(a, start, p);
    SliceLeft(a, b, start, CodeStart(a, start, p));
  }

  lemma {:induction false} EmitJoin(a: Stream, start: nat, trim: bool, rest: List<Nal>, more: List<Nal>)
    requires start <= |a| && (trim ==> rest.Cons?)
    ensures Emit(a, start, Append(TrimIf(trim, rest), more)) == Append(TrimIf(trim, Emit(a, start, rest)), more)
  {
  }

  lemma {:induction false} SeamJoin(a: Stream, b: Stream, start: nat, trim: bool)
    requires 3 <= start <= |a| && CodeAt(a, start - 3) && FirstCode(a, start) == |a| && BeginsWithCode(b)
    requires trim == (CodeAt(b, 0) && !EndsWithCode(a))
    ensures UnitsFrom(a + b, start) == Append(TrimIf(trim, UnitsFrom(a, start)), Units(b))
  {
    if CodeAt(b, 0) {
      SeamBeforeThree(a, b, start);
    } else {
      SeamBeforeFour(a, b, start);
    }
  }

  lemma {:induction false} EndedUnitJoin(a: Stream, b: Stream, start: nat, trim: bool)
    requires start <= |a| && FirstCode(a, start) < |a| && (trim ==> !EndsWithCode(a))
    requires UnitsFrom(a + b, FirstCode(a, start) + 3)
          == Append(TrimIf(trim, UnitsFrom(a, FirstCode(a, start) + 3)), Units(b))
    ensures UnitsFrom(a + b, start) == Append(TrimIf(trim, UnitsFrom(a, start)), Units(b))
  {
    var p := FirstCode(a, start);
    FirstCodeFacts(a, start);
    EndedUnit(a, b, start);
    NotLastUnit(a, p);
    EmitJoin(a, start, trim, UnitsFrom(a, p + 3), Units(b));
  }

  lemma {:induction false} UnitsFromJoin(a: Stream, b: Stream, start: nat, trim: bool)
    requires 3 <= start <= |a| && CodeAt(a, start - 3) && BeginsWithCode(b)
    requires trim == (CodeAt(b, 0) && !EndsWithCode(a))
    ensures UnitsFrom(a + b, start) == Append(TrimIf(trim, UnitsFrom(a, start)), Units(b))
    decreases |a| - start
  {
    var p := FirstCode(a, start);
    if p == |a| {
      SeamJoin(a, b, start, trim);
    } else {
      FirstCodeFacts(a, start);
      UnitsFromJoin(a, b, p + 3, trim);
      EndedUnitJoin(a, b, start, trim);
    }
  }

  lemma {:induction false} NotLastUnit(a: Stream, p: nat)
    requires CodeAt(a, p)
    ensures EndsWithCode(a) || UnitsFrom(a, p + 3).Cons?
  {
    if !EndsWithCode(a) {
      OpenHasUnit(a, p + 3);
    }
  }

  /** Joining in front of a start code keeps every unit of both parts, but a three-byte code takes
      one trailing zero from the unit before it. */
  lemma {:induction false} UnitsOfJoin(a: Stream, b: Stream)
    requires BeginsWithCode(b)
    ensures Units(a + b) == Append(TrimIf(CodeAt(b, 0) && !EndsWithCode(a), Units(a)), Units(b))
  {
    FirstCodeJoin(a, b, 0);
    var p := FirstCode(a, 0);
    FirstCodeFacts(a, 0);
    if p < |a| {
      UnitsFromJoin(a, b, p + 3, CodeAt(b, 0) && !EndsWithCode(a));
    } else {
      UnitsShift(a, b, FirstCode(b, 0) + 3);
    }
  }

  /** Bytes in front of the first start code are no part of any unit. */
  lemma {:induction false} LeadingBytesIgnored(a: Stream, b: Stream)
    requires BeginsWithCode(b) && forall i :: 0 <= i < |a| ==> !CodeAt(a, i)
    ensures Units(a + b) == Units(b)
  {
    FirstCodeFacts(a, 0);
    UnitsOfJoin(a, b);
  }

  // ---------------------------------------------------------------------
  // Joining in front of anything at all: at most one unit appears at the seam
  // ---------------------------------------------------------------------

  lemma {:induction false} TypesAppend(a: List<Nal>, b: List<Nal>)
    ensures Types(Append(a, b)) == Append(Types(a), Types(b))
  {
    if a.Cons? {
      TypesAppend(a.tail, b);
    }
  }

  lemma {:induction false} EmitTypes(a: Stream, start: nat, us: List<Nal>, vs: List<Nal>, more: List<nat>)
    requires start <= |a| && Types(vs) == Append(Types(us), more)
    ensures Types(Emit(a, start, vs)) == Append(Types(Emit(a, start, us)), more)
  {
  }

  lemma {:induction false} EndedUnitTypes(a: Stream, b: Stream, start: nat, p: nat, more: List<nat>)
    requires start <= |a| && p == FirstCode(a, start) < |a|
    requires Types(UnitsFrom(a + b, p + 3)) == Append(Types(UnitsFrom(a, p + 3)), more)
    ensures Types(UnitsFrom(a + b, start)) == Append(Types(UnitsFrom(a, start)), more)
  {
    EndedUnit(a, b, start);
    EmitTypes(a, start, UnitsFrom(a, p + 3), UnitsFrom(a + b, p + 3), more);
  }

  lemma {:induction false} LastStaysNonzero(a: Stream, start: nat)
    requires start <= |a| && LastTypeByteNonzero(UnitsFrom(a, start))
    ensures var p := FirstCode(a, start); p < |a| ==> LastTypeByteNonzero(UnitsFrom(a, p + 3))
    ensures FirstCode(a, start) == |a| && start < |a| ==> a[start] != 0
  {
  }

  lemma {:induction false} TypesFromJoin(a: Stream, b: Stream, start: nat) returns (x: List<nat>)
    requires 3 <= start <= |a| && LastTypeByteNonzero(UnitsFrom(a, start))
    ensures Types(UnitsFrom(a + b, start)) == Append(Types(UnitsFrom(a, start)), Append(x, Types(Units(b))))
    ensures Length(x) <= 1
    decreases |a| - start
  {
    var p := FirstCode(a, start);
    LastStaysNonzero(a, start);
    if p < |a| {
      x := TypesFromJoin(a, b, p + 3);
      EndedUnitTypes(a, b, start, p, Append(x, Types(Units(b))));
    } else {
      x := SeamTypes(a, b, start);
    }
  }

  /** A last unit whose first byte is not zero outlives whatever the seam takes from it. */
  lemma {:induction false} OpenUnitKeepsType(a: Stream, b: Stream, start: nat)
    requires start < |a| && FirstCode(a, start) == |a| && a[start] != 0
    ensures var p := FirstCode(a + b, start);
            && p > start
            && Types(UnitsFrom(a + b, start))
            == Cons(a[start] % 32, if p < |a + b| then Types(UnitsFrom(a + b, p + 3)) else Nil)
  {
    var s := a + b;
    assert s[start] == a[start];
    FirstCodeFacts(s, start);
    var p := FirstCode(s, start);
    var end := CodeStart(s, start, p);
    assert start < end && s[start..end][0] == s[start];
  }

  lemma {:induction false} SeamTypes(a: Stream, b: Stream, start: nat) returns (x: List<nat>)
    requires 3 <= start <= |a| && FirstCode(a, start) == |a|
    requires start < |a| ==> a[start] != 0
    ensures Types(UnitsFrom(a + b, start)) == Append(Types(UnitsFrom(a, start)), Append(x, Types(Units(b))))
    ensures Length(x) <= 1
  {
    var units := Nil;
    if start == |a| {
      UnitsShift(a, b, 0);
      units := LeadingUnit(b, 0);
    } else {
      OpenUnitKeepsType(a, b, start);
      units := AfterSeam(a, b, start);
      assert Types(UnitsFrom(a, start)) == Cons(a[start] % 32, Nil);
    }
    x := Types(units);
    TypesAppend(units, Units(b));
  }

  /** The units after the one that runs across the seam. */
  lemma {:induction false} AfterSeam(a: Stream, b: Stream, start: nat) returns (x: List<Nal>)
    requires start < |a| && FirstCode(a, start) == |a|
    ensures var p := FirstCode(a + b, start);
            Append(x, Units(b)) == (if p < |a + b| then UnitsFrom(a + b, p + 3) else Nil)
    ensures Length(x) <= 1
  {
    var p := FirstCode(a + b, start);
    if p < |a| {
      x := AfterStraddle(a, b, start, p);
    } else {
      x := Nil;
      AfterWhole(a, b, start, p);
    }
  }

  lemma {:induction false} AfterWhole(a: Stream, b: Stream, start: nat, p: nat)
    requires start < |a| <= p == FirstCode(a + b, start)
    ensures Units(b) == if p < |a + b| then UnitsFrom(a + b, p + 3) else Nil
  {
    SameFirstCode(a + b, start, |a|);
    FirstCodeShift(a, b, 0);
    UnitsBehind(a, b, FirstCode(b, 0));
  }

  lemma {:induction false} AfterStraddle(a: Stream, b: Stream, start: nat, p: nat) returns (x: List<Nal>)
    requires start < |a| && FirstCode(a, start) == |a| && p == FirstCode(a + b, start) < |a|
    ensures Append(x, Units(b)) == UnitsFrom(a + b, p + 3) && Length(x) <= 1
  {
    FirstCodeFacts(a + b, start);
    FirstCodeFacts(a, start);
    CodeLeft(a, b, p);
    var k := p + 3 - |a|;
    assert b[k - 1] == (a + b)[p + 2];
    NoCodeAcross(b, k);
    x := LeadingUnit(b, k);
    UnitsShift(a, b, k);
  }

  lemma {:induction false} NoCodeAcross(b: Stream, k: nat)
    requires 1 <= k <= 2 && k <= |b| && b[k - 1] == 1
    ensures k <= FirstCode(b, 0)
  {
    FirstCodeFacts(b, 0);
  }

  /** Losing its trailing zero does not change a unit's type, as long as something is left of it. */
  lemma {:induction false} TrimKeepsTypes(us: List<Nal>)
    requires LastTypeByteNonzero(us)
    ensures Types(TrimLast(us)) == Types(us)
  {
    if us.Cons? && us.tail.Cons? {
      TrimKeepsTypes(us.tail);
    }
  }

  /** Joined in front of a start code, the types are simply the two lists appended. */
  lemma {:induction false} TypesOfCodedJoin(a: Stream, b: Stream)
    requires BeginsWithCode(b) && LastTypeByteNonzero(Units(a))
    ensures Types(Units(a + b)) == Append(Types(Units(a)), Types(Units(b)))
  {
    UnitsOfJoin(a, b);
    TrimKeepsTypes(Units(a));
    var trim := CodeAt(b, 0) && !EndsWithCode(a);
    TypesAppend(TrimIf(trim, Units(a)), Units(b));
  }

  /** Whatever follows `a`, its units keep their types and so do the units of `b`. Nothing comes between them if `b`
      opens with a start code; otherwise one straddling the seam can only put one more unit there. */
  lemma {:induction false} TypesOfJoin(a: Stream, b: Stream) returns (x: List<nat>)
    requires FirstCode(a, 0) < |a| && LastTypeByteNonzero(Units(a))
    ensures Types(Units(a + b)) == Append(Types(Units(a)), Append(x, Types(Units(b))))
    ensures Length(x) <= 1
    ensures BeginsWithCode(b) ==> x == Nil
  {
    if BeginsWithCode(b) {
      TypesOfCodedJoin(a, b);
      x := Nil;
    } else {
      FirstCodeJoin(a, b, 0);
      x := TypesFromJoin(a, b, FirstCode(a, 0) + 3);
    }
  }
}
