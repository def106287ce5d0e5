// Splitting undoes joining: which NAL sequences survive being written with start
// codes and read back.
module AnnexBRoundTrip {
  import opened Lists
  import opened AnnexB
  import opened AnnexBJoin

  /** A NAL unit to be written after a start code of four bytes, or of three. */
  datatype Coded = Coded(nal: Nal, fourByte: bool)

  function StartCode(fourByte: bool): Stream {
    if fourByte then [0, 0, 0, 1] else [0, 0, 1]
  }

  function Join(cs: List<Coded>): Stream {
    match cs
    case Nil => []
    case Cons(c, rest) => StartCode(c.fourByte) + c.nal + Join(rest)
  }

  function Nals(cs: List<Coded>): List<Nal> {
    match cs
    case Nil => Nil
    case Cons(c, rest) => Cons(c.nal, Nals(rest))
  }

  /** The unit holds no 00 00 01. */
  predicate NoCodeIn(u: Nal) {
    FirstCode(u, 0) == |u|
  }

  predicate AllClean(us: List<Nal>) {
    match us
    case Nil => true
    case Cons(u, rest) => NoCodeIn(u) && AllClean(rest)
  }

  /** No unit ending in a zero byte is followed by a three-byte start code. */
  predicate SeamsSafe(cs: List<Coded>) {
    match cs
    case Nil => true
    case Cons(_, Nil) => true
    case Cons(c, rest) => (rest.head.fourByte || c.nal[|c.nal| - 1] != 0) && SeamsSafe(rest)
  }

  // ---------------------------------------------------------------------
  // One unit behind one start code
  // ---------------------------------------------------------------------

  lemma {:induction false} StartCodeBegins(fourByte: bool, rest: Stream)
    ensures BeginsWithCode(StartCode(fourByte) + rest)
    ensures CodeAt(StartCode(fourByte) + rest, 0) <==> !fourByte
    ensures FirstCode(StartCode(fourByte) + rest, 0) == |StartCode(fourByte)| - 3
  {
    var s := StartCode(fourByte) + rest;
    if fourByte {
      assert !CodeAt(s, 0) && CodeAt(s, 1);
    } else {
      assert CodeAt(s, 0);
    }
  }

  lemma {:induction false} UnitsOfPiece(fourByte: bool, u: Nal)
    requires NoCodeIn(u)
    ensures Units(StartCode(fourByte) + u) == Cons(u, Nil)
    ensures !EndsWithCode(StartCode(fourByte) + u)
  {
    var sc := StartCode(fourByte);
    StartCodeBegins(fourByte, u);
    UnitsShift(sc, u, 0);
    assert u[0..|u|] == u;
    FirstCodeShift(sc, u, 0);
    FirstCodeFacts(sc + u, 0);
    OpenAtEnd(sc + u, |sc|);
  }

  lemma {:induction false} JoinBegins(cs: List<Coded>)
    requires cs.Cons?
    ensures BeginsWithCode(Join(cs)) && (CodeAt(Join(cs), 0) <==> !cs.head.fourByte)
  {
    var c := cs.head;
    assert Join(cs) == StartCode(c.fourByte) + (c.nal + Join(cs.tail));
    StartCodeBegins(c.fourByte, c.nal + Join(cs.tail));
  }

  /** The first unit of a joined stream, whole or less one zero byte, and then the rest. */
  lemma {:induction false} UnitsOfJoinCons(c: Coded, rest: List<Coded>)
    requires NoCodeIn(c.nal)
    ensures Units(Join(Cons(c, rest)))
         == Append(TrimIf(rest.Cons? && !rest.head.fourByte, Cons(c.nal, Nil)), Units(Join(rest)))
  {
    var piece := StartCode(c.fourByte) + c.nal;
    UnitsOfPiece(c.fourByte, c.nal);
    if rest.Nil? {
      assert piece + Join(rest) == piece;
      assert FirstCode([], 0) == 0;
    } else {
      JoinBegins(rest);
      UnitsOfJoin(piece, Join(rest));
    }
  }

  // ---------------------------------------------------------------------
  // The round trip, and exactly when it holds
  // ---------------------------------------------------------------------

  lemma {:induction false} SplitUndoesJoin(cs: List<Coded>)
    requires AllClean(Nals(cs)) && SeamsSafe(cs)
    ensures Units(Join(cs)) == Nals(cs)
  {
    match cs
    case Nil => assert FirstCode([], 0) == 0;
    case Cons(c, rest) =>
      UnitsOfJoinCons(c, rest);
      SplitUndoesJoin(rest);
  }

  lemma {:induction false} SliceClean(s: Stream, start: nat, end: nat)
    requires start < end <= |s| && end <= FirstCode(s, start)
    ensures NoCodeIn(s[start..end])
  {
    FirstCodeFacts(s, start);
    FirstCodeFacts(s[start..end], 0);
    var p := FirstCode(s[start..end], 0);
    assert !CodeAt(s, start + p) || end <= start + p;
  }

  /** No unit of any stream holds a start code. */
  lemma {:induction false} UnitsFromClean(s: Stream, start: nat)
    requires start <= |s|
    ensures AllClean(UnitsFrom(s, start))
    decreases |s| - start
  {
    var p := FirstCode(s, start);
    var end := CodeStart(s, start, p);
    if start < end {
      SliceClean(s, start, end);
    }
    if p < |s| {
      UnitsFromClean(s, p + 3);
    }
  }

  lemma {:induction false} JoinHasNoMore(cs: List<Coded>)
    requires AllClean(Nals(cs))
    ensures Length(Units(Join(cs))) <= Length(Nals(cs))
  {
    match cs
    case Nil => assert FirstCode([], 0) == 0;
    case Cons(c, rest) =>
      UnitsOfJoinCons(c, rest);
      JoinHasNoMore(rest);
  }

  lemma {:induction false} UnsafeSeamLoses(cs: List<Coded>)
    requires AllClean(Nals(cs)) && Units(Join(cs)) == Nals(cs)
    ensures SeamsSafe(cs)
  {
    if cs.Cons? && cs.tail.Cons? {
      UnitsOfJoinCons(cs.head, cs.tail);
      JoinHasNoMore(cs.tail);
      UnsafeSeamLoses(cs.tail);
    }
  }

  /** Reading back what was written gives the same NAL units exactly when no unit holds a start code and no
      unit ending in zero precedes a three-byte one. */
  lemma {:induction false} RoundTripExactly(cs: List<Coded>)
    ensures Units(Join(cs)) == Nals(cs) <==> AllClean(Nals(cs)) && SeamsSafe(cs)
  {
    if Units(Join(cs)) == Nals(cs) {
      var p := FirstCode(Join(cs), 0);
      if p < |Join(cs)| {
        UnitsFromClean(Join(cs), p + 3);
      }
      UnsafeSeamLoses(cs);
    } else if AllClean(Nals(cs)) && SeamsSafe(cs) {
      SplitUndoesJoin(cs);
    }
  }
}
