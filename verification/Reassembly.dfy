// Receiver-side reassembly of a file from chunks (src/file_transfer_session.rs).
module Reassembly {
  import opened Common

  datatype Chunk = Chunk(offset: U64, length: U32, data: seq<Byte>)

  datatype Range = Range(offset: nat, len: nat) {
    function End(): nat {
      offset + len
    }

    predicate Contains(i: nat) {
      offset <= i < offset + len
    }
  }

  datatype Reason =
    ChunkOutOfRange | ChunkOverlap | IncompleteTransfer | ChecksumMismatch | StallTimeout

  /** Two ranges that share a byte, or one that is empty and strictly inside the other. */
  predicate Clash(a: Range, b: Range) {
    a.offset < b.End() && b.offset < a.End()
  }

  function RangeOf(c: Chunk): Range {
    Range(c.offset, c.length)
  }

  predicate WellFormed(size: nat, c: Chunk) {
    |c.data| == c.length && c.offset + c.length <= size
  }

  predicate InBounds(size: nat, ranges: seq<Range>) {
    forall k :: 0 <= k < |ranges| ==> ranges[k].End() <= size
  }

  predicate PairwiseApart(ranges: seq<Range>) {
    forall j, k :: 0 <= j < k < |ranges| ==> !Clash(ranges[j], ranges[k])
  }

  predicate Apart(r: Range, ranges: seq<Range>) {
    forall k :: 0 <= k < |ranges| ==> !Clash(r, ranges[k])
  }

  // ---------------------------------------------------------------------
  // Completeness
  // ---------------------------------------------------------------------

  predicate Covered(ranges: seq<Range>, i: nat) {
    exists r :: r in ranges && r.Contains(i)
  }

  predicate Covers(ranges: seq<Range>, size: nat) {
    forall i: nat :: i < size ==> Covered(ranges, i)
  }

  predicate SortedByOffset(ranges: seq<Range>) {
    forall j, k :: 0 <= j < k < |ranges| ==> ranges[j].offset <= ranges[k].offset
  }

  function Inserted(ranges: seq<Range>, i: nat, r: Range): seq<Range>
    requires i <= |ranges|
  {
    ranges[..i] + [r] + ranges[i..]
  }

  lemma {:induction false} InsertedIsSorted(ranges: seq<Range>, i: nat, r: Range)
    requires i <= |ranges| && SortedByOffset(ranges)
    requires i > 0 ==> ranges[i - 1].offset <= r.offset
    requires i < |ranges| ==> r.offset <= ranges[i].offset
    ensures SortedByOffset(Inserted(ranges, i, r))
  {
    var s := Inserted(ranges, i, r);
    forall j, k | 0 <= j < k < |s|
      ensures s[j].offset <= s[k].offset
    {
      assert s[j] == if j < i then ranges[j] else if j == i then r else ranges[j - 1];
      assert s[k] == if k < i then ranges[k] else if k == i then r else ranges[k - 1];
    }
  }

  lemma {:induction false} InsertedMembers(ranges: seq<Range>, i: nat, r: Range)
    requires i <= |ranges|
    ensures multiset(Inserted(ranges, i, r)) == multiset(ranges) + multiset{r}
  {
    assert ranges == ranges[..i] + ranges[i..];
  }

  /** Puts `r` in its place; the key is the offset alone, as in the source's unstable sort. */
  method Insert(r: Range, ranges: seq<Range>) returns (sorted: seq<Range>)
    requires SortedByOffset(ranges)
    ensures SortedByOffset(sorted) && multiset(sorted) == multiset(ranges) + multiset{r}
  {
    var i := |ranges|;
    while i > 0 && ranges[i - 1].offset > r.offset
      invariant 0 <= i <= |ranges| && (i < |ranges| ==> ranges[i].offset > r.offset)
    {
      i := i - 1;
    }
    sorted := Inserted(ranges, i, r);
    InsertedIsSorted(ranges, i, r);
    InsertedMembers(ranges, i, r);
  }

  method SortByOffset(ranges: seq<Range>) returns (sorted: seq<Range>)
    ensures SortedByOffset(sorted) && multiset(sorted) == multiset(ranges)
  {
    sorted := [];
    for i := 0 to |ranges|
      invariant SortedByOffset(sorted) && multiset(sorted) == multiset(ranges[..i])
    {
      assert ranges[..i + 1] == ranges[..i] + [ranges[i]];
      sorted := Insert(ranges[i], sorted);
    }
    assert ranges[..|ranges|] == ranges;
  }

  lemma {:induction false} SameMembersCover(a: seq<Range>, b: seq<Range>, size: nat)
    requires multiset(a) == multiset(b)
    ensures Covers(a, size) <==> Covers(b, size)
  {
    forall i: nat | i < size
      ensures Covered(a, i) <==> Covered(b, i)
    {
      if Covered(a, i) {
        SameMembers(a, b, i);
      }
      if Covered(b, i) {
        SameMembers(b, a, i);
      }
    }
  }

  lemma {:induction false} SameMembers(a: seq<Range>, b: seq<Range>, i: nat)
    requires multiset(a) == multiset(b) && Covered(a, i)
    ensures Covered(b, i)
  {
    var r :| r in a && r.Contains(i);
    assert r in multiset(b);
  }

  /** The sweep over ranges sorted by offset finds a gap exactly when some byte below `size` is in no range. */
  method Sweep(sorted: seq<Range>, size: nat) returns (complete: bool)
    requires SortedByOffset(sorted) && InBounds(size, sorted)
    ensures complete <==> Covers(sorted, size)
  {
    var covered: nat := 0;
    for k := 0 to |sorted|
      invariant forall j :: 0 <= j < k ==> sorted[j].End() <= covered
      invariant forall i: nat :: i < covered ==> Covered(sorted, i)
    {
      var r := sorted[k];
      if r.offset > covered {
        assert !Covered(sorted, covered);
        return false;
      }
      forall i: nat | covered <= i < r.End()
        ensures Covered(sorted, i)
      {
        assert r in sorted && r.Contains(i);
      }
      covered := if r.End() > covered then r.End() else covered;
    }
    complete := covered >= size;
    if !complete {
      assert !Covered(sorted, covered);
    }
  }

  function TotalLength(ranges: seq<Range>, n: nat): nat
    requires n <= |ranges|
  {
    if n == 0 then 0 else TotalLength(ranges, n - 1) + ranges[n - 1].len
  }

  function Bytes(r: Range): set<nat>
    decreases r.len
  {
    if r.len == 0 then {} else Bytes(Range(r.offset, r.len - 1)) + {r.End() - 1}
  }

  function BytesOf(ranges: seq<Range>, n: nat): set<nat>
    requires n <= |ranges|
  {
    if n == 0 then {} else BytesOf(ranges, n - 1) + Bytes(ranges[n - 1])
  }

  lemma {:induction false} InBytes(r: Range, i: nat)
    ensures i in Bytes(r) <==> r.Contains(i)
    decreases r.len
  {
    if r.len > 0 {
      InBytes(Range(r.offset, r.len - 1), i);
    }
  }

  lemma {:induction false} BytesCount(r: Range)
    ensures |Bytes(r)| == r.len
    decreases r.len
  {
    if r.len > 0 {
      var shorter := Range(r.offset, r.len - 1);
      BytesCount(shorter);
      InBytes(shorter, r.End() - 1);
    }
  }

  lemma {:induction false} InBytesOf(ranges: seq<Range>, n: nat, i: nat)
    requires n <= |ranges|
    ensures i in BytesOf(ranges, n) <==> exists k :: 0 <= k < n && ranges[k].Contains(i)
  {
    if n > 0 {
      InBytesOf(ranges, n - 1, i);
      InBytes(ranges[n - 1], i);
    }
  }

  lemma {:induction false} ApartRangesAddUp(ranges: seq<Range>, n: nat)
    requires n <= |ranges| && PairwiseApart(ranges)
    ensures |BytesOf(ranges, n)| == TotalLength(ranges, n)
  {
    for k := 0 to n
      invariant |BytesOf(ranges, k)| == TotalLength(ranges, k)
    {
      BytesCount(ranges[k]);
      NextIsDisjoint(ranges, k);
    }
  }

  lemma {:induction false} NextIsDisjoint(ranges: seq<Range>, n: nat)
    requires n < |ranges| && PairwiseApart(ranges)
    ensures BytesOf(ranges, n) !! Bytes(ranges[n])
  {
    forall i | i in BytesOf(ranges, n)
      ensures i !in Bytes(ranges[n])
    {
      InBytesOf(ranges, n, i);
      InBytes(ranges[n], i);
    }
  }

  lemma {:induction false} SubsetOfSameSize(a: set<nat>, b: set<nat>)
    requires a <= b && |a| == |b|
    ensures a == b
  {
    assert b == a + (b - a);
  }

  /** Ranges that are apart and in bounds leave no gap exactly when their lengths add up to the size. */
  lemma {:induction false} CoversIffLengthsAddUp(ranges: seq<Range>, size: nat)
    requires PairwiseApart(ranges) && InBounds(size, ranges)
    ensures Covers(ranges, size) <==> TotalLength(ranges, |ranges|) == size
  {
    var whole := Range(0, size);
    var all, got := Bytes(whole), BytesOf(ranges, |ranges|);
    BytesCount(whole);
    ApartRangesAddUp(ranges, |ranges|);
    BytesWithin(ranges, size);
    if |got| == size {
      SubsetOfSameSize(got, all);
      forall i: nat | i < size
        ensures Covered(ranges, i)
      {
        InBytes(whole, i);
        InBytesOf(ranges, |ranges|, i);
      }
    }
    if Covers(ranges, size) {
      forall i | i in all
        ensures i in got
      {
        InBytes(whole, i);
        assert Covered(ranges, i);
        InBytesOf(ranges, |ranges|, i);
      }
      assert all == got;
    }
  }

  lemma {:induction false} BytesWithin(ranges: seq<Range>, size: nat)
    requires InBounds(size, ranges)
    ensures BytesOf(ranges, |ranges|) <= Bytes(Range(0, size))
  {
    forall i | i in BytesOf(ranges, |ranges|)
      ensures i in Bytes(Range(0, size))
    {
      InBytesOf(ranges, |ranges|, i);
      InBytes(Range(0, size), i);
    }
  }

  // ---------------------------------------------------------------------
  // Applying chunks
  // ---------------------------------------------------------------------

  datatype State = State(size: nat, ranges: seq<Range>, data: seq<Byte>)

  function Zeros(n: nat): seq<Byte> {
    seq(n, _ => 0)
  }

  function Fresh(size: nat): State {
    State(size, [], Zeros(size))
  }

  predicate Valid(s: State) {
    |s.data| == s.size && InBounds(s.size, s.ranges) && PairwiseApart(s.ranges)
  }

  function Overwritten(data: seq<Byte>, at: nat, with: seq<Byte>): seq<Byte>
    requires at + |with| <= |data|
  {
    data[..at] + with + data[at + |with|..]
  }

  /** Why a chunk is refused, if it is. */
  function Refusal(s: State, c: Chunk): Option<Reason> {
    if |c.data| != c.length then Some(ChunkOutOfRange)
    else if c.offset + c.length > U64_MAX then Some(ChunkOutOfRange)
    else if c.offset + c.length > s.size then Some(ChunkOutOfRange)
    else if !Apart(RangeOf(c), s.ranges) then Some(ChunkOverlap)
    else None
  }

  function Accept(s: State, c: Chunk): State
    requires |s.data| == s.size && Refusal(s, c).None?
  {
    State(s.size, s.ranges + [RangeOf(c)], Overwritten(s.data, c.offset, c.data))
  }

  /** Two ranges clash exactly if they share a byte, or one is empty and lies strictly inside the other. */
  lemma {:induction false} ClashIsSharing(a: Range, b: Range)
    ensures a.len > 0 && b.len > 0 ==> (Clash(a, b) <==> exists i: nat :: a.Contains(i) && b.Contains(i))
    ensures a.len == 0 ==> (Clash(a, b) <==> b.offset < a.offset < b.End())
    ensures b.len == 0 ==> (Clash(a, b) <==> a.offset < b.offset < a.End())
  {
    if a.len > 0 && b.len > 0 && Clash(a, b) {
      var i := if a.offset < b.offset then b.offset else a.offset;
      assert a.Contains(i) && b.Contains(i);
    }
  }

  /** Why a chunk is refused: a wrong length or an end beyond the file come first, whether or not the end can be
      computed; then a clash with something received; and nothing else. */
  lemma {:induction false} RefusalIs(s: State, c: Chunk)
    requires s.size <= U64_MAX
    ensures Refusal(s, c) == Some(ChunkOutOfRange) <==> |c.data| != c.length || c.offset + c.length > s.size
    ensures Refusal(s, c) == Some(ChunkOverlap) <==>
              && |c.data| == c.length && c.offset + c.length <= s.size
              && exists k :: 0 <= k < |s.ranges| && Clash(Range(c.offset, c.length), s.ranges[k])
    ensures Refusal(s, c).Some? ==> Refusal(s, c).value in {ChunkOutOfRange, ChunkOverlap}
  {
  }

  lemma {:induction false} AcceptKeepsValid(s: State, c: Chunk)
    requires Valid(s) && Refusal(s, c).None?
    ensures Valid(Accept(s, c))
  {
    var ranges := Accept(s, c).ranges;
    forall j, k | 0 <= j < k < |ranges|
      ensures !Clash(ranges[j], ranges[k])
    {
      if k == |s.ranges| {
        assert !Clash(RangeOf(c), s.ranges[j]);
      }
    }
  }

  class FileReassembly {
    const resolvedSize: U64
    var receivedRanges: seq<Range>
    const data: array<Byte>

    ghost function Value(): State
      reads this, data
    {
      State(resolvedSize, receivedRanges, data[..])
    }

    constructor (resolvedSize: U64)
      ensures fresh(data) && this.resolvedSize == resolvedSize
      ensures Value() == Fresh(resolvedSize) && Valid(Value())
    {
      this.resolvedSize := resolvedSize;
      receivedRanges := [];
      data := new Byte[resolvedSize](_ => 0);
    }

    /** A refused chunk changes nothing; an accepted one is recorded and written in place. */
    method ApplyChunk(chunk: Chunk) returns (r: Result<(), Reason>)
      requires Valid(Value())
      modifies this, data
      ensures Valid(Value())
      ensures match Refusal(old(Value()), chunk)
              case Some(reason) => r == Err(reason) && Value() == old(Value())
              case None => r == Ok(()) && Value() == Accept(old(Value()), chunk)
    {
      if |chunk.data| != chunk.length {
        return Err(ChunkOutOfRange);
      }
      var end := chunk.offset + chunk.length;
      if end > U64_MAX {
        return Err(ChunkOutOfRange);
      }
      if end > resolvedSize {
        return Err(ChunkOutOfRange);
      }
      for k := 0 to |receivedRanges|
        invariant forall j :: 0 <= j < k ==> !Clash(RangeOf(chunk), receivedRanges[j])
      {
        var existing := receivedRanges[k];
        var existingEnd := existing.offset + existing.len;
        if chunk.offset < existingEnd && end > existing.offset {
          assert Clash(RangeOf(chunk), receivedRanges[k]);
          return Err(ChunkOverlap);
        }
      }
      AcceptKeepsValid(Value(), chunk);
      CopyInto(data, chunk.offset, chunk.data);
      receivedRanges := receivedRanges + [RangeOf(chunk)];
      return Ok(());
    }

    /** True exactly when every byte below the size was received, however the copy happened to be sorted. */
    method IsComplete() returns (complete: bool)
      requires Valid(Value())
      ensures complete <==> Covers(receivedRanges, resolvedSize)
      ensures complete <==> TotalLength(receivedRanges, |receivedRanges|) == resolvedSize
    {
      var ranges := SortByOffset(receivedRanges);
      forall k | 0 <= k < |ranges|
        ensures ranges[k].End() <= resolvedSize
      {
        assert ranges[k] in multiset(receivedRanges);
      }
      SameMembersCover(ranges, receivedRanges, resolvedSize);
      CoversIffLengthsAddUp(receivedRanges, resolvedSize);
      complete := Sweep(ranges, resolvedSize);
    }

    method VerifyChecksum(hash: seq<Byte> -> seq<Byte>, checksum: seq<Byte>) returns (matches: bool)
      ensures matches <==> hash(Value().data) == checksum
    {
      matches := hash(data[..]) == checksum;
    }
  }

  method CopyInto(a: array<Byte>, at: nat, source: seq<Byte>)
    requires at + |source| <= a.Length
    modifies a
    ensures a[..] == Overwritten(old(a[..]), at, source)
  {
    forall i | 0 <= i < |source| {
      a[at + i] := source[i];
    }
  }
}
