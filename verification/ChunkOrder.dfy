// What a set of chunks leaves behind does not depend on the order in which it is applied.
module ChunkOrder {
  import opened Common
  import opened Reassembly

  /** The state after the first `n` chunks, or `None` if one of them was refused. */
  function After(size: nat, cs: seq<Chunk>, n: nat): (r: Option<State>)
    requires n <= |cs|
    ensures r.Some? ==> r.value.size == size == |r.value.data|
  {
    if n == 0 then Some(Fresh(size))
    else
      match After(size, cs, n - 1)
      case None => None
      case Some(s) => if Refusal(s, cs[n - 1]).None? then Some(Accept(s, cs[n - 1])) else None
  }

  /** A condition on the chunks as a set: each is well formed and no two clash. */
  predicate Compatible(size: nat, cs: seq<Chunk>, n: nat)
    requires n <= |cs|
  {
    && (forall k :: 0 <= k < n ==> WellFormed(size, cs[k]))
    && forall j, k :: 0 <= j < k < n ==> !Clash(RangeOf(cs[j]), RangeOf(cs[k]))
  }

  function RangesOf(cs: seq<Chunk>, n: nat): seq<Range>
    requires n <= |cs|
  {
    seq(n, k requires 0 <= k < n => RangeOf(cs[k]))
  }

  predicate Holds(c: Chunk, i: nat) {
    c.offset <= i < c.offset + |c.data|
  }

  /** The byte at `i` when the last chunk that holds it wins. */
  function ByteAt(cs: seq<Chunk>, n: nat, i: nat): Byte
    requires n <= |cs|
  {
    if n == 0 then 0
    else if Holds(cs[n - 1], i) then cs[n - 1].data[i - cs[n - 1].offset]
    else ByteAt(cs, n - 1, i)
  }

  ghost predicate Describes(size: nat, cs: seq<Chunk>, n: nat)
    requires n <= |cs|
  {
    match After(size, cs, n)
    case None => !Compatible(size, cs, n)
    case Some(s) =>
      && Compatible(size, cs, n)
      && s.ranges == RangesOf(cs, n)
      && forall i :: 0 <= i < size ==> s.data[i] == ByteAt(cs, n, i)
  }

  /** Accepted one after the other exactly when compatible as a set; and then the contents are as described. */
  lemma {:induction false} AcceptedIffCompatible(size: nat, cs: seq<Chunk>, n: nat)
    requires n <= |cs| && size <= U64_MAX
    ensures Describes(size, cs, n)
  {
    for k := 0 to n
      invariant Describes(size, cs, k)
    {
      DescribesStep(size, cs, k);
    }
  }

  lemma {:induction false} DescribesStep(size: nat, cs: seq<Chunk>, n: nat)
    requires n < |cs| && size <= U64_MAX && Describes(size, cs, n)
    ensures Describes(size, cs, n + 1)
  {
    var c := cs[n];
    if Compatible(size, cs, n) {
      var s := After(size, cs, n).value;
      RefusedIff(size, cs, n, s);
      if Refusal(s, c).None? {
        var s' := Accept(s, c);
        assert After(size, cs, n + 1) == Some(s');
        assert RangesOf(cs, n + 1) == RangesOf(cs, n) + [RangeOf(c)];
        forall i | 0 <= i < size
          ensures s'.data[i] == ByteAt(cs, n + 1, i)
        {
        }
      }
    }
  }

  lemma {:induction false} RefusedIff(size: nat, cs: seq<Chunk>, n: nat, s: State)
    requires n < |cs| && size <= U64_MAX && Compatible(size, cs, n) && s.size == size && s.ranges == RangesOf(cs, n)
    ensures Refusal(s, cs[n]).None? <==> Compatible(size, cs, n + 1)
  {
    var c := cs[n];
    if Compatible(size, cs, n + 1) {
      assert WellFormed(size, c);
      forall k | 0 <= k < n
        ensures !Clash(RangeOf(c), s.ranges[k])
      {
        assert !Clash(RangeOf(cs[k]), RangeOf(c));
      }
    }
    if Refusal(s, c).None? {
      forall k | 0 <= k < n
        ensures !Clash(RangeOf(cs[k]), RangeOf(c))
      {
        assert !Clash(RangeOf(c), s.ranges[k]);
      }
    }
  }

  /** Among compatible chunks, the byte at `i` comes from the only one that holds it. */
  lemma {:induction false} ByteOfHolder(size: nat, cs: seq<Chunk>, n: nat, k: nat, i: nat)
    requires k < n <= |cs| && Compatible(size, cs, n) && Holds(cs[k], i)
    ensures ByteAt(cs, n, i) == cs[k].data[i - cs[k].offset]
    decreases n
  {
    if k < n - 1 {
      assert !Clash(RangeOf(cs[k]), RangeOf(cs[n - 1]));
      ByteOfHolder(size, cs, n - 1, k, i);
    }
  }

  lemma {:induction false} ByteOfNone(cs: seq<Chunk>, n: nat, i: nat)
    requires n <= |cs| && forall k :: 0 <= k < n ==> !Holds(cs[k], i)
    ensures ByteAt(cs, n, i) == 0
    decreases n
  {
    if n > 0 {
      ByteOfNone(cs, n - 1, i);
    }
  }

  // ---------------------------------------------------------------------
  // Permutations
  // ---------------------------------------------------------------------

  predicate IsPermutation(p: seq<nat>, n: nat) {
    && |p| == n
    && (forall k :: 0 <= k < n ==> p[k] < n)
    && (forall j, k :: 0 <= j < k < n ==> p[j] != p[k])
    && forall v: nat :: v < n ==> v in p
  }

  function Permuted(cs: seq<Chunk>, p: seq<nat>): seq<Chunk>
    requires IsPermutation(p, |cs|)
  {
    seq(|p|, k requires 0 <= k < |p| => cs[p[k]])
  }

  lemma {:induction false} CompatibleInAnyOrder(size: nat, cs: seq<Chunk>, p: seq<nat>)
    requires IsPermutation(p, |cs|)
    ensures Compatible(size, cs, |cs|) <==> Compatible(size, Permuted(cs, p), |cs|)
  {
    var ds := Permuted(cs, p);
    if Compatible(size, cs, |cs|) {
      forall j, k | 0 <= j < k < |cs|
        ensures !Clash(RangeOf(ds[j]), RangeOf(ds[k]))
      {
        assert p[j] != p[k];
        assert ds[j] == cs[p[j]] && ds[k] == cs[p[k]];
      }
    }
    if Compatible(size, ds, |cs|) {
      forall k | 0 <= k < |cs|
        ensures WellFormed(size, cs[k])
      {
        var k' := Position(p, |cs|, k);
        assert ds[k'] == cs[k];
      }
      forall j, k | 0 <= j < k < |cs|
        ensures !Clash(RangeOf(cs[j]), RangeOf(cs[k]))
      {
        var j', k' := Position(p, |cs|, j), Position(p, |cs|, k);
        assert ds[j'] == cs[j] && ds[k'] == cs[k] && j' != k';
      }
    }
  }

  /** Where the permutation puts element `v`. */
  ghost function Position(p: seq<nat>, n: nat, v: nat): (k: nat)
    requires IsPermutation(p, n) && v < n
    ensures k < n && p[k] == v
  {
    assert v in p;
    var k: nat :| k < |p| && p[k] == v;
    k
  }

  lemma {:induction false} BytesInAnyOrder(size: nat, cs: seq<Chunk>, p: seq<nat>, i: nat)
    requires IsPermutation(p, |cs|) && Compatible(size, cs, |cs|) && Compatible(size, Permuted(cs, p), |cs|)
    ensures ByteAt(cs, |cs|, i) == ByteAt(Permuted(cs, p), |cs|, i)
  {
    var ds := Permuted(cs, p);
    if k: nat :| k < |cs| && Holds(cs[k], i) {
      var k' := Position(p, |cs|, k);
      assert ds[k'] == cs[k];
      ByteOfHolder(size, cs, |cs|, k, i);
      ByteOfHolder(size, ds, |cs|, k', i);
    } else {
      ByteOfNone(cs, |cs|, i);
      forall k | 0 <= k < |cs|
        ensures !Holds(ds[k], i)
      {
        assert ds[k] == cs[p[k]];
      }
      ByteOfNone(ds, |cs|, i);
    }
  }

  lemma {:induction false} CoverInAnyOrder(cs: seq<Chunk>, p: seq<nat>, size: nat)
    requires IsPermutation(p, |cs|)
    ensures Covers(RangesOf(cs, |cs|), size) <==> Covers(RangesOf(Permuted(cs, p), |cs|), size)
  {
    var ds := Permuted(cs, p);
    forall i: nat | i < size
      ensures Covered(RangesOf(cs, |cs|), i) <==> Covered(RangesOf(ds, |cs|), i)
    {
      CoveredIsHeld(cs, i);
      CoveredIsHeld(ds, i);
      if k: nat :| k < |cs| && RangeOf(cs[k]).Contains(i) {
        assert ds[Position(p, |cs|, k)] == cs[k];
      }
      if k: nat :| k < |cs| && RangeOf(ds[k]).Contains(i) {
        assert cs[p[k]] == ds[k];
      }
    }
  }

  lemma {:induction false} CoveredIsHeld(cs: seq<Chunk>, i: nat)
    ensures Covered(RangesOf(cs, |cs|), i) <==> exists k: nat :: k < |cs| && RangeOf(cs[k]).Contains(i)
  {
    var ranges := RangesOf(cs, |cs|);
    if k: nat :| k < |cs| && RangeOf(cs[k]).Contains(i) {
      assert ranges[k] in ranges;
    }
  }

  /** Whether a set of chunks is accepted, what it rebuilds and whether it is complete do not depend on the order. */
  lemma {:induction false} OrderDoesNotMatter(size: nat, cs: seq<Chunk>, p: seq<nat>)
    requires IsPermutation(p, |cs|) && size <= U64_MAX
    ensures After(size, cs, |cs|).Some? <==> After(size, Permuted(cs, p), |cs|).Some?
    ensures After(size, cs, |cs|).Some? ==>
              && After(size, cs, |cs|).value.data == After(size, Permuted(cs, p), |cs|).value.data
              && (Covers(After(size, cs, |cs|).value.ranges, size)
                  <==> Covers(After(size, Permuted(cs, p), |cs|).value.ranges, size))
  {
    var ds := Permuted(cs, p);
    AcceptedIffCompatible(size, cs, |cs|);
    AcceptedIffCompatible(size, ds, |cs|);
    CompatibleInAnyOrder(size, cs, p);
    if After(size, cs, |cs|).Some? {
      CoverInAnyOrder(cs, p, size);
      forall i: nat | i < size
        ensures After(size, cs, |cs|).value.data[i] == After(size, ds, |cs|).value.data[i]
      {
        BytesInAnyOrder(size, cs, p, i);
      }
    }
  }
}
