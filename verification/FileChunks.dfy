// Cutting a file into chunks, and when the chunks rebuild it (send_file_data in
// src/file_transfer_session.rs).
module FileChunks {
  import opened Common
  import opened Reassembly
  import opened ChunkOrder

  // ---------------------------------------------------------------------
  // The pieces
  // ---------------------------------------------------------------------

  /** The size of the pieces the data is cut into. */
  function Piece(chunkSize: nat): (m: nat)
    ensures m > 0
  {
    if chunkSize == 0 then 1 else chunkSize
  }

  function PieceEnd(len: nat, m: nat, start: nat): nat {
    if start + m < len then start + m else len
  }

  /** The low 32 bits, as in Rust's `as u32`. */
  function Low32(n: nat): U32 {
    if n <= U32_MAX then n else n % (U32_MAX + 1)
  }

  lemma {:induction false} Low32Keeps(high: nat, low: nat)
    requires low < 0x1_0000_0000
    ensures Low32(high * 0x1_0000_0000 + low) == low
  {
  }

  function Cut(data: seq<Byte>, m: nat, start: nat, offset: U64): Chunk
    requires start <= |data|
  {
    var bytes := data[start..PieceEnd(|data|, m, start)];
    Chunk(offset, Low32(|bytes|), bytes)
  }

  /** The chunk cut at `index`: its offset uses the chunk size as given, and its length keeps only 32 bits. */
  function ChunkAt(data: seq<Byte>, chunkSize: nat, index: nat): Chunk
    requires |data| <= U64_MAX && index * Piece(chunkSize) < |data|
  {
    OffsetFits(chunkSize, index);
    Cut(data, Piece(chunkSize), index * Piece(chunkSize), index * chunkSize)
  }

  lemma {:induction false} OffsetFits(chunkSize: nat, index: nat)
    ensures 0 <= index * chunkSize <= index * Piece(chunkSize)
  {
  }

  lemma {:induction false} NextMultiple(m: nat, k: nat)
    ensures (k + 1) * m == k * m + m
  {
  }

  /** `cs` are the first chunks of `data`, in order. */
  ghost predicate FirstChunks(data: seq<Byte>, chunkSize: nat, cs: seq<Chunk>)
    requires |data| <= U64_MAX
  {
    forall k :: 0 <= k < |cs| ==> k * Piece(chunkSize) < |data| && cs[k] == ChunkAt(data, chunkSize, k)
  }

  /** `cs` are all the chunks of `data`. */
  ghost predicate IsSplit(data: seq<Byte>, chunkSize: nat, cs: seq<Chunk>)
    requires |data| <= U64_MAX
  {
    FirstChunks(data, chunkSize, cs) && |cs| * Piece(chunkSize) >= |data|
  }

  lemma {:induction false} SplitExists(data: seq<Byte>, chunkSize: nat) returns (cs: seq<Chunk>)
    requires |data| <= U64_MAX
    ensures IsSplit(data, chunkSize, cs)
  {
    cs := [];
    var start: nat := 0;
    while start < |data|
      invariant start == |cs| * Piece(chunkSize) && FirstChunks(data, chunkSize, cs)
      decreases |data| - start
    {
      NextMultiple(Piece(chunkSize), |cs|);
      cs := cs + [ChunkAt(data, chunkSize, |cs|)];
      start := start + Piece(chunkSize);
    }
  }

  /** The chunks of `data`. */
  ghost function SplitOf(data: seq<Byte>, chunkSize: nat): (cs: seq<Chunk>)
    requires |data| <= U64_MAX
    ensures IsSplit(data, chunkSize, cs)
  {
    assert exists cs :: IsSplit(data, chunkSize, cs) by {
      var cs := SplitExists(data, chunkSize);
    }
    var cs :| IsSplit(data, chunkSize, cs);
    cs
  }

  lemma {:induction false} NotLonger(data: seq<Byte>, chunkSize: nat, a: seq<Chunk>, b: seq<Chunk>)
    requires |data| <= U64_MAX && FirstChunks(data, chunkSize, a) && IsSplit(data, chunkSize, b)
    ensures |a| <= |b|
  {
    if |b| < |a| {
      assert false;
    }
  }

  /** There is only one way to cut the data. */
  lemma {:induction false} SplitUnique(data: seq<Byte>, chunkSize: nat, cs: seq<Chunk>)
    requires |data| <= U64_MAX && IsSplit(data, chunkSize, cs)
    ensures cs == SplitOf(data, chunkSize)
  {
    var other := SplitOf(data, chunkSize);
    NotLonger(data, chunkSize, cs, other);
    NotLonger(data, chunkSize, other, cs);
    forall k | 0 <= k < |cs|
      ensures cs[k] == other[k]
    {
      assert cs[k] == ChunkAt(data, chunkSize, k);
    }
  }

  // ---------------------------------------------------------------------
  // When the chunks rebuild the data
  // ---------------------------------------------------------------------

  /** The chunk sizes that can carry `len` bytes. */
  predicate Carries(chunkSize: nat, len: nat) {
    (chunkSize >= 1 || len <= 1) && (chunkSize <= U32_MAX || len <= U32_MAX)
  }

  /** All chunks were accepted, no gap is left and the contents are `data`. */
  ghost predicate Rebuilds(size: nat, cs: seq<Chunk>, data: seq<Byte>) {
    match After(size, cs, |cs|)
    case None => false
    case Some(s) => Covers(s.ranges, size) && s.data == data
  }

  lemma {:induction false} SplitChunk(data: seq<Byte>, chunkSize: nat, cs: seq<Chunk>, k: nat)
    requires |data| <= U64_MAX && FirstChunks(data, chunkSize, cs) && k < |cs| && Carries(chunkSize, |data|)
    ensures k * Piece(chunkSize) < |data|
    ensures cs[k].offset == k * Piece(chunkSize) && |cs[k].data| == cs[k].length
    ensures cs[k].offset + cs[k].length == PieceEnd(|data|, Piece(chunkSize), k * Piece(chunkSize))
    ensures cs[k].data == data[cs[k].offset..cs[k].offset + cs[k].length]
  {
    assert cs[k] == ChunkAt(data, chunkSize, k);
    OffsetIsStart(chunkSize, k, |data|);
  }

  lemma {:induction false} OffsetIsStart(chunkSize: nat, k: nat, len: nat)
    requires Carries(chunkSize, len) && k * Piece(chunkSize) < len
    ensures k * chunkSize == k * Piece(chunkSize)
  {
    if chunkSize == 0 {
      assert k == 0;
    }
  }

  lemma {:induction false} Ordered(m: nat, j: nat, k: nat)
    requires j < k
    ensures j * m + m <= k * m
  {
    var d: nat := k - j - 1;
    assert k * m == j * m + m + d * m;
  }

  lemma {:induction false} SplitIsCompatible(data: seq<Byte>, chunkSize: nat, cs: seq<Chunk>)
    requires |data| <= U64_MAX && FirstChunks(data, chunkSize, cs) && Carries(chunkSize, |data|)
    ensures Compatible(|data|, cs, |cs|)
  {
    forall k | 0 <= k < |cs|
      ensures WellFormed(|data|, cs[k])
    {
      SplitChunk(data, chunkSize, cs, k);
    }
    forall j, k | 0 <= j < k < |cs|
      ensures !Clash(RangeOf(cs[j]), RangeOf(cs[k]))
    {
      SplitChunk(data, chunkSize, cs, j);
      SplitChunk(data, chunkSize, cs, k);
      Ordered(Piece(chunkSize), j, k);
    }
  }

  /** The chunk that holds byte `i`. */
  lemma {:induction false} Holder(data: seq<Byte>, chunkSize: nat, cs: seq<Chunk>, i: nat) returns (k: nat)
    requires |data| <= U64_MAX && IsSplit(data, chunkSize, cs) && Carries(chunkSize, |data|) && i < |data|
    ensures k < |cs| && RangeOf(cs[k]).Contains(i) && Holds(cs[k], i) && cs[k].data[i - cs[k].offset] == data[i]
  {
    var m := Piece(chunkSize);
    k := 0;
    while (k + 1) * m <= i
      invariant k * m <= i
      decreases i - k * m
    {
      k := k + 1;
    }
    if k > |cs| {
      Ordered(m, |cs|, k);
    }
    SplitChunk(data, chunkSize, cs, k);
  }

  lemma {:induction false} SplitRebuilds(data: seq<Byte>, chunkSize: nat, cs: seq<Chunk>)
    requires |data| <= U64_MAX && IsSplit(data, chunkSize, cs) && Carries(chunkSize, |data|)
    ensures Rebuilds(|data|, cs, data)
  {
    SplitIsCompatible(data, chunkSize, cs);
    AcceptedIffCompatible(|data|, cs, |cs|);
    var s := After(|data|, cs, |cs|).value;
    forall i: nat | i < |data|
      ensures Covered(s.ranges, i) && s.data[i] == data[i]
    {
      var k := Holder(data, chunkSize, cs, i);
      ByteOfHolder(|data|, cs, |cs|, k, i);
      assert s.ranges[k] in s.ranges;
    }
  }

  lemma {:induction false} ZeroSizeClashes(data: seq<Byte>, cs: seq<Chunk>)
    requires 2 <= |data| <= U64_MAX && IsSplit(data, 0, cs)
    ensures !Compatible(|data|, cs, |cs|)
  {
    assert cs[0] == ChunkAt(data, 0, 0) && cs[1] == ChunkAt(data, 0, 1);
    assert Clash(RangeOf(cs[0]), RangeOf(cs[1]));
  }

  lemma {:induction false} Positive(n: nat, m: nat)
    requires n * m > 0
    ensures n > 0
  {
  }

  lemma {:induction false} TooLongIsMalformed(data: seq<Byte>, chunkSize: nat, cs: seq<Chunk>)
    requires U32_MAX < |data| <= U64_MAX && U32_MAX < chunkSize && IsSplit(data, chunkSize, cs)
    ensures !Compatible(|data|, cs, |cs|)
  {
    Positive(|cs|, Piece(chunkSize));
    assert cs[0] == ChunkAt(data, chunkSize, 0);
    assert !WellFormed(|data|, cs[0]);
  }

  /** The chunks of a file, applied in any order, rebuild exactly that file if and only if the receiver expects its
      size and the chunk size can carry it. */
  lemma {:induction false} RoundTripInAnyOrder(
    data: seq<Byte>, chunkSize: nat, cs: seq<Chunk>, p: seq<nat>, size: nat)
    requires |data| <= U64_MAX && size <= U64_MAX && IsSplit(data, chunkSize, cs) && IsPermutation(p, |cs|)
    ensures Rebuilds(size, Permuted(cs, p), data) <==> size == |data| && Carries(chunkSize, |data|)
  {
    OrderDoesNotMatter(size, cs, p);
    if size == |data| {
      if Carries(chunkSize, |data|) {
        SplitRebuilds(data, chunkSize, cs);
      } else {
        if chunkSize == 0 {
          ZeroSizeClashes(data, cs);
        } else {
          TooLongIsMalformed(data, chunkSize, cs);
        }
        AcceptedIffCompatible(size, cs, |cs|);
      }
    }
  }
}
