/**
 Querying the bit-sliced filters: row ANDs and ORs, 256 pages at a time (core/sg_driver.hpp 988-1055, core/x-lib.hpp
 105-138, 675-704).
 */
module BloomQuery {
  import opened Bits
  import opened Bitshuffle
  import opened BitshufflePasses
  import opened BloomHash
  import opened BloomFilters
  import opened BloomIndex

  // ---------- 256-bit vectors ----------

  function AndByte(a: bv8, b: bv8): (r: bv8)
    ensures forall i: nat :: i < 8 ==> Bit(r, i) == (Bit(a, i) && Bit(b, i))
  {
    a & b
  }

  function OrByte(a: bv8, b: bv8): (r: bv8)
    ensures forall i: nat :: i < 8 ==> Bit(r, i) == (Bit(a, i) || Bit(b, i))
  {
    a | b
  }

  function ZeroByte(): (r: bv8)
    ensures forall i: nat :: i < 8 ==> !Bit(r, i)
  {
    0
  }

  /** Bit p of a vector or a bitset. */
  predicate IsSet(bitset: seq<bv8>, p: nat) {
    p / 8 < |bitset| && Bit(bitset[p / 8], p % 8)
  }

  /** `_mm256_and_si256`. */
  method AndVector(a: seq<bv8>, b: seq<bv8>) returns (r: seq<bv8>)
    requires |a| == |b| == 32
    ensures |r| == 32 && forall p: nat :: p < SIMD_LEN ==> IsSet(r, p) == (IsSet(a, p) && IsSet(b, p))
  {
    r := [];
    while |r| < 32
      invariant |r| <= 32
      invariant forall p: nat :: p < 8 * |r| ==> IsSet(r, p) == (IsSet(a, p) && IsSet(b, p))
    {
      r := r + [AndByte(a[|r|], b[|r|])];
    }
  }

  /** `_mm256_or_si256`. */
  method OrVector(a: seq<bv8>, b: seq<bv8>) returns (r: seq<bv8>)
    requires |a| == |b| == 32
    ensures |r| == 32 && forall p: nat :: p < SIMD_LEN ==> IsSet(r, p) == (IsSet(a, p) || IsSet(b, p))
  {
    r := [];
    while |r| < 32
      invariant |r| <= 32
      invariant forall p: nat :: p < 8 * |r| ==> IsSet(r, p) == (IsSet(a, p) || IsSet(b, p))
    {
      r := r + [OrByte(a[|r|], b[|r|])];
    }
  }

  /** `_mm256_setzero_si256`. */
  method ZeroVector() returns (r: seq<bv8>)
    ensures |r| == 32 && forall p: nat :: p < SIMD_LEN ==> !IsSet(r, p)
  {
    r := [];
    while |r| < 32
      invariant |r| <= 32
      invariant forall p: nat :: p < 8 * |r| ==> !IsSet(r, p)
    {
      var longer := r + [ZeroByte()];
      forall p: nat | p < 8 * |longer|
        ensures !IsSet(longer, p)
      {
        if p / 8 < |r| {
          assert !IsSet(r, p);
        }
      }
      r := longer;
    }
  }

  /** `_mm256_load_si256((__m256i *)(base_addr + (h << 5)))`. */
  method LoadRow(rows: seq<bv8>, es: nat, h: nat) returns (r: seq<bv8>)
    requires |rows| == SIMD_LEN * es && h < 8 * es
    ensures |r| == 32 && forall p: nat :: p < SIMD_LEN ==> IsSet(r, p) == RowBit(rows, h, p)
  {
    MulMonotone(h + 1, 8 * es, 32);
    r := rows[32 * h..32 * h + 32];
    assert forall c: nat :: c < 32 ==> r[c] == rows[At(h, 32, c)];
  }

  // ---------- one group ----------

  /** Page p answers a query for these positions: all four bits of its filter are set. */
  predicate Answers(rows: seq<bv8>, p: nat, q: Positions) {
    RowBit(rows, q.a, p) && RowBit(rows, q.b, p) && RowBit(rows, q.c, p) && RowBit(rows, q.d, p)
  }

  /** The row ANDs for one vertex. */
  method QueryVertex(rows: seq<bv8>, es: nat, q: Positions) returns (r: seq<bv8>)
    requires |rows| == SIMD_LEN * es && q.Below(8 * es)
    ensures |r| == 32 && forall p: nat :: p < SIMD_LEN ==> IsSet(r, p) == Answers(rows, p, q)
  {
    var rowA := LoadRow(rows, es, q.a);
    var rowB := LoadRow(rows, es, q.b);
    var andAB := AndVector(rowA, rowB);
    var rowC := LoadRow(rows, es, q.c);
    var rowD := LoadRow(rows, es, q.d);
    var andCD := AndVector(rowC, rowD);
    r := AndVector(andAB, andCD);
  }

  /** Page p answers the query for one of the first `upTo` vertices. */
  ghost predicate AnswersSome(hash: Hash, rows: seq<bv8>, vertices: seq<nat>, upTo: nat, p: nat) {
    exists k: nat :: k < upTo && k < |vertices| && Answers(rows, p, hash(vertices[k]))
  }

  /** The loops over the padded vertex list, four at a time. */
  method QueryGroup(hash: Hash, rows: seq<bv8>, es: nat, vertices: seq<nat>) returns (out: seq<bv8>)
    requires |rows| == SIMD_LEN * es && Ranged(hash, 8 * es) && |vertices| % 4 == 0
    ensures |out| == 32 && forall p: nat :: p < SIMD_LEN ==>
      IsSet(out, p) == AnswersSome(hash, rows, vertices, |vertices|, p)
  {
    out := ZeroVector();
    var k := 0;
    while k < |vertices|
      invariant 0 <= k <= |vertices| && k % 4 == 0 && |out| == 32
      invariant forall p: nat :: p < SIMD_LEN ==> IsSet(out, p) == AnswersSome(hash, rows, vertices, k, p)
    {
      var j := 0;
      while j < 4
        invariant 0 <= j <= 4 && |out| == 32
        invariant forall p: nat :: p < SIMD_LEN ==> IsSet(out, p) == AnswersSome(hash, rows, vertices, k + j, p)
      {
        out := QueryNext(hash, rows, es, vertices, k + j, out);
        j := j + 1;
      }
      k := k + 4;
    }
  }

  method QueryNext(hash: Hash, rows: seq<bv8>, es: nat, vertices: seq<nat>, k: nat, out: seq<bv8>)
    returns (out': seq<bv8>)
    requires |rows| == SIMD_LEN * es && Ranged(hash, 8 * es) && k < |vertices| && |out| == 32
    requires forall p: nat :: p < SIMD_LEN ==> IsSet(out, p) == AnswersSome(hash, rows, vertices, k, p)
    ensures |out'| == 32 && forall p: nat :: p < SIMD_LEN ==>
      IsSet(out', p) == AnswersSome(hash, rows, vertices, k + 1, p)
  {
    var r := QueryVertex(rows, es, hash(vertices[k]));
    out' := OrVector(out, r);
    forall p: nat | p < SIMD_LEN
      ensures AnswersSome(hash, rows, vertices, k + 1, p) ==
        (AnswersSome(hash, rows, vertices, k, p) || Answers(rows, p, hash(vertices[k])))
    {
    }
  }

  // ---------- the whole filter file ----------

  /** The bitset holds the answers of the 256 pages of group g. */
  ghost predicate GroupAnswered(hash: Hash, file: seq<bv8>, es: nat, vertices: seq<nat>, bitset: seq<bv8>, g: nat) {
    && At(g, SIMD_LEN * es, SIMD_LEN * es) <= |file| && 32 * g + 32 <= |bitset|
    && forall p: nat :: p < SIMD_LEN ==>
      IsSet(bitset, At(g, SIMD_LEN, p)) ==
        AnswersSome(hash, GroupBytes(file, SIMD_LEN * es, g), vertices, |vertices|, p)
  }

  /** `_mm256_store_si256((__m256i *)(base_out + (i << 5)), out)`. */
  method StoreVector(bitset: array<bv8>, at: nat, out: seq<bv8>)
    requires |out| == 32 && at + 32 <= bitset.Length
    modifies bitset
    ensures bitset[..] == old(bitset[..])[..at] + out + old(bitset[..])[at + 32..]
  {
    forall k | 0 <= k < 32 {
      bitset[at + k] := out[k];
    }
  }

  lemma StoredAnswers(hash: Hash, file: seq<bv8>, es: nat, vertices: seq<nat>, before: seq<bv8>, out: seq<bv8>,
                      bitset: seq<bv8>, g: nat)
    requires At(g, SIMD_LEN * es, SIMD_LEN * es) <= |file| && |out| == 32 && 32 * g + 32 <= |before|
    requires bitset == before[..32 * g] + out + before[32 * g + 32..]
    requires forall p: nat :: p < SIMD_LEN ==>
      IsSet(out, p) == AnswersSome(hash, GroupBytes(file, SIMD_LEN * es, g), vertices, |vertices|, p)
    ensures GroupAnswered(hash, file, es, vertices, bitset, g)
  {
    forall p: nat | p < SIMD_LEN
      ensures IsSet(bitset, At(g, SIMD_LEN, p)) == IsSet(out, p)
    {
      assert At(g, SIMD_LEN, p) / 8 == 32 * g + p / 8 && At(g, SIMD_LEN, p) % 8 == p % 8;
      assert bitset[32 * g + p / 8] == out[p / 8];
    }
  }

  lemma OtherAnswers(hash: Hash, file: seq<bv8>, es: nat, vertices: seq<nat>, before: seq<bv8>, bitset: seq<bv8>,
                     g: nat)
    requires GroupAnswered(hash, file, es, vertices, before, g)
    requires |bitset| == |before| && before[32 * g..32 * g + 32] == bitset[32 * g..32 * g + 32]
    ensures GroupAnswered(hash, file, es, vertices, bitset, g)
  {
    forall p: nat | p < SIMD_LEN
      ensures IsSet(bitset, At(g, SIMD_LEN, p)) == IsSet(before, At(g, SIMD_LEN, p))
    {
      assert At(g, SIMD_LEN, p) / 8 == 32 * g + p / 8;
      assert bitset[32 * g + p / 8] == bitset[32 * g..32 * g + 32][p / 8];
      assert before[32 * g + p / 8] == before[32 * g..32 * g + 32][p / 8];
    }
  }

  ghost predicate AnsweredBetween(hash: Hash, file: seq<bv8>, es: nat, vertices: seq<nat>, bitset: seq<bv8>, from: nat,
                                  to: nat) {
    forall g: nat :: from <= g < to ==> GroupAnswered(hash, file, es, vertices, bitset, g)
  }

  /** Groups already answered stay answered when one further group is stored. */
  lemma StoreOneGroup(hash: Hash, file: seq<bv8>, es: nat, vertices: seq<nat>, before: seq<bv8>, out: seq<bv8>,
                      bitset: seq<bv8>, from: nat, g: nat)
    requires AnsweredBetween(hash, file, es, vertices, before, from, g)
    requires At(g, SIMD_LEN * es, SIMD_LEN * es) <= |file| && |out| == 32 && 32 * g + 32 <= |before|
    requires bitset == before[..32 * g] + out + before[32 * g + 32..]
    requires forall p: nat :: p < SIMD_LEN ==>
      IsSet(out, p) == AnswersSome(hash, GroupBytes(file, SIMD_LEN * es, g), vertices, |vertices|, p)
    ensures AnsweredBetween(hash, file, es, vertices, bitset, from, g + 1)
  {
    StoredAnswers(hash, file, es, vertices, before, out, bitset, g);
    forall g': nat | from <= g' < g
      ensures GroupAnswered(hash, file, es, vertices, bitset, g')
    {
      OtherAnswers(hash, file, es, vertices, before, bitset, g');
    }
  }

  /** Byte offsets into the filter file and the bitset they lead to. */
  lemma Offsets(first: nat, es: nat)
    requires es > 0
    ensures At(first, SIMD_LEN * es, 0) / es / 8 == 32 * first
  {
    AtAssoc(first, SIMD_LEN, 0, es, 0);
    RemainderOfMultiple(At(first, SIMD_LEN, 0), es);
  }

  /**
   `partition_callback` in `phase_BF_checking_2`: the groups in `bufin`, which lies `offset` bytes into the filter
   file.
   */
  method PartitionCallback(hash: Hash, ghost file: seq<bv8>, es: nat, vertices: seq<nat>, bufin: seq<bv8>, offset: nat,
                           bitset: array<bv8>,
                           ghost first: nat, ghost groups: nat)
    requires es > 0 && Ranged(hash, 8 * es) && |vertices| % 4 == 0
    requires offset == At(first, SIMD_LEN * es, 0) && |bufin| == At(groups, SIMD_LEN * es, 0)
    requires offset + |bufin| <= |file| && bufin == file[offset..offset + |bufin|] &&
      32 * (first + groups) <= bitset.Length
    modifies bitset
    ensures AnsweredBetween(hash, file, es, vertices, bitset[..], first, first + groups)
    ensures bitset[..32 * first] == old(bitset[..])[..32 * first]
    ensures bitset[32 * (first + groups)..] == old(bitset[..])[32 * (first + groups)..]
  {
    GroupsOfSize(|bufin|, SIMD_LEN * es, groups);
    var filterGroups := |bufin| / (SIMD_LEN * es);
    Offsets(first, es);
    var baseOut := offset / es / 8;
    var i := 0;
    while i < filterGroups
      invariant 0 <= i <= filterGroups
      invariant AnsweredBetween(hash, file, es, vertices, bitset[..], first, first + i)
      invariant bitset[..32 * first] == old(bitset[..])[..32 * first]
      invariant bitset[32 * (first + groups)..] == old(bitset[..])[32 * (first + groups)..]
    {
      AnswerGroup(hash, file, es, vertices, bufin, offset, bitset, baseOut, i, first, groups);
      i := i + 1;
    }
  }

  lemma GroupOfBuffer(file: seq<bv8>, size: nat, bufin: seq<bv8>, offset: nat, first: nat, groups: nat, i: nat)
    requires offset == At(first, size, 0) && |bufin| == At(groups, size, 0) && i < groups
    requires offset + |bufin| <= |file| && bufin == file[offset..offset + |bufin|]
    ensures At(i, size, size) <= |bufin| && At(first + i, size, size) <= |file|
    ensures bufin[At(i, size, 0)..At(i, size, size)] == GroupBytes(file, size, first + i)
  {
    GroupEnd(i, groups, size);
    AtSum(first, i, size, 0);
    AtSum(first, i, size, size);
    SliceOfSlice(file, offset, offset + |bufin|, At(i, size, 0), At(i, size, size));
  }

  lemma SliceOfSlice(s: seq<bv8>, a: nat, b: nat, c: nat, d: nat)
    requires a <= b <= |s| && c <= d <= b - a
    ensures s[a..b][c..d] == s[a + c..a + d]
  {
    forall k | 0 <= k < d - c
      ensures s[a..b][c..d][k] == s[a + c..a + d][k]
    {
      assert s[a..b][c + k] == s[a + c + k];
    }
  }

  /** The row i rows further on. */
  lemma AtSum(first: nat, i: nat, size: nat, c: nat)
    ensures At(first + i, size, c) == At(first, size, 0) + At(i, size, c)
  {
    assert (first + i) * size == first * size + i * size;
  }

  method AnswerGroup(hash: Hash, ghost file: seq<bv8>, es: nat, vertices: seq<nat>, bufin: seq<bv8>, ghost offset: nat,
                     bitset: array<bv8>,
                     baseOut: nat, i: nat, ghost first: nat, ghost groups: nat)
    requires es > 0 && Ranged(hash, 8 * es) && |vertices| % 4 == 0 && i < groups && baseOut == 32 * first
    requires offset == At(first, SIMD_LEN * es, 0) && |bufin| == At(groups, SIMD_LEN * es, 0)
    requires offset + |bufin| <= |file| && bufin == file[offset..offset + |bufin|] &&
      32 * (first + groups) <= bitset.Length
    requires AnsweredBetween(hash, file, es, vertices, bitset[..], first, first + i)
    modifies bitset
    ensures AnsweredBetween(hash, file, es, vertices, bitset[..], first, first + i + 1)
    ensures bitset[..32 * first] == old(bitset[..])[..32 * first]
    ensures bitset[32 * (first + groups)..] == old(bitset[..])[32 * (first + groups)..]
  {
    GroupOfBuffer(file, SIMD_LEN * es, bufin, offset, first, groups, i);
    var size := SIMD_LEN * es;
    var rows := bufin[i * size..i * size + size];
    var out := QueryGroup(hash, rows, es, vertices);
    ghost var before := bitset[..];
    StoreVector(bitset, baseOut + 32 * i, out);
    StoreOneGroup(hash, file, es, vertices, before, out, bitset[..], first, first + i);
  }

  // ---------- buffers and processors ----------

  lemma KeepAnswered(hash: Hash, file: seq<bv8>, es: nat, vertices: seq<nat>, before: seq<bv8>, bitset: seq<bv8>,
                     from: nat, to: nat, upTo: nat)
    requires AnsweredBetween(hash, file, es, vertices, before, from, to)
    requires |before| == |bitset| && to <= upTo && 32 * upTo <= |before| && before[..32 * upTo] == bitset[..32 * upTo]
    ensures AnsweredBetween(hash, file, es, vertices, bitset, from, to)
  {
    forall g: nat | from <= g < to
      ensures GroupAnswered(hash, file, es, vertices, bitset, g)
    {
      assert before[32 * g..32 * g + 32] == before[..32 * upTo][32 * g..32 * g + 32];
      assert bitset[32 * g..32 * g + 32] == bitset[..32 * upTo][32 * g..32 * g + 32];
      OtherAnswers(hash, file, es, vertices, before, bitset, g);
    }
  }

  /** Bytes of the bitset before and behind the answered groups are as they were. */
  ghost predicate OnlyBetween(before: seq<bv8>, bitset: seq<bv8>, from: nat, to: nat)
    requires from <= to && 32 * to <= |before|
  {
    |bitset| == |before| && bitset[..32 * from] == before[..32 * from] && bitset[32 * to..] == before[32 * to..]
  }

  /** The chunk of one processor: whole groups, the last processor taking what is left. */
  lemma ChunkOfProcessor(id: nat, processors: nat, c: nat, size: nat, groups: nat)
    requires id < processors && c == groups / processors
    ensures At(id, c, c) == At(id + 1, c, 0) <= groups
    ensures At(id, c * size, 0) == At(At(id, c, 0), size, 0)
    ensures At(At(id, c, 0), size, c * size) == At(At(id, c, c), size, 0) <= At(groups, size, 0)
  {
    MulMonotone(id + 1, processors, c);
    QuotientFits(groups, processors);
    AtAssoc(id, c, 0, size, 0);
    assert (id * c + c) * size == id * c * size + c * size;
    MulMonotone(At(id, c, c), groups, size);
  }

  lemma QuotientFits(n: nat, m: nat)
    requires m > 0
    ensures m * (n / m) <= n
  {
  }

  /** `meta_work::operator()`, one processor after the other. */
  method MetaWork(hash: Hash, ghost file: seq<bv8>, es: nat, vertices: seq<nat>, buf: seq<bv8>, offset: nat,
                  bitset: array<bv8>,
                  processors: nat, ghost first: nat, ghost groups: nat)
    requires es > 0 && Ranged(hash, 8 * es) && |vertices| % 4 == 0 && processors > 0
    requires offset == At(first, SIMD_LEN * es, 0) && |buf| == At(groups, SIMD_LEN * es, 0)
    requires offset + |buf| <= |file| && buf == file[offset..offset + |buf|] && 32 * (first + groups) <= bitset.Length
    modifies bitset
    ensures AnsweredBetween(hash, file, es, vertices, bitset[..], first, first + groups)
    ensures OnlyBetween(old(bitset[..]), bitset[..], first, first + groups)
  {
    var size := SIMD_LEN * es;
    GroupsOfSize(|buf|, size, groups);
    var inBuffer := |buf| / size;
    if inBuffer <= 2 * processors {
      PartitionCallback(hash, file, es, vertices, buf, offset, bitset, first, groups);
    } else {
      var c := inBuffer / processors;
      var chunkSize := c * size;
      var id := 0;
      ghost var done: nat := 0;
      while id < processors
        invariant 0 <= id <= processors && done == (if id == processors then groups else At(id, c, 0)) <= groups
        invariant AnsweredBetween(hash, file, es, vertices, bitset[..], first, first + done)
        invariant OnlyBetween(old(bitset[..]), bitset[..], first, first + groups)
      {
        var from, bytesIn := chunkSize * id, if id != processors - 1 then chunkSize else |buf| - chunkSize * id;
        ghost var mine := ShareOf(id, processors, c, size, groups, |buf|, from, bytesIn);
        Chunk(hash, file, es, vertices, buf, offset, bitset, from, bytesIn, first, groups, done, mine);
        done := done + mine;
        id := id + 1;
      }
    }
  }

  /** The groups of one processor. */
  lemma ShareOf(id: nat, processors: nat, c: nat, size: nat, groups: nat, len: nat, from: nat, bytesIn: int)
    returns (mine: nat)
    requires id < processors && c == groups / processors && len == At(groups, size, 0)
    requires from == c * size * id && bytesIn == if id != processors - 1 then c * size else len - from
    ensures At(id, c, 0) + mine <= groups && from == At(At(id, c, 0), size, 0)
    ensures bytesIn == At(mine, size, 0) && from + bytesIn <= len
    ensures At(id, c, 0) + mine == if id == processors - 1 then groups else At(id + 1, c, 0)
  {
    ChunkOfProcessor(id, processors, c, size, groups);
    assert c * size * id == At(id, c * size, 0);
    if id != processors - 1 {
      mine := c;
    } else {
      mine := groups - At(id, c, 0);
      AtSum(At(id, c, 0), mine, size, 0);
    }
  }

  method Chunk(hash: Hash, ghost file: seq<bv8>, es: nat, vertices: seq<nat>, buf: seq<bv8>, offset: nat,
               bitset: array<bv8>,
               from: nat, bytesIn: nat, ghost first: nat, ghost groups: nat, ghost done: nat, ghost mine: nat)
    requires es > 0 && Ranged(hash, 8 * es) && |vertices| % 4 == 0
    requires offset == At(first, SIMD_LEN * es, 0) && |buf| == At(groups, SIMD_LEN * es, 0)
    requires offset + |buf| <= |file| && buf == file[offset..offset + |buf|] && 32 * (first + groups) <= bitset.Length
    requires done + mine <= groups && from == At(done, SIMD_LEN * es, 0) && bytesIn == At(mine, SIMD_LEN * es, 0) &&
      from + bytesIn <= |buf|
    requires AnsweredBetween(hash, file, es, vertices, bitset[..], first, first + done)
    modifies bitset
    ensures AnsweredBetween(hash, file, es, vertices, bitset[..], first, first + done + mine)
    ensures OnlyBetween(old(bitset[..]), bitset[..], first, first + groups)
  {
    ghost var before := bitset[..];
    AtSum(first, done, SIMD_LEN * es, 0);
    SliceOfSlice(file, offset, offset + |buf|, from, from + bytesIn);
    PartitionCallback(hash, file, es, vertices, buf[from..from + bytesIn], offset + from, bitset, first + done, mine);
    KeepAnswered(hash, file, es, vertices, before, bitset[..], first, first + done, first + done);
    ChunkOnly(before, bitset[..], first, groups, first + done, first + done + mine);
  }

  lemma ChunkOnly(before: seq<bv8>, bitset: seq<bv8>, first: nat, groups: nat, from: nat, to: nat)
    requires first <= from <= to <= first + groups && 32 * (first + groups) <= |before|
    requires OnlyBetween(before, bitset, from, to)
    ensures OnlyBetween(before, bitset, first, first + groups)
  {
    assert bitset[..32 * first] == bitset[..32 * from][..32 * first];
    assert before[..32 * first] == before[..32 * from][..32 * first];
    assert bitset[32 * (first + groups)..] == bitset[32 * to..][32 * (first + groups) - 32 * to..];
    assert before[32 * (first + groups)..] == before[32 * to..][32 * (first + groups) - 32 * to..];
  }

  /** `do_meta_stream`: the filter file in buffers of `perBuffer` groups. */
  method CheckFilters(hash: Hash, file: seq<bv8>, es: nat, vertices: seq<nat>, bitset: array<bv8>, processors: nat,
                      perBuffer: nat,
                      ghost groups: nat)
    requires es > 0 && Ranged(hash, 8 * es) && |vertices| % 4 == 0 && processors > 0 && perBuffer > 0
    requires |file| == At(groups, SIMD_LEN * es, 0) && 32 * groups <= bitset.Length
    modifies bitset
    ensures AnsweredBetween(hash, file, es, vertices, bitset[..], 0, groups)
    ensures bitset[32 * groups..] == old(bitset[..])[32 * groups..]
  {
    var bufBytes := perBuffer * (SIMD_LEN * es);
    var bfOffset := 0;
    ghost var first: nat := 0;
    while bfOffset < |file|
      invariant bfOffset == At(first, SIMD_LEN * es, 0) && first <= groups && bfOffset <= |file|
      invariant AnsweredBetween(hash, file, es, vertices, bitset[..], 0, first)
      invariant bitset[32 * groups..] == old(bitset[..])[32 * groups..]
    {
      var bufsize := if bufBytes <= |file| - bfOffset then bufBytes else |file| - bfOffset;
      ghost var n := BufferGroups(first, groups, perBuffer, SIMD_LEN * es, bufsize);
      ghost var before := bitset[..];
      MetaWork(hash, file, es, vertices, file[bfOffset..bfOffset + bufsize], bfOffset, bitset, processors, first, n);
      KeepAnswered(hash, file, es, vertices, before, bitset[..], 0, first, first);
      assert bitset[32 * groups..] == bitset[32 * (first + n)..][32 * groups - 32 * (first + n)..];
      assert before[32 * groups..] == before[32 * (first + n)..][32 * groups - 32 * (first + n)..];
      bfOffset := bfOffset + bufsize;
      first := first + n;
    }
    AllRead(first, groups, SIMD_LEN * es);
  }

  lemma AllRead(first: nat, groups: nat, size: nat)
    requires size > 0 && first <= groups && At(first, size, 0) >= At(groups, size, 0)
    ensures first == groups
  {
    if first < groups {
      GroupEnd(first, groups, size);
    }
  }

  /** Every buffer holds whole groups, and at least one. */
  lemma BufferGroups(first: nat, groups: nat, perBuffer: nat, size: nat, bufsize: nat) returns (n: nat)
    requires perBuffer > 0 && size > 0 && At(first, size, 0) < At(groups, size, 0) && first <= groups
    requires var left := At(groups, size, 0) - At(first, size, 0);
      bufsize == if perBuffer * size <= left then perBuffer * size else left
    ensures 0 < n && first + n <= groups && bufsize == At(n, size, 0) &&
      At(first + n, size, 0) == At(first, size, 0) + bufsize
    ensures bufsize > 0
  {
    assert (groups - first) * size == groups * size - first * size;
    n := if perBuffer <= groups - first then perBuffer else groups - first;
    if perBuffer <= groups - first {
      MulMonotone(perBuffer, groups - first, size);
    } else {
      MulMonotone(groups - first + 1, perBuffer, size);
      assert (groups - first + 1) * size == (groups - first) * size + size;
    }
    AtSum(first, n, size, 0);
    MulMonotone(1, n, size);
  }

  // ---------- what the bitset says about the pages ----------

  /** Position by position, page q has an edge among `words` hashing there. */
  ghost predicate PageMatches(hash: Hash, words: seq<nat>, bpp: nat, q: nat, p: Positions) {
    && Marked(hash, words, |words|, bpp, q, p.a) && Marked(hash, words, |words|, bpp, q, p.b)
    && Marked(hash, words, |words|, bpp, q, p.c) && Marked(hash, words, |words|, bpp, q, p.d)
  }

  lemma InPageOfGroup(i: nat, bpp: nat, g: nat, p: nat)
    requires p < SIMD_LEN && i >= At(g, SIMD_LEN * bpp, 0)
    ensures InPage(i, bpp, At(g, SIMD_LEN, p)) == InPage(i - At(g, SIMD_LEN * bpp, 0), bpp, p)
  {
    AtAssoc(g, SIMD_LEN, p, bpp, 0);
    AtAssoc(g, SIMD_LEN, p, bpp, bpp);
  }

  /** The edges of a page are found in its group. */
  lemma PageOfEdgeInGroup(i: nat, bpp: nat, g: nat, p: nat)
    requires p < SIMD_LEN && InPage(i, bpp, At(g, SIMD_LEN, p))
    ensures At(g, SIMD_LEN * bpp, 0) <= i < At(g, SIMD_LEN * bpp, SIMD_LEN * bpp)
  {
    AtAssoc(g, SIMD_LEN, p, bpp, 0);
    AtAssoc(g, SIMD_LEN, p, bpp, bpp);
    MulMonotone(p + 1, SIMD_LEN, bpp);
    assert (p + 1) * bpp == p * bpp + bpp;
  }

  lemma MarkedInGroup(hash: Hash, words: seq<nat>, bpp: nat, g: nat, p: nat, h: nat)
    requires p < SIMD_LEN && At(g, SIMD_LEN * bpp, 0) <= |words|
    ensures var mine := GroupWords(words, SIMD_LEN * bpp, g);
      Marked(hash, mine, |mine|, bpp, p, h) == Marked(hash, words, |words|, bpp, At(g, SIMD_LEN, p), h)
  {
    var mine, start := GroupWords(words, SIMD_LEN * bpp, g), At(g, SIMD_LEN * bpp, 0);
    if Marked(hash, mine, |mine|, bpp, p, h) {
      var i: nat :| i < |mine| && InPage(i, bpp, p) && hash(mine[i]).Has(h);
      InPageOfGroup(start + i, bpp, g, p);
      assert mine[i] == words[start + i];
    }
    if Marked(hash, words, |words|, bpp, At(g, SIMD_LEN, p), h) {
      var i: nat :| i < |words| && InPage(i, bpp, At(g, SIMD_LEN, p)) && hash(words[i]).Has(h);
      PageOfEdgeInGroup(i, bpp, g, p);
      InPageOfGroup(i, bpp, g, p);
      assert mine[i - start] == words[i];
    }
  }

  lemma AnswerIsMatch(hash: Hash, words: seq<nat>, bpp: nat, es: nat, file: seq<bv8>, g: nat, p: nat, q: Positions)
    requires GroupStored(hash, words, bpp, es, file, g) && p < SIMD_LEN && q.Below(8 * es)
    ensures Answers(GroupBytes(file, SIMD_LEN * es, g), p, q) == PageMatches(hash, words, bpp, At(g, SIMD_LEN, p), q)
  {
    MarkedInGroup(hash, words, bpp, g, p, q.a);
    MarkedInGroup(hash, words, bpp, g, p, q.b);
    MarkedInGroup(hash, words, bpp, g, p, q.c);
    MarkedInGroup(hash, words, bpp, g, p, q.d);
  }

  /** What the bitset promises for page q, exactly: some queried vertex has all its positions marked there. */
  ghost predicate SomeVertexMatches(hash: Hash, words: seq<nat>, bpp: nat, vertices: seq<nat>, q: nat) {
    exists k: nat :: k < |vertices| && PageMatches(hash, words, bpp, q, hash(vertices[k]))
  }

  /**
   The whole query: after building the index of `words`, bit q of the bitset tells whether page q can hold a queried
   vertex.
   */
  lemma BitsetIsExact(hash: Hash, words: seq<nat>, bpp: nat, es: nat, file: seq<bv8>, groups: nat, vertices: seq<nat>,
                      bitset: seq<bv8>, q: nat)
    requires Ranged(hash, 8 * es) && IsIndex(hash, words, bpp, es, file, groups)
    requires AnsweredBetween(hash, file, es, vertices, bitset, 0, groups) && q < SIMD_LEN * groups
    ensures IsSet(bitset, q) == SomeVertexMatches(hash, words, bpp, vertices, q)
  {
    var g, p := q / SIMD_LEN, q % SIMD_LEN;
    assert GroupStored(hash, words, bpp, es, file, g) && GroupAnswered(hash, file, es, vertices, bitset, g);
    assert q == At(g, SIMD_LEN, p);
    var rows := GroupBytes(file, SIMD_LEN * es, g);
    forall k: nat | k < |vertices|
      ensures Answers(rows, p, hash(vertices[k])) == PageMatches(hash, words, bpp, q, hash(vertices[k]))
    {
      AnswerIsMatch(hash, words, bpp, es, file, g, p, hash(vertices[k]));
    }
  }

  /** A page with an edge whose word is queried matches. */
  lemma QueriedPageMatches(hash: Hash, words: seq<nat>, bpp: nat, q: nat, i: nat)
    requires i < |words| && InPage(i, bpp, q)
    ensures PageMatches(hash, words, bpp, q, hash(words[i]))
  {
    var p := hash(words[i]);
    assert p.Has(p.a) && p.Has(p.b) && p.Has(p.c) && p.Has(p.d);
  }

  /** No page with an edge whose word is queried is missed. */
  lemma QueriedPageIsSet(hash: Hash, words: seq<nat>, bpp: nat, vertices: seq<nat>, q: nat, i: nat, k: nat)
    requires i < |words| && InPage(i, bpp, q) && k < |vertices| && vertices[k] == words[i]
    ensures SomeVertexMatches(hash, words, bpp, vertices, q)
  {
    QueriedPageMatches(hash, words, bpp, q, i);
    assert PageMatches(hash, words, bpp, q, hash(vertices[k]));
  }

  /** No page behind the last edge is set, so no set bit leads past the end of the edge file. */
  lemma SetPageHasEdges(hash: Hash, words: seq<nat>, bpp: nat, vertices: seq<nat>, q: nat)
    requires SomeVertexMatches(hash, words, bpp, vertices, q)
    ensures At(q, bpp, 0) < |words|
  {
  }

  /** The builder and the query hash the same word for an id exactly below 2^31. */
  lemma SameWordIffNarrow(key: nat)
    requires key < 0x1_0000_0000
    ensures QueryWord(key) == key
    ensures BuilderWord(key) % 0x1_0000_0000 == key
    ensures BuilderWord(key) / 0x1_0000_0000 == if key < 0x8000_0000 then 0 else 0xFFFF_FFFF
    ensures BuilderWord(key) == QueryWord(key) <==> key < 0x8000_0000
  {
  }

  /** The positions for a given CRC, as a function of the word alone. */
  function HashOf(crc: Crc, bits: nat): Hash
    requires bits > 0
  {
    (w: nat) => HashPositions(crc, w, bits)
  }

  /** A CRC that sets the given words apart from all others. */
  function Telltale(queried: nat -> bool): Crc {
    (seed: nat, w: nat) => if queried(w) then 0x1_0001 else 0
  }

  lemma LowestBit(x: nat)
    requires x > 0 && x % 2 == 1
    ensures And(1, x) == 1 && And(0, x) == 0
  {
    assert And(0, x / 2) == 0;
  }

  /** Both halves of the masked word are the half it was made of. */
  lemma TelltaleWord(es: nat, word: nat, half: nat)
    requires 0 < es <= 0x2000 && half < 2 && word == 0x1_0001 * half
    ensures And(And(word, TwoMask(8 * es)), 0xFFFF) == half && Shr(And(word, TwoMask(8 * es)), 16) == half
  {
    Pow2Of16();
    ShlTimes(half, 16);
    HalvesOfMasked(word, 8 * es, half, half);
    LowestBit(8 * es - 1);
  }

  lemma TelltalePositions(queried: nat -> bool, w: nat, es: nat)
    requires 0 < es <= 0x2000
    ensures HashOf(Telltale(queried), 8 * es)(w) == if queried(w) then Positions(1, 1, 1, 1) else Positions(0, 0, 0, 0)
  {
    if queried(w) {
      TelltaleWord(es, 0x1_0001, 1);
    } else {
      TelltaleWord(es, 0, 0);
    }
  }

  /** Page q has an edge whose stored word is queried. */
  ghost predicate SharesWord(words: seq<nat>, bpp: nat, queried: nat -> bool, q: nat) {
    exists i: nat :: i < |words| && InPage(i, bpp, q) && queried(words[i])
  }

  /** With the telltale CRC the filters give the exact answer: only pages with a queried word match. */
  lemma TelltaleIsExact(words: seq<nat>, bpp: nat, es: nat, queried: nat -> bool, v: nat, q: nat)
    requires 0 < es <= 0x2000 && queried(v)
    ensures var hash := HashOf(Telltale(queried), 8 * es);
      PageMatches(hash, words, bpp, q, hash(v)) <==> SharesWord(words, bpp, queried, q)
  {
    var hash := HashOf(Telltale(queried), 8 * es);
    TelltalePositions(queried, v, es);
    if PageMatches(hash, words, bpp, q, hash(v)) {
      var i: nat :| i < |words| && InPage(i, bpp, q) && hash(words[i]).Has(1);
      TelltalePositions(queried, words[i], es);
    }
    if SharesWord(words, bpp, queried, q) {
      var i: nat :| i < |words| && InPage(i, bpp, q) && queried(words[i]);
      TelltalePositions(queried, words[i], es);
      assert hash(words[i]).Has(1);
    }
  }
}
