/**
 The scatter phase of one superstep: the active vertices are looked up in the filter index, only the pages that can
 hold one of their edges are streamed, and the updates are those of the full scan
 (core/sg_driver.hpp 788-872, 1088-1113, algorithms/bfs/bfs.hpp 107-151).
 */
module FilteredScatter {
  import opened Bitshuffle
  import opened BitshufflePasses
  import opened BitshuffleBlocks
  import opened BloomHash
  import opened BloomFilters
  import opened BloomIndex
  import opened BloomQuery
  import opened PageReader

  // ---------- edges, vertices and updates ----------

  /** The key of an edge that was deleted in place, and the parent of a vertex that was not reached: all ones. */
  const NONE: nat := 0xFFFF_FFFF

  datatype Edge = Edge(src: nat, dst: nat)

  /** A bfs_update. */
  datatype Update = Update(parent: nat, child: nat)

  /** A bfs_vertex. */
  datatype Vertex = Vertex(parent: nat, phase: nat, changed: bool)

  /** `check_bsp`: reached in this phase. */
  predicate Active(state: seq<Vertex>, phase: nat, v: nat) {
    v < |state| && state[v].parent != NONE && state[v].phase == phase
  }

  predicate Emits(state: seq<Vertex>, phase: nat, e: Edge) {
    e.src != NONE && Active(state, phase, e.src)
  }

  /** The update of one edge, if it emits one. */
  ghost function UpdateOf(state: seq<Vertex>, phase: nat, e: Edge): multiset<Update> {
    if Emits(state, phase, e) then multiset{Update(e.src, e.dst)} else multiset{}
  }

  /** The updates of all edges, order aside: what the full scan emits. */
  ghost function Emitted(state: seq<Vertex>, phase: nat, edges: seq<Edge>): multiset<Update> {
    if edges == [] then multiset{}
    else Emitted(state, phase, edges[..|edges| - 1]) + UpdateOf(state, phase, edges[|edges| - 1])
  }

  /** The updates of the edges whose sources lie in the given partitions. */
  ghost function EmittedIn(state: seq<Vertex>, phase: nat, part: nat -> nat, partitions: set<nat>,
                           edges: seq<Edge>): multiset<Update> {
    if edges == [] then multiset{}
    else
      var last := edges[|edges| - 1];
      EmittedIn(state, phase, part, partitions, edges[..|edges| - 1]) +
      if part(last.src) in partitions then UpdateOf(state, phase, last) else multiset{}
  }

  lemma {:induction false} EmittedAppend(state: seq<Vertex>, phase: nat, a: seq<Edge>, b: seq<Edge>)
    ensures Emitted(state, phase, a + b) == Emitted(state, phase, a) + Emitted(state, phase, b)
  {
    if b == [] {
      assert a + b == a;
    } else {
      assert (a + b)[..|a + b| - 1] == a + b[..|b| - 1];
      EmittedAppend(state, phase, a, b[..|b| - 1]);
    }
  }

  lemma {:induction false} NothingEmitted(state: seq<Vertex>, phase: nat, edges: seq<Edge>)
    requires forall i: nat :: i < |edges| ==> !Emits(state, phase, edges[i])
    ensures Emitted(state, phase, edges) == multiset{}
  {
    if edges != [] {
      NothingEmitted(state, phase, edges[..|edges| - 1]);
    }
  }

  /** Every active vertex lies in a partition that was queued. */
  ghost predicate QueuedCover(state: seq<Vertex>, phase: nat, part: nat -> nat, partitions: set<nat>) {
    forall v: nat :: Active(state, phase, v) ==> part(v) in partitions
  }

  /** Skipping the partitions without an active vertex loses nothing. */
  lemma {:induction false} SkippingLosesNothing(state: seq<Vertex>, phase: nat, part: nat -> nat, partitions: set<nat>,
                                                edges: seq<Edge>)
    requires QueuedCover(state, phase, part, partitions)
    ensures EmittedIn(state, phase, part, partitions, edges) == Emitted(state, phase, edges)
  {
    if edges != [] {
      SkippingLosesNothing(state, phase, part, partitions, edges[..|edges| - 1]);
    }
  }

  lemma {:induction false} OneMorePartition(state: seq<Vertex>, phase: nat, part: nat -> nat, done: set<nat>, p: nat,
                                            edges: seq<Edge>)
    requires p !in done
    ensures EmittedIn(state, phase, part, done + {p}, edges) ==
      EmittedIn(state, phase, part, done, edges) + EmittedIn(state, phase, part, {p}, edges)
  {
    if edges != [] {
      OneMorePartition(state, phase, part, done, p, edges[..|edges| - 1]);
    }
  }

  lemma {:induction false} NoPartition(state: seq<Vertex>, phase: nat, part: nat -> nat, edges: seq<Edge>)
    ensures EmittedIn(state, phase, part, {}, edges) == multiset{}
  {
    if edges != [] {
      NoPartition(state, phase, part, edges[..|edges| - 1]);
    }
  }

  /** `append_buffer`. */
  method AppendUpdates(out: seq<Update>, more: seq<Update>) returns (r: seq<Update>)
    ensures multiset(r) == multiset(out) + multiset(more)
  {
    r := out + more;
  }

  /** `partition_callback` in `phase_scatter`, over the edges of one partition. */
  method ScatterPartition(state: seq<Vertex>, phase: nat, part: nat -> nat, p: nat, edges: seq<Edge>)
    returns (out: seq<Update>)
    ensures multiset(out) == EmittedIn(state, phase, part, {p}, edges)
  {
    out := [];
    var i := 0;
    while i < |edges|
      invariant 0 <= i <= |edges|
      invariant multiset(out) == EmittedIn(state, phase, part, {p}, edges[..i])
    {
      assert edges[..i + 1][..i] == edges[..i];
      if part(edges[i].src) == p && edges[i].src != NONE {
        if Active(state, phase, edges[i].src) {
          out := AppendUpdates(out, [Update(edges[i].src, edges[i].dst)]);
        }
      }
      i := i + 1;
    }
    assert edges[..i] == edges;
  }

  /**
   One buffer of edges: the queued partitions one after the other, in whatever order the work queue hands them out.
   */
  method ScatterBuffer(state: seq<Vertex>, phase: nat, part: nat -> nat, queued: set<nat>, edges: seq<Edge>)
    returns (out: seq<Update>)
    requires QueuedCover(state, phase, part, queued)
    ensures multiset(out) == Emitted(state, phase, edges)
  {
    out := [];
    var todo := queued;
    NoPartition(state, phase, part, edges);
    assert queued - todo == {};
    while todo != {}
      invariant todo <= queued
      invariant multiset(out) == EmittedIn(state, phase, part, queued - todo, edges)
      decreases |todo|
    {
      var p :| p in todo;
      var more := ScatterPartition(state, phase, part, p, edges);
      OneMorePartition(state, phase, part, queued - todo, p, edges);
      assert queued - (todo - {p}) == queued - todo + {p};
      todo := todo - {p};
      out := AppendUpdates(out, more);
    }
    assert queued - todo == queued;
    SkippingLosesNothing(state, phase, part, queued, edges);
  }

  // ---------- streaming only the set pages ----------

  /** Every page with an edge that emits an update is set. */
  ghost predicate Covers(state: seq<Vertex>, phase: nat, edges: seq<Edge>, bpp: nat, flags: seq<bool>) {
    forall i: nat, p: nat :: i < |edges| && Emits(state, phase, edges[i]) && Start(bpp, p) <= i < Start(bpp, p + 1) ==>
      p < |flags| && flags[p]
  }

  /** Page by page from the last to page p: unset pages emit nothing, so the set pages emit what all pages emit. */
  lemma {:induction false} PageByPage(page: nat -> multiset<Update>, set': nat -> multiset<Update>,
                                      all: nat -> multiset<Update>,
                                      flags: seq<bool>, p: nat)
    requires p <= |flags| && set'(|flags|) == all(|flags|)
    requires forall q: nat :: q < |flags| ==> all(q) == page(q) + all(q + 1)
    requires forall q: nat :: q < |flags| ==> set'(q) == (if flags[q] then page(q) else multiset{}) + set'(q + 1)
    requires forall q: nat :: q < |flags| && !flags[q] ==> page(q) == multiset{}
    ensures set'(p) == all(p)
    decreases |flags| - p
  {
    if p < |flags| {
      PageByPage(page, set', all, flags, p + 1);
    }
  }

  /** The edges from page p on are page p and the edges from page p + 1 on. */
  lemma PageAndRest(state: seq<Vertex>, phase: nat, edges: seq<Edge>, bpp: nat, p: nat)
    ensures Emitted(state, phase, edges[Clamp(|edges|, Start(bpp, p))..]) ==
      Emitted(state, phase, Stretch(edges, bpp, p, 1)) + Emitted(state, phase,
        edges[Clamp(|edges|, Start(bpp, p + 1))..])
  {
    StartSum(bpp, p, 1);
    EmittedSuffix(state, phase, edges, Clamp(|edges|, Start(bpp, p)), Clamp(|edges|, Start(bpp, p + 1)));
  }

  lemma EmittedSuffix(state: seq<Vertex>, phase: nat, edges: seq<Edge>, a: nat, mid: nat)
    requires a <= mid <= |edges|
    ensures Emitted(state, phase, edges[a..]) ==
      Emitted(state, phase, edges[a..mid]) + Emitted(state, phase, edges[mid..])
  {
    assert edges[a..mid] + edges[mid..] == edges[a..];
    EmittedAppend(state, phase, edges[a..mid], edges[mid..]);
  }

  lemma SetPageAndRest(state: seq<Vertex>, phase: nat, edges: seq<Edge>, bpp: nat, flags: seq<bool>, p: nat)
    requires p < |flags|
    ensures Emitted(state, phase, Selected(edges, bpp, flags, p)) ==
      (if flags[p] then Emitted(state, phase, Stretch(edges, bpp, p, 1))
        else multiset{}) + Emitted(state, phase, Selected(edges, bpp, flags, p + 1))
  {
    if flags[p] {
      EmittedAppend(state, phase, Stretch(edges, bpp, p, 1), Selected(edges, bpp, flags, p + 1));
    }
  }

  /** The set pages emit what the whole file emits. */
  lemma SetPagesSuffice(state: seq<Vertex>, phase: nat, edges: seq<Edge>, bpp: nat, flags: seq<bool>)
    requires |edges| <= Start(bpp, |flags|) && Covers(state, phase, edges, bpp, flags)
    ensures Emitted(state, phase, Selected(edges, bpp, flags, 0)) == Emitted(state, phase, edges)
  {
    var page := (q: nat) => Emitted(state, phase, Stretch(edges, bpp, q, 1));
    var set' := (q: nat) => Emitted(state, phase, Selected(edges, bpp, flags, q));
    var all := (q: nat) => Emitted(state, phase, edges[Clamp(|edges|, Start(bpp, q))..]);
    forall q: nat | q < |flags|
      ensures all(q) == page(q) + all(q + 1)
      ensures set'(q) == (if flags[q] then page(q) else multiset{}) + set'(q + 1)
      ensures !flags[q] ==> page(q) == multiset{}
    {
      PageAndRest(state, phase, edges, bpp, q);
      SetPageAndRest(state, phase, edges, bpp, flags, q);
      if !flags[q] {
        UnsetPageEmitsNothing(state, phase, edges, bpp, flags, q);
      }
    }
    assert edges[Clamp(|edges|, Start(bpp, |flags|))..] == [];
    PageByPage(page, set', all, flags, 0);
    assert edges[Clamp(|edges|, Start(bpp, 0))..] == edges;
  }

  lemma EmittedPrefix(state: seq<Vertex>, phase: nat, edges: seq<Edge>, pos: nat, end: nat)
    requires pos <= end <= |edges|
    ensures Emitted(state, phase, edges[..end]) ==
      Emitted(state, phase, edges[..pos]) + Emitted(state, phase, edges[pos..end])
  {
    var a, b, c := edges[..pos], edges[pos..end], edges[..end];
    assert a + b == c;
    EmittedAppend(state, phase, a, b);
  }

  lemma UnsetPageEmitsNothing(state: seq<Vertex>, phase: nat, edges: seq<Edge>, bpp: nat, flags: seq<bool>, p: nat)
    requires p < |flags| && !flags[p] && Covers(state, phase, edges, bpp, flags)
    ensures Emitted(state, phase, Stretch(edges, bpp, p, 1)) == multiset{}
  {
    var page := Stretch(edges, bpp, p, 1);
    forall i: nat | i < |page|
      ensures !Emits(state, phase, page[i])
    {
      assert page[i] == edges[Start(bpp, p) + i];
      assert Start(bpp, p) <= Start(bpp, p) + i < Start(bpp, p + 1);
    }
    NothingEmitted(state, phase, page);
  }

  // ---------- the query list ----------

  ghost predicate Listed(members: seq<seq<nat>>, v: nat) {
    exists j: nat, k: nat :: j < |members| && k < |members[j]| && members[j][k] == v
  }

  /** The vertex ids of each partition, together all ids. */
  ghost predicate AllVertices(members: seq<seq<nat>>, n: nat) {
    && (forall j: nat, k: nat :: j < |members| && k < |members[j]| ==> members[j][k] < n)
    && forall v: nat :: v < n ==> Listed(members, v)
  }

  /** How many of the ids are active: `BF_vertex_nr` of one partition. */
  ghost function ActiveIn(state: seq<Vertex>, phase: nat, ids: seq<nat>): nat {
    if ids == [] then 0
    else ActiveIn(state, phase, ids[..|ids| - 1]) + if Active(state, phase, ids[|ids| - 1]) then 1 else 0
  }

  /** `all_BF_cnt`. */
  ghost function ActiveCount(state: seq<Vertex>, phase: nat, members: seq<seq<nat>>): nat {
    if members == [] then 0
    else ActiveCount(state, phase, members[..|members| - 1]) + ActiveIn(state, phase, members[|members| - 1])
  }

  /** `state_iter_callback` in the two BF_checking phases: the active vertices, partition by partition. */
  method CollectActive(state: seq<Vertex>, phase: nat, members: seq<seq<nat>>) returns (found: seq<nat>)
    requires AllVertices(members, |state|)
    ensures forall v: nat :: v in found <==> Active(state, phase, v)
    ensures |found| == ActiveCount(state, phase, members)
  {
    found := [];
    var j := 0;
    while j < |members|
      invariant 0 <= j <= |members| && |found| == ActiveCount(state, phase, members[..j])
      invariant forall v: nat :: v in found ==> Active(state, phase, v)
      invariant forall i: nat, k: nat :: i < j && k < |members[i]| && Active(state, phase, members[i][k]) ==>
        members[i][k] in found
    {
      found := CollectPartition(state, phase, members[j], found);
      assert members[..j + 1][..j] == members[..j];
      j := j + 1;
    }
    assert members[..j] == members;
    forall v: nat | Active(state, phase, v)
      ensures v in found
    {
      assert Listed(members, v);
      var i: nat, k: nat :| i < |members| && k < |members[i]| && members[i][k] == v;
    }
  }

  method CollectPartition(state: seq<Vertex>, phase: nat, ids: seq<nat>, before: seq<nat>) returns (found: seq<nat>)
    requires forall v: nat :: v in before ==> Active(state, phase, v)
    ensures forall v: nat :: v in before ==> v in found
    ensures forall v: nat :: v in found ==> Active(state, phase, v)
    ensures forall k: nat :: k < |ids| && Active(state, phase, ids[k]) ==> ids[k] in found
    ensures |found| == |before| + ActiveIn(state, phase, ids)
  {
    found := before;
    var k := 0;
    while k < |ids|
      invariant 0 <= k <= |ids| && |found| == |before| + ActiveIn(state, phase, ids[..k])
      invariant forall v: nat :: v in before ==> v in found
      invariant forall v: nat :: v in found ==> Active(state, phase, v)
      invariant forall i: nat :: i < k && Active(state, phase, ids[i]) ==> ids[i] in found
    {
      if Active(state, phase, ids[k]) {
        found := found + [ids[k]];
      }
      assert ids[..k + 1][..k] == ids[..k];
      k := k + 1;
    }
    assert ids[..k] == ids;
  }

  function Padded(cnt: nat, chip: nat): nat
    requires chip > 0
  {
    if cnt % chip == 0 then cnt else (cnt / chip + 1) * chip
  }

  /** The list is padded with its last entry to a multiple of `chip_v_once`. */
  method Pad(found: seq<nat>, chip: nat) returns (padded: seq<nat>)
    requires chip > 0
    ensures |padded| == Padded(|found|, chip) && |padded| % chip == 0 && |found| <= |padded| < |found| + chip
    ensures forall v: nat :: v in padded <==> v in found
  {
    PaddedIsMultiple(|found|, chip);
    if |found| % chip != 0 {
      padded := PadTo(found, (|found| / chip + 1) * chip);
    } else {
      padded := found;
    }
  }

  method PadTo(found: seq<nat>, newCnt: nat) returns (padded: seq<nat>)
    requires |found| <= newCnt && (found == [] ==> newCnt == 0)
    ensures |padded| == newCnt && forall v: nat :: v in padded <==> v in found
  {
    padded := found;
    while |padded| < newCnt
      invariant |found| <= |padded| <= newCnt
      invariant forall v: nat :: v in padded <==> v in found
    {
      padded := padded + [found[|found| - 1]];
    }
  }

  lemma PaddedIsMultiple(n: nat, m: nat)
    requires m > 0
    ensures n <= Padded(n, m) < n + m && Padded(n, m) % m == 0
  {
    NextMultiple(n, m);
  }

  lemma NextMultiple(n: nat, m: nat)
    requires m > 0
    ensures n <= (n / m + 1) * m <= n + m - n % m && ((n / m + 1) * m) % m == 0
  {
    var q := n / m;
    assert n == q * m + n % m;
    assert (q + 1) * m == q * m + m;
    MultipleHasNoRest(q + 1, m);
  }

  lemma MultipleHasNoRest(q: nat, m: nat)
    requires m > 0
    ensures (q * m) % m == 0
  {
    var n := q * m;
    AtInjective(q, 0, n / m, n % m, m);
  }

  // ---------- the scatter phase ----------

  /** The words the builder hashed for these edges. */
  function Words(built: seq<Edge>): seq<nat>
    requires forall i: nat :: i < |built| ==> built[i].src < 0x1_0000_0000
  {
    seq(|built|, i requires 0 <= i < |built| => BuilderWord(built[i].src))
  }

  /** Edges may have been tombstoned in place since the filters were built. */
  ghost predicate TombstonedFrom(edges: seq<Edge>, built: seq<Edge>) {
    |edges| == |built| && forall i: nat :: i < |edges| ==> edges[i] == built[i] || edges[i].src == NONE
  }

  /** Everything about the files and options that does not change during a run. */
  datatype Setup = Setup(crc: Crc, es: nat, bpp: nat, filters: seq<bv8>, processors: nat, groupsPerBuffer: nat,
                         chip: nat, maxCheck: nat,
                         pagesPerBuffer: nat, requests: nat, part: nat -> nat, members: seq<seq<nat>>)

  function SetupHash(s: Setup): Hash
    requires s.es > 0
  {
    HashOf(s.crc, 8 * s.es)
  }

  /** The index belongs to the edges as they were when it was built, and the options are those the code insists on. */
  ghost predicate Usable(s: Setup, edges: seq<Edge>, built: seq<Edge>, n: nat, groups: nat) {
    && 4 <= s.es <= 0x2000 && s.bpp > 0 && s.processors > 0 && s.groupsPerBuffer > 0
    && s.chip > 0 && s.chip % 4 == 0 && s.pagesPerBuffer > 0 && s.requests > 0
    && |edges| > 0 && TombstonedFrom(edges, built) && (forall i: nat :: i < |built| ==> built[i].src < 0x1_0000_0000)
    && IsIndex(SetupHash(s), Words(built), s.bpp, s.es, s.filters, groups)
    && AllVertices(s.members, n) && n <= 0x1_0000_0000
  }

  /** All ids in the index lie below 2^31. */
  ghost predicate Narrow(built: seq<Edge>) {
    forall i: nat :: i < |built| ==> built[i].src < 0x8000_0000
  }

  ghost predicate Ready(s: Setup, edges: seq<Edge>, built: seq<Edge>, n: nat, groups: nat) {
    Usable(s, edges, built, n, groups) && Narrow(built)
  }

  lemma HashInRange(s: Setup)
    requires 4 <= s.es <= 0x2000
    ensures Ranged(SetupHash(s), 8 * s.es)
  {
    forall w: nat
      ensures SetupHash(s)(w).Below(8 * s.es)
    {
      PositionsBelow(s.crc, w, 8 * s.es);
    }
  }

  /** `BF_bitset.resize(...)`. */
  function BitsetSize(edges: nat, bpp: nat): nat
    requires bpp > 0
  {
    (edges / bpp + 1) / 8 + 512
  }

  lemma BitsetLargeEnough(edges: nat, bpp: nat, groups: nat)
    requires bpp > 0 && Enough(edges, SIMD_LEN * bpp, groups)
    ensures 32 * groups <= BitsetSize(edges, bpp)
  {
    if groups > 0 {
      var pages := edges / bpp;
      AtAssoc(groups - 1, SIMD_LEN, 0, bpp, 0);
      if pages < At(groups - 1, SIMD_LEN, 0) {
        MulMonotone(pages + 1, At(groups - 1, SIMD_LEN, 0), bpp);
        assert (pages + 1) * bpp == pages * bpp + bpp;
      }
    }
  }

  /** The bits after the query: page 0, and every page some queried vertex matches. */
  ghost predicate QueryBits(s: Setup, words: seq<nat>, vertices: seq<nat>, groups: nat, bits: seq<bv8>)
    requires s.es > 0
  {
    && 32 * groups <= |bits|
    && forall q: nat :: q < 8 * |bits| ==>
      IsSet(bits, q) ==
        (q == 0 || (q < SIMD_LEN * groups && SomeVertexMatches(SetupHash(s), words, s.bpp, vertices, q)))
  }

  /** Clear the bitset, query all filters, and set bit 0. */
  method QueryIndex(s: Setup, ghost words: seq<nat>, size: nat, vertices: seq<nat>, ghost groups: nat)
    returns (bitset: array<bv8>)
    requires 4 <= s.es <= 0x2000 && s.processors > 0 && s.groupsPerBuffer > 0
    requires |vertices| % 4 == 0 && 0 < size && 32 * groups <= size
    requires IsIndex(SetupHash(s), words, s.bpp, s.es, s.filters, groups)
    ensures fresh(bitset) && bitset.Length == size && QueryBits(s, words, vertices, groups, bitset[..])
  {
    HashInRange(s);
    bitset := new bv8[size];
    var i := 0;
    while i < size
      invariant 0 <= i <= size && forall k :: 0 <= k < i ==> bitset[k] == ZeroByte()
    {
      bitset[i] := ZeroByte();
      i := i + 1;
    }
    ghost var cleared := bitset[..];
    CheckFilters(SetupHash(s), s.filters, s.es, vertices, bitset, s.processors, s.groupsPerBuffer, groups);
    ghost var before := bitset[..];
    bitset[0] := WithBit(bitset[0], 0);
    forall q: nat | q < 8 * size
      ensures IsSet(bitset[..], q) ==
        (q == 0 || (q < SIMD_LEN * groups && SomeVertexMatches(SetupHash(s), words, s.bpp, vertices, q)))
    {
      assert IsSet(bitset[..], q) == (IsSet(before, q) || q == 0);
      if q < SIMD_LEN * groups {
        BitsetIsExact(SetupHash(s), words, s.bpp, s.es, s.filters, groups, vertices, before, q);
      } else {
        assert before[q / 8] == before[32 * groups..][q / 8 - 32 * groups] ==
          cleared[32 * groups..][q / 8 - 32 * groups] == ZeroByte();
      }
    }
  }

  /** Page p as the index counts it is page p as the reader counts it. */
  lemma PageOfEdge(i: nat, bpp: nat, p: nat)
    ensures InPage(i, bpp, p) <==> Start(bpp, p) <= i < Start(bpp, p + 1)
  {
    StartIsProduct(bpp, p);
  }

  lemma PageBelow(i: nat, edges: nat, bpp: nat, p: nat, groups: nat)
    requires Enough(edges, SIMD_LEN * bpp, groups) && i < edges && Start(bpp, p) <= i
    ensures p < SIMD_LEN * groups
  {
    AtAssoc(groups, SIMD_LEN, 0, bpp, 0);
    StartIsProduct(bpp, SIMD_LEN * groups);
    if p >= SIMD_LEN * groups {
      StartMonotone(bpp, SIMD_LEN * groups, p);
    }
  }

  /** The filter of page q cannot tell that the page holds no edge of an active vertex. */
  ghost predicate Suspected(s: Setup, state: seq<Vertex>, phase: nat, words: seq<nat>, q: nat)
    requires s.es > 0
  {
    exists v: nat :: Active(state, phase, v) && PageMatches(SetupHash(s), words, s.bpp, q, SetupHash(s)(v))
  }

  ghost predicate PageRead(s: Setup, state: seq<Vertex>, phase: nat, words: seq<nat>, q: nat)
    requires s.es > 0
  {
    q == 0 || Suspected(s, state, phase, words, q)
  }

  /** What becomes of each of the first pages in a filtered scatter. */
  ghost function ReadFlags(s: Setup, state: seq<Vertex>, phase: nat, words: seq<nat>, pages: nat): (flags: seq<bool>)
    requires s.es > 0
    ensures |flags| == pages && forall q: nat :: q < pages ==> flags[q] == PageRead(s, state, phase, words, q)
  {
    if pages == 0 then []
    else ReadFlags(s, state, phase, words, pages - 1) + [PageRead(s, state, phase, words, pages - 1)]
  }

  /** The edges streamed by a filtered scatter. */
  ghost function ReadEdges(s: Setup, state: seq<Vertex>, phase: nat, edges: seq<Edge>, built: seq<Edge>): seq<Edge>
    requires s.es > 0 && s.bpp > 0 && forall i: nat :: i < |built| ==> built[i].src < 0x1_0000_0000
  {
    var flags := ReadFlags(s, state, phase, Words(built), 8 * BitsetSize(|edges|, s.bpp));
    Selected(edges, s.bpp, flags, 0)
  }

  /** Whether a scatter is filtered: few enough active vertices, also after padding. */
  ghost predicate IsFiltered(s: Setup, state: seq<Vertex>, phase: nat)
    requires s.chip > 0
  {
    s.maxCheck > 1 && Padded(ActiveCount(state, phase, s.members), s.chip) < s.maxCheck
  }

  /** Each vertex is dealt to one partition, once. */
  ghost predicate DealtOnce(members: seq<seq<nat>>) {
    forall i: nat, k: nat, j: nat, l: nat ::
      i < |members| && k < |members[i]| && j < |members| && l < |members[j]| && members[i][k] == members[j][l] ==>
        i == j && k == l
  }

  ghost predicate Distinct(ids: seq<nat>) {
    forall k: nat, l: nat :: k < l < |ids| ==> ids[k] != ids[l]
  }

  /** The active vertices of one partition. */
  ghost function ActiveSet(state: seq<Vertex>, phase: nat, ids: seq<nat>): set<nat> {
    set v | v in ids && Active(state, phase, v)
  }

  lemma {:induction false} ActiveInIsSize(state: seq<Vertex>, phase: nat, ids: seq<nat>)
    requires Distinct(ids)
    ensures ActiveIn(state, phase, ids) == |ActiveSet(state, phase, ids)|
  {
    if ids != [] {
      var before, last := ids[..|ids| - 1], ids[|ids| - 1];
      ActiveInIsSize(state, phase, before);
      assert last !in before;
      assert ids == before + [last];
      assert ActiveSet(state, phase, ids) ==
        ActiveSet(state, phase, before) + if Active(state, phase, last) then {last} else {};
    }
  }

  /** The active vertices of all partitions. */
  ghost function ListedActive(state: seq<Vertex>, phase: nat, members: seq<seq<nat>>): set<nat>
  {
    set v: nat | v < |state| && Active(state, phase, v) && Listed(members, v)
  }

  lemma {:induction false} ActiveCountIsSize(state: seq<Vertex>, phase: nat, members: seq<seq<nat>>)
    requires DealtOnce(members)
    ensures ActiveCount(state, phase, members) == |ListedActive(state, phase, members)|
  {
    if members == [] {
      assert ListedActive(state, phase, members) == {};
    } else {
      var n := |members| - 1;
      var before, last := members[..n], members[n];
      ActiveCountIsSize(state, phase, before);
      ActiveInIsSize(state, phase, last);
      LastIsApart(members, before, last);
      var a, b := ListedActive(state, phase, before), ActiveSet(state, phase, last);
      assert ListedActive(state, phase, members) == a + b;
      assert a !! b;
    }
  }

  lemma LastIsApart(members: seq<seq<nat>>, before: seq<seq<nat>>, last: seq<nat>)
    requires DealtOnce(members) && members == before + [last]
    ensures forall v: nat :: Listed(members, v) <==> Listed(before, v) || v in last
    ensures forall v: nat :: v in last ==> !Listed(before, v)
  {
    var n := |before|;
    forall v: nat
      ensures Listed(members, v) <==> Listed(before, v) || v in last
      ensures v in last ==> !Listed(before, v)
    {
      if j: nat, k: nat :| j < n && k < |before[j]| && before[j][k] == v {
        assert members[j][k] == v;
      }
      if k: nat :| k < |last| && last[k] == v {
        assert members[n][k] == v;
      }
      if j: nat, k: nat :| j < n && k < |members[j]| && members[j][k] == v {
        assert before[j][k] == v;
      }
    }
  }

  /**
   A scatter is filtered exactly when a multiple of the padding unit lies between the number of active vertices and the
   limit, which must be above 1.
   */
  lemma FilteredIff(s: Setup, state: seq<Vertex>, phase: nat)
    requires s.chip > 0 && AllVertices(s.members, |state|) && DealtOnce(s.members)
    ensures var active := |set v: nat | v < |state| && Active(state, phase, v)|;
      IsFiltered(s, state, phase) <==>
        s.maxCheck > 1 && exists padded: nat :: padded % s.chip == 0 && active <= padded < s.maxCheck
  {
    ActiveCountIsSize(state, phase, s.members);
    assert (set v: nat | v < |state| && Active(state, phase, v)) == ListedActive(state, phase, s.members);
    var active := ActiveCount(state, phase, s.members);
    PaddedIsMultiple(active, s.chip);
    forall padded: nat | padded % s.chip == 0 && active <= padded
      ensures Padded(active, s.chip) <= padded
    {
      LeastMultiple(active, s.chip, padded);
    }
  }

  lemma LeastMultiple(n: nat, m: nat, k: nat)
    requires m > 0 && k % m == 0 && n <= k
    ensures Padded(n, m) <= k
  {
    var p := Padded(n, m);
    PaddedIsMultiple(n, m);
    if k < p {
      MultiplesApart(k, p, m, k / m, p / m);
    }
  }

  lemma MultiplesApart(x: nat, y: nat, m: nat, a: nat, b: nat)
    requires m > 0 && x % m == 0 && y % m == 0 && a == x / m && b == y / m && x < y
    ensures x + m <= y
  {
    assert x == a * m && y == b * m;
    MultiplesOrdered(a, b, m);
  }

  lemma MultiplesOrdered(a: nat, b: nat, m: nat)
    requires a * m < b * m
    ensures a * m + m <= b * m
  {
    if b <= a {
      MulMonotone(b, a, m);
    } else {
      MulMonotone(a + 1, b, m);
      assert (a + 1) * m == a * m + m;
    }
  }

  ghost function Streamed(s: Setup, state: seq<Vertex>, phase: nat, edges: seq<Edge>, built: seq<Edge>): seq<Edge>
    requires s.es > 0 && s.bpp > 0 && s.chip > 0 && forall i: nat :: i < |built| ==> built[i].src < 0x1_0000_0000
  {
    if IsFiltered(s, state, phase) then ReadEdges(s, state, phase, edges, built) else edges
  }

  lemma PageOfEdgeExists(i: nat, bpp: nat) returns (q: nat)
    requires bpp > 0
    ensures Start(bpp, q) <= i < Start(bpp, q + 1)
  {
    q := i / bpp;
    StartIsProduct(bpp, q);
  }

  /** A page that the filters suspect holds an edge, and so is covered by the bitset. */
  lemma SuspectedBelow(s: Setup, state: seq<Vertex>, phase: nat, edges: seq<Edge>, built: seq<Edge>, groups: nat,
                       q: nat)
    requires Usable(s, edges, built, |state|, groups) && Suspected(s, state, phase, Words(built), q)
    ensures q < SIMD_LEN * groups && Start(s.bpp, q) < |edges|
  {
    var v: nat :| Active(state, phase, v) && PageMatches(SetupHash(s), Words(built), s.bpp, q, SetupHash(s)(v));
    StartIsProduct(s.bpp, q);
    PageBelow(Start(s.bpp, q), |edges|, s.bpp, q, groups);
  }

  /** The bits after the query say of every page whether it is read. */
  lemma BitsAreReadFlags(s: Setup, state: seq<Vertex>, phase: nat, edges: seq<Edge>, built: seq<Edge>,
                         vertices: seq<nat>, groups: nat,
                         bits: seq<bv8>)
    requires Usable(s, edges, built, |state|, groups) && QueryBits(s, Words(built), vertices, groups, bits)
    requires |bits| == BitsetSize(|edges|, s.bpp)
    requires forall v: nat :: v in vertices <==> Active(state, phase, v)
    ensures Flags(bits) == ReadFlags(s, state, phase, Words(built), 8 * |bits|)
  {
    var flags, words := Flags(bits), Words(built);
    FlagsAreBits(bits);
    forall q: nat | q < |flags|
      ensures flags[q] == PageRead(s, state, phase, words, q)
    {
      assert flags[q] == IsSet(bits, q);
      if SomeVertexMatches(SetupHash(s), words, s.bpp, vertices, q) {
        var k: nat :| k < |vertices| && PageMatches(SetupHash(s), words, s.bpp, q, SetupHash(s)(vertices[k]));
        assert vertices[k] in vertices;
      }
      if Suspected(s, state, phase, words, q) {
        SuspectedBelow(s, state, phase, edges, built, groups, q);
        var v: nat :| Active(state, phase, v) && PageMatches(SetupHash(s), words, s.bpp, q, SetupHash(s)(v));
        var k: nat :| k < |vertices| && vertices[k] == v;
      }
    }
  }

  /** The bitset has a bit for every page with an edge. */
  lemma FlagsReach(i: nat, edges: nat, bpp: nat, q: nat)
    requires bpp > 0 && i < edges && InPage(i, bpp, q)
    ensures q < 8 * BitsetSize(edges, bpp)
  {
    var pages := edges / bpp;
    if q > pages {
      MulMonotone(pages + 1, q, bpp);
      assert (pages + 1) * bpp == pages * bpp + bpp;
    }
  }

  /** The flags reach to the end of the file. */
  lemma AllFlagged(edges: nat, bpp: nat)
    requires bpp > 0
    ensures edges <= Start(bpp, 8 * BitsetSize(edges, bpp))
  {
    if edges > 0 {
      var q := PageOfEdgeExists(edges - 1, bpp);
      PageOfEdge(edges - 1, bpp, q);
      FlagsReach(edges - 1, edges, bpp, q);
      StartMonotone(bpp, q + 1, 8 * BitsetSize(edges, bpp));
    }
  }

  /** The pages read lie within the file, page 0 is one of them, and the flags reach to its end. */
  lemma FlagsFit(s: Setup, state: seq<Vertex>, phase: nat, edges: seq<Edge>, built: seq<Edge>, groups: nat)
    requires Usable(s, edges, built, |state|, groups)
    ensures var flags := ReadFlags(s, state, phase, Words(built), 8 * BitsetSize(|edges|, s.bpp));
      PageReader.WellPlaced(flags, s.bpp, |edges|) && flags[0] && |edges| <= Start(s.bpp, |flags|)
  {
    var pages := 8 * BitsetSize(|edges|, s.bpp);
    var flags := ReadFlags(s, state, phase, Words(built), pages);
    forall p: nat | p < |flags| && flags[p]
      ensures Start(s.bpp, p) < |edges|
    {
      if p != 0 {
        SuspectedBelow(s, state, phase, edges, built, groups, p);
      }
    }
    AllFlagged(|edges|, s.bpp);
  }

  /** Page q holds an edge, as the index was built, whose source is active and below 2^31. */
  ghost predicate HasNarrowActive(state: seq<Vertex>, phase: nat, built: seq<Edge>, bpp: nat, q: nat) {
    exists j: nat :: j < |built| && InPage(j, bpp, q) && built[j].src < 0x8000_0000 &&
      Active(state, phase, built[j].src)
  }

  /** Every page but the first with an edge that emits an update holds an active source below 2^31. */
  ghost predicate EmittersAccompanied(state: seq<Vertex>, phase: nat, edges: seq<Edge>, built: seq<Edge>, bpp: nat) {
    forall i: nat, q: nat :: i < |edges| && q > 0 && InPage(i, bpp, q) && Emits(state, phase, edges[i]) ==>
      HasNarrowActive(state, phase, built, bpp, q)
  }

  /** If the condition holds, the pages read emit what all pages emit, whatever the CRC. */
  lemma AccompaniedSuffices(s: Setup, state: seq<Vertex>, phase: nat, edges: seq<Edge>, built: seq<Edge>)
    requires 0 < s.es <= 0x2000 && s.bpp > 0 && forall i: nat :: i < |built| ==> built[i].src < 0x1_0000_0000
    requires EmittersAccompanied(state, phase, edges, built, s.bpp)
    ensures Emitted(state, phase, ReadEdges(s, state, phase, edges, built)) == Emitted(state, phase, edges)
  {
    var pages := 8 * BitsetSize(|edges|, s.bpp);
    var flags := ReadFlags(s, state, phase, Words(built), pages);
    forall i: nat, p: nat | i < |edges| && Emits(state, phase, edges[i]) && Start(s.bpp, p) <= i < Start(s.bpp, p + 1)
      ensures p < |flags| && flags[p]
    {
      PageOfEdge(i, s.bpp, p);
      FlagsReach(i, |edges|, s.bpp, p);
      if p > 0 {
        var j: nat :| j < |built| && InPage(j, s.bpp, p) && built[j].src < 0x8000_0000 &&
          Active(state, phase, built[j].src);
        QueriedPageMatches(SetupHash(s), Words(built), s.bpp, p, j);
      }
    }
    AllFlagged(|edges|, s.bpp);
    SetPagesSuffice(state, phase, edges, s.bpp, flags);
  }

  /** With ids below 2^31 only, every page is its own witness. */
  lemma NarrowLosesNothing(s: Setup, state: seq<Vertex>, phase: nat, edges: seq<Edge>, built: seq<Edge>)
    requires 0 < s.es <= 0x2000 && s.bpp > 0 && TombstonedFrom(edges, built) && Narrow(built)
    ensures Emitted(state, phase, ReadEdges(s, state, phase, edges, built)) == Emitted(state, phase, edges)
  {
    forall i: nat, q: nat | i < |edges| && q > 0 && InPage(i, s.bpp, q) && Emits(state, phase, edges[i])
      ensures HasNarrowActive(state, phase, built, s.bpp, q)
    {
      assert edges[i] == built[i];
    }
    AccompaniedSuffices(s, state, phase, edges, built);
  }

  /** Stream the set pages and scatter buffer by buffer. */
  method ScatterSetPages(s: Setup, state: seq<Vertex>, phase: nat, edges: seq<Edge>, queued: set<nat>, bits: seq<bv8>)
    returns (out: seq<Update>)
    requires s.bpp > 0 && s.pagesPerBuffer > 0 && s.requests > 0
    requires QueuedCover(state, phase, s.part, queued)
    requires |bits| > 0 && PageReader.WellPlaced(Flags(bits), s.bpp, |edges|) && Flags(bits)[0]
    ensures multiset(out) == Emitted(state, phase, Selected(edges, s.bpp, Flags(bits), 0))
  {
    StartIsProduct(s.bpp, s.pagesPerBuffer);
    ghost var flags := Flags(bits);
    var stream := new DiskStream<Edge>(edges, s.bpp, s.pagesPerBuffer, s.pagesPerBuffer * s.bpp, s.requests, bits,
      flags);
    out := ScatterStream(s.part, state, phase, queued, stream);
  }

  method ScatterStream(part: nat -> nat, state: seq<Vertex>, phase: nat, queued: set<nat>, stream: DiskStream<Edge>)
    returns (out: seq<Update>)
    requires stream.Valid() && stream.request.None? && QueuedCover(state, phase, part, queued)
    modifies stream
    ensures multiset(out) == Emitted(state, phase, old(stream.Left()))
  {
    ghost var all := Emitted(state, phase, stream.Left());
    out := [];
    assert stream.ToRead() == stream.Left();
    while !stream.StreamEof()
      invariant stream.Valid() && (stream.request.Some? ==> |stream.request.value| <= stream.bufbytes)
      invariant multiset(out) + Emitted(state, phase, stream.ToRead()) == all
      decreases stream.Rank()
    {
      ghost var whole := stream.ToRead();
      var buffer := stream.Read();
      var more := ScatterBuffer(state, phase, part, queued, buffer);
      EmittedAppend(state, phase, buffer, stream.ToRead());
      out := AppendUpdates(out, more);
    }
    assert stream.ToRead() == [];
  }

  /** Stream all edges. */
  method ScatterAll(part: nat -> nat, state: seq<Vertex>, phase: nat, edges: seq<Edge>, queued: set<nat>, bufsize: nat)
    returns (out: seq<Update>)
    requires bufsize > 0 && QueuedCover(state, phase, part, queued)
    ensures multiset(out) == Emitted(state, phase, edges)
  {
    out := [];
    var pos := 0;
    while pos < |edges|
      invariant 0 <= pos <= |edges|
      invariant multiset(out) == Emitted(state, phase, edges[..pos])
    {
      var end := if bufsize <= |edges| - pos then pos + bufsize else |edges|;
      var more := ScatterBuffer(state, phase, part, queued, edges[pos..end]);
      EmittedPrefix(state, phase, edges, pos, end);
      out := AppendUpdates(out, more);
      pos := end;
    }
    assert edges[..pos] == edges;
  }

  /** The query of a filtered scatter, for the active vertices found. */
  method SelectPages(s: Setup, ghost state: seq<Vertex>, ghost phase: nat, edges: seq<Edge>, ghost built: seq<Edge>,
                     ghost groups: nat, padded: seq<nat>) returns (bits: seq<bv8>)
    requires Usable(s, edges, built, |state|, groups) && |padded| % s.chip == 0
    requires forall v: nat :: v in padded <==> Active(state, phase, v)
    ensures |bits| == BitsetSize(|edges|, s.bpp)
    ensures Flags(bits) == ReadFlags(s, state, phase, Words(built), 8 * |bits|)
  {
    MultipleOfFour(|padded|, s.chip);
    BitsetLargeEnough(|edges|, s.bpp, groups);
    var bitset := QueryIndex(s, Words(built), BitsetSize(|edges|, s.bpp), padded, groups);
    bits := bitset[..];
    BitsAreReadFlags(s, state, phase, edges, built, padded, groups, bits);
  }

  /**
   The scatter phase. The decision to filter is taken before the query and once more after padding, when the list may
   have grown to the limit. With ids below 2^31 the updates are those of the full scan either way.
   */
  method ScatterPhase(s: Setup, state: seq<Vertex>, phase: nat, edges: seq<Edge>, ghost built: seq<Edge>,
                      ghost groups: nat,
                      queued: set<nat>) returns (out: seq<Update>)
    requires Usable(s, edges, built, |state|, groups) && QueuedCover(state, phase, s.part, queued)
    ensures multiset(out) == Emitted(state, phase, Streamed(s, state, phase, edges, built))
    ensures Narrow(built) ==> multiset(out) == Emitted(state, phase, edges)
  {
    var found := CollectActive(state, phase, s.members);
    PaddedIsMultiple(|found|, s.chip);
    var cnt := |found|;
    var maxCheck := if s.maxCheck < 1 then 1 else s.maxCheck;
    var bits: seq<bv8> := [];
    if cnt < maxCheck && maxCheck != 1 {
      var padded := Pad(found, s.chip);
      cnt := |padded|;
      bits := SelectPages(s, state, phase, edges, built, groups, padded);
    }
    if cnt < maxCheck && maxCheck != 1 {
      FlagsFit(s, state, phase, edges, built, groups);
      out := ScatterSetPages(s, state, phase, edges, queued, bits);
    } else {
      MulMonotone(1, s.pagesPerBuffer, s.bpp);
      out := ScatterAll(s.part, state, phase, edges, queued, s.pagesPerBuffer * s.bpp);
    }
    if Narrow(built) {
      NarrowLosesNothing(s, state, phase, edges, built);
    }
  }

  lemma MultipleOfFour(n: nat, chip: nat)
    requires chip > 0 && chip % 4 == 0 && n % chip == 0
    ensures n % 4 == 0
  {
    var q := n / chip;
    assert n == q * chip == 4 * (q * (chip / 4));
  }

  // ---------- exactly when nothing is lost ----------

  /** Whatever the CRC, page q is read. */
  ghost predicate AlwaysRead(s: Setup, state: seq<Vertex>, phase: nat, built: seq<Edge>, q: nat)
    requires s.es > 0 && forall i: nat :: i < |built| ==> built[i].src < 0x1_0000_0000
  {
    forall crc: Crc :: PageRead(s.(crc := crc), state, phase, Words(built), q)
  }

  function IsActive(state: seq<Vertex>, phase: nat): nat -> bool {
    (v: nat) => Active(state, phase, v)
  }

  /** A stored word is an active vertex exactly for active sources below 2^31: other words are no ids at all. */
  lemma SharedWordIsNarrow(state: seq<Vertex>, phase: nat, built: seq<Edge>, bpp: nat, q: nat)
    requires |state| <= 0x1_0000_0000 && forall i: nat :: i < |built| ==> built[i].src < 0x1_0000_0000
    ensures SharesWord(Words(built), bpp, IsActive(state, phase), q) <==> HasNarrowActive(state, phase, built, bpp, q)
  {
    var words, active := Words(built), IsActive(state, phase);
    if SharesWord(words, bpp, active, q) {
      var i: nat :| i < |words| && InPage(i, bpp, q) && active(words[i]);
      assert built[i].src < 0x8000_0000;
    }
    if HasNarrowActive(state, phase, built, bpp, q) {
      var j: nat :| j < |built| && InPage(j, bpp, q) && built[j].src < 0x8000_0000 &&
        Active(state, phase, built[j].src);
      SameWordIffNarrow(built[j].src);
      assert words[j] == built[j].src && active(words[j]);
    }
  }

  /** The telltale CRC leaves unread every page but the first without an active source below 2^31. */
  lemma TelltaleMisses(s: Setup, state: seq<Vertex>, phase: nat, built: seq<Edge>, q: nat)
    requires 0 < s.es <= 0x2000 && |state| <= 0x1_0000_0000
    requires forall i: nat :: i < |built| ==> built[i].src < 0x1_0000_0000
    requires PageRead(s.(crc := Telltale(IsActive(state, phase))), state, phase, Words(built), q)
    ensures q == 0 || HasNarrowActive(state, phase, built, s.bpp, q)
  {
    var s', active := s.(crc := Telltale(IsActive(state, phase))), IsActive(state, phase);
    if q != 0 {
      var v: nat :| Active(state, phase, v) && PageMatches(SetupHash(s'), Words(built), s.bpp, q, SetupHash(s')(v));
      TelltaleIsExact(Words(built), s.bpp, s.es, active, v, q);
      SharedWordIsNarrow(state, phase, built, s.bpp, q);
    }
  }

  /** A page is read whatever the CRC exactly when it is page 0 or holds an active source below 2^31. */
  lemma AlwaysReadIff(s: Setup, state: seq<Vertex>, phase: nat, built: seq<Edge>, q: nat)
    requires 0 < s.es <= 0x2000 && |state| <= 0x1_0000_0000
    requires forall i: nat :: i < |built| ==> built[i].src < 0x1_0000_0000
    ensures AlwaysRead(s, state, phase, built, q) <==> q == 0 || HasNarrowActive(state, phase, built, s.bpp, q)
  {
    if AlwaysRead(s, state, phase, built, q) {
      assert PageRead(s.(crc := Telltale(IsActive(state, phase))), state, phase, Words(built), q);
      TelltaleMisses(s, state, phase, built, q);
    }
    if HasNarrowActive(state, phase, built, s.bpp, q) {
      var j: nat :| j < |built| && InPage(j, s.bpp, q) && built[j].src < 0x8000_0000 &&
        Active(state, phase, built[j].src);
      forall crc: Crc
        ensures PageRead(s.(crc := crc), state, phase, Words(built), q)
      {
        QueriedPageMatches(SetupHash(s.(crc := crc)), Words(built), s.bpp, q, j);
      }
    }
  }

  /** Whatever the CRC, the pages read emit what all pages emit. */
  ghost predicate LosesNothing(s: Setup, state: seq<Vertex>, phase: nat, edges: seq<Edge>, built: seq<Edge>)
    requires s.es > 0 && s.bpp > 0 && forall i: nat :: i < |built| ==> built[i].src < 0x1_0000_0000
  {
    forall crc: Crc ::
      Emitted(state, phase, ReadEdges(s.(crc := crc), state, phase, edges, built)) == Emitted(state, phase, edges)
  }

  /** Page by page from the last to page p: an unset page that emits something makes the difference. */
  lemma {:induction false} SizesPageByPage(page: nat -> nat, set': nat -> nat, all: nat -> nat, flags: seq<bool>,
                                           p: nat, lost: nat)
    requires p <= |flags| && set'(|flags|) <= all(|flags|)
    requires forall q: nat :: q < |flags| ==> all(q) == page(q) + all(q + 1)
    requires forall q: nat :: q < |flags| ==> set'(q) == (if flags[q] then page(q) else 0) + set'(q + 1)
    requires lost < |flags| && !flags[lost] && page(lost) > 0
    ensures set'(p) <= all(p) && (p <= lost ==> set'(p) < all(p))
    decreases |flags| - p
  {
    if p < |flags| {
      SizesPageByPage(page, set', all, flags, p + 1, lost);
    }
  }

  /** How many updates page q emits, and all pages from q on. */
  ghost function PageCount(state: seq<Vertex>, phase: nat, edges: seq<Edge>, bpp: nat, q: nat): nat {
    |Emitted(state, phase, Stretch(edges, bpp, q, 1))|
  }

  ghost function RestCount(state: seq<Vertex>, phase: nat, edges: seq<Edge>, bpp: nat, q: nat): nat {
    |Emitted(state, phase, edges[Clamp(|edges|, Start(bpp, q))..])|
  }

  /** How many the set pages from q on emit. */
  ghost function SetCount(state: seq<Vertex>, phase: nat, edges: seq<Edge>, bpp: nat, flags: seq<bool>, q: nat): nat {
    |Emitted(state, phase, Selected(edges, bpp, flags, q))|
  }

  lemma PageCounts(state: seq<Vertex>, phase: nat, edges: seq<Edge>, bpp: nat, flags: seq<bool>, q: nat)
    requires q < |flags|
    ensures RestCount(state, phase, edges, bpp, q) ==
      PageCount(state, phase, edges, bpp, q) + RestCount(state, phase, edges, bpp, q + 1)
    ensures SetCount(state, phase, edges, bpp, flags, q) ==
      (if flags[q] then PageCount(state, phase, edges, bpp, q)
        else 0) + SetCount(state, phase, edges, bpp, flags, q + 1)
  {
    PageAndRest(state, phase, edges, bpp, q);
    SetPageAndRest(state, phase, edges, bpp, flags, q);
  }

  /** An unread page with an edge that emits an update is a loss. */
  lemma UnreadPageIsLost(state: seq<Vertex>, phase: nat, edges: seq<Edge>, bpp: nat, flags: seq<bool>, lost: nat,
                         i: nat)
    requires lost < |flags| && !flags[lost] && i < |edges| && Start(bpp, lost) <= i < Start(bpp, lost + 1)
    requires Emits(state, phase, edges[i])
    ensures |Emitted(state, phase, Selected(edges, bpp, flags, 0))| < |Emitted(state, phase, edges)|
  {
    var page := (q: nat) => PageCount(state, phase, edges, bpp, q);
    var set' := (q: nat) => SetCount(state, phase, edges, bpp, flags, q);
    var all := (q: nat) => RestCount(state, phase, edges, bpp, q);
    forall q: nat | q < |flags|
      ensures all(q) == page(q) + all(q + 1)
      ensures set'(q) == (if flags[q] then page(q) else 0) + set'(q + 1)
    {
      PageCounts(state, phase, edges, bpp, flags, q);
    }
    PageEmits(state, phase, edges, bpp, lost, i);
    assert set'(|flags|) <= all(|flags|) by {
      assert Selected(edges, bpp, flags, |flags|) == [];
      assert Emitted(state, phase, []) == multiset{};
    }
    SizesPageByPage(page, set', all, flags, 0, lost);
    assert edges[Clamp(|edges|, Start(bpp, 0))..] == edges;
  }

  lemma PageEmits(state: seq<Vertex>, phase: nat, edges: seq<Edge>, bpp: nat, q: nat, i: nat)
    requires i < |edges| && Start(bpp, q) <= i < Start(bpp, q + 1) && Emits(state, phase, edges[i])
    ensures PageCount(state, phase, edges, bpp, q) > 0
  {
    var page := Stretch(edges, bpp, q, 1);
    assert page[i - Start(bpp, q)] == edges[i];
    SomethingEmitted(state, phase, page, i - Start(bpp, q));
  }

  lemma {:induction false} SomethingEmitted(state: seq<Vertex>, phase: nat, edges: seq<Edge>, i: nat)
    requires i < |edges| && Emits(state, phase, edges[i])
    ensures |Emitted(state, phase, edges)| > 0
  {
    if i < |edges| - 1 {
      SomethingEmitted(state, phase, edges[..|edges| - 1], i);
    }
  }

  /** If some page with an emitting edge is unread for some CRC, that CRC loses an update. */
  lemma LossForCrc(s: Setup, state: seq<Vertex>, phase: nat, edges: seq<Edge>, built: seq<Edge>, i: nat, q: nat)
    requires s.es > 0 && s.bpp > 0 && forall j: nat :: j < |built| ==> built[j].src < 0x1_0000_0000
    requires i < |edges| && InPage(i, s.bpp, q) && Emits(state, phase, edges[i])
    requires !PageRead(s, state, phase, Words(built), q)
    ensures |Emitted(state, phase, ReadEdges(s, state, phase, edges, built))| < |Emitted(state, phase, edges)|
  {
    var pages := 8 * BitsetSize(|edges|, s.bpp);
    var flags := ReadFlags(s, state, phase, Words(built), pages);
    PageOfEdge(i, s.bpp, q);
    FlagsReach(i, |edges|, s.bpp, q);
    UnreadPageIsLost(state, phase, edges, s.bpp, flags, q, i);
  }

  /**
   The filtered scatter loses nothing, whatever the CRC, exactly when every page but the first with an edge that emits
   an update holds an active source below 2^31. For ids below 2^31 it always does.
   */
  lemma LosesNothingIff(s: Setup, state: seq<Vertex>, phase: nat, edges: seq<Edge>, built: seq<Edge>)
    requires 0 < s.es <= 0x2000 && s.bpp > 0 && |state| <= 0x1_0000_0000 && TombstonedFrom(edges, built)
    requires forall i: nat :: i < |built| ==> built[i].src < 0x1_0000_0000
    ensures LosesNothing(s, state, phase, edges, built) <==> EmittersAccompanied(state, phase, edges, built, s.bpp)
  {
    if LosesNothing(s, state, phase, edges, built) {
      var s' := s.(crc := Telltale(IsActive(state, phase)));
      assert Emitted(state, phase, ReadEdges(s', state, phase, edges, built)) == Emitted(state, phase, edges);
      forall i: nat, q: nat | i < |edges| && q > 0 && InPage(i, s.bpp, q) && Emits(state, phase, edges[i])
        ensures HasNarrowActive(state, phase, built, s.bpp, q)
      {
        if !PageRead(s', state, phase, Words(built), q) {
          LossForCrc(s', state, phase, edges, built, i, q);
        }
        TelltaleMisses(s, state, phase, built, q);
      }
    }
    if EmittersAccompanied(state, phase, edges, built, s.bpp) {
      forall crc: Crc
        ensures Emitted(state, phase, ReadEdges(s.(crc := crc), state, phase, edges, built)) ==
          Emitted(state, phase, edges)
      {
        AccompaniedSuffices(s.(crc := crc), state, phase, edges, built);
      }
    }
  }

  // ---------- a run that loses an update ----------

  /** Only `key` is active. */
  function OnlyActive(key: nat, phase: nat): (state: seq<Vertex>)
    ensures |state| == key + 1
    ensures key != NONE ==> forall v: nat :: Active(state, phase, v) <==> v == key
  {
    seq(key + 1, v requires 0 <= v <= key => Vertex(if v == key then 0 else NONE, phase, false))
  }

  function Identity(n: nat): (ids: seq<nat>)
    ensures |ids| == n && forall v :: 0 <= v < n ==> ids[v] == v
  {
    seq(n, v requires 0 <= v => v)
  }

  /** Two pages of one edge each: the second belongs to `key`. */
  function TwoPages(key: nat, dst: nat): seq<Edge> {
    [Edge(0, 0), Edge(key, dst)]
  }

  /** Filters of 64 bits under the telltale CRC, every query list of up to 8 entries filtered. */
  function TwoPageSetup(key: nat, phase: nat, filters: seq<bv8>): Setup {
    Setup(Telltale(IsActive(OnlyActive(key, phase), phase)), 8, 1, filters, 1, 1, 4, 9, 1, 1, (v: nat) => 0,
      [Identity(key + 1)])
  }

  lemma {:induction false} OneActive(key: nat, phase: nat, n: nat)
    requires n <= key + 1 && key != NONE
    ensures ActiveIn(OnlyActive(key, phase), phase, Identity(key + 1)[..n]) == if n == key + 1 then 1 else 0
  {
    if n > 0 {
      OneActive(key, phase, n - 1);
      assert Identity(key + 1)[..n][..n - 1] == Identity(key + 1)[..n - 1];
    }
  }

  lemma TwoPagesFiltered(key: nat, phase: nat, filters: seq<bv8>)
    requires key != NONE
    ensures IsFiltered(TwoPageSetup(key, phase, filters), OnlyActive(key, phase), phase)
  {
    var ids := Identity(key + 1);
    OneActive(key, phase, key + 1);
    assert ids[..key + 1] == ids;
    assert ActiveCount(OnlyActive(key, phase), phase, [ids]) == 1;
  }

  /** The page of the edge out of `key` is not read, and nothing is emitted. */
  lemma SecondPageMissed(key: nat, dst: nat, phase: nat, filters: seq<bv8>)
    requires 0x8000_0000 <= key < NONE
    ensures var s, state, edges := TwoPageSetup(key, phase, filters), OnlyActive(key, phase), TwoPages(key, dst);
      && Emitted(state, phase, ReadEdges(s, state, phase, edges, edges)) == multiset{}
      && Emitted(state, phase, edges) == multiset{Update(key, dst)}
  {
    var s, state, edges := TwoPageSetup(key, phase, filters), OnlyActive(key, phase), TwoPages(key, dst);
    assert edges[..1] == [Edge(0, 0)] && [Edge(0, 0)][..0] == [];
    assert Emitted(state, phase, []) == multiset{};
    assert Emitted(state, phase, [Edge(0, 0)]) == multiset{};
    assert Emitted(state, phase, edges) == multiset{Update(key, dst)};
    assert InPage(1, 1, 1) && edges[1].src == key;
    if PageRead(s, state, phase, Words(edges), 1) {
      TelltaleMisses(s, state, phase, edges, 1);
      assert false;
    }
    LossForCrc(s, state, phase, edges, edges, 1, 1);
  }

  lemma TwoPagesUsable(key: nat, dst: nat, phase: nat, filters: seq<bv8>)
    requires key < NONE
    requires IsIndex(SetupHash(TwoPageSetup(key, phase, filters)), Words(TwoPages(key, dst)), 1, 8, filters, 1)
    ensures Usable(TwoPageSetup(key, phase, filters), TwoPages(key, dst), TwoPages(key, dst), key + 1, 1)
    ensures QueuedCover(OnlyActive(key, phase), phase, TwoPageSetup(key, phase, filters).part, {0})
  {
    var members := TwoPageSetup(key, phase, filters).members;
    forall v: nat | v < key + 1
      ensures Listed(members, v)
    {
      assert members[0][v] == v;
    }
  }

  /**
   For every id from 2^31 on that is not the tombstone: index two pages of one edge each, make the source of the second
   the only active vertex, and scatter. Its update is lost.
   */
  method WideUpdateLost(form: Form, key: nat, dst: nat, phase: nat) returns (s: Setup, out: seq<Update>)
    requires 0x8000_0000 <= key < NONE
    ensures Usable(s, TwoPages(key, dst), TwoPages(key, dst), key + 1, 1) &&
      IsFiltered(s, OnlyActive(key, phase), phase)
    ensures Emitted(OnlyActive(key, phase), phase, TwoPages(key, dst)) == multiset{Update(key, dst)} && out == []
  {
    var edges := TwoPages(key, dst);
    s := TwoPageSetup(key, phase, []);
    HashInRange(s);
    var file := Create(form, SetupHash(s), Words(edges), 1, 8, 1);
    s := TwoPageSetup(key, phase, file.contents);
    TwoPagesUsable(key, dst, phase, file.contents);
    TwoPagesFiltered(key, phase, file.contents);
    SecondPageMissed(key, dst, phase, file.contents);
    out := ScatterPhase(s, OnlyActive(key, phase), phase, edges, edges, 1, {0});
    assert |multiset(out)| == 0;
  }
}
