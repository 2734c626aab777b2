/**
 The vertex mapping of core/autotuner.hpp: a key is split into a super-partition
 (its low bits), a cached partition (the next bits) and an offset (the rest).
 */
module Mapping {
  import opened Bits

  /** The width of `unsigned long`, and the shifts `setup_mapping` derives from the two partition counts. */
  datatype Shifts = Shifts(word: nat, partition: nat, superp: nat) {
    function Total(): nat { partition + superp }
  }

  // ---------- the forward maps and their inverse ----------

  function MapOffset(m: Shifts, key: nat): nat {
    Shr(key, m.superp + m.partition)
  }

  function MapCachedPartition(m: Shifts, key: nat): nat {
    And(Shr(key, m.superp), Pow2(m.partition) - 1)
  }

  function MapSuperPartition(m: Shifts, key: nat): nat {
    And(key, Pow2(m.superp) - 1)
  }

  function MapInverse(m: Shifts, superp: nat, partition: nat, offset: nat): nat {
    Or(Shl(Or(Shl(offset, m.partition), partition), m.superp), superp)
  }

  /** `map_inverse` undoes the three forward maps, for every key. */
  lemma InverseOfMaps(m: Shifts, key: nat)
    ensures MapSuperPartition(m, key) < Pow2(m.superp)
    ensures MapCachedPartition(m, key) < Pow2(m.partition)
    ensures MapInverse(m, MapSuperPartition(m, key), MapCachedPartition(m, key), MapOffset(m, key)) == key
  {
    var s := ShrRest(key, m.superp);
    var upper := Shr(key, m.superp);
    AndMask(key, m.superp, upper, s);
    var p := ShrRest(upper, m.partition);
    AndMask(upper, m.partition, Shr(upper, m.partition), p);
    ShrShr(key, m.superp, m.partition);
    OrDisjoint(MapOffset(m, key), m.partition, p);
    OrDisjoint(upper, m.superp, s);
  }

  /** The forward maps undo `map_inverse`, for every offset and every partition in range. */
  lemma MapsOfInverse(m: Shifts, superp: nat, partition: nat, offset: nat)
    requires superp < Pow2(m.superp) && partition < Pow2(m.partition)
    ensures var key := MapInverse(m, superp, partition, offset);
      MapSuperPartition(m, key) == superp && MapCachedPartition(m, key) == partition && MapOffset(m, key) == offset
  {
    var upper := Shl(offset, m.partition) + partition;
    OrDisjoint(offset, m.partition, partition);
    OrDisjoint(upper, m.superp, superp);
    var key := MapInverse(m, superp, partition, offset);
    AndMask(key, m.superp, upper, superp);
    ShrOfShl(key, m.superp, upper, superp);
    AndMask(upper, m.partition, offset, partition);
    ShrOfShl(upper, m.partition, offset, partition);
    ShrShr(key, m.superp, m.partition);
  }

  /** The super-partition is the lowest digit of a key, the cached partition the next one, the offset the rest. */
  lemma MapsAreDigits(m: Shifts, key: nat)
    ensures MapSuperPartition(m, key) == key % Pow2(m.superp)
    ensures MapCachedPartition(m, key) == Shr(key, m.superp) % Pow2(m.partition)
    ensures Shr(key, m.superp) == key / Pow2(m.superp)
    ensures MapOffset(m, key) == key / Pow2(m.superp + m.partition)
  {
    MaskIsRemainder(key, m.superp);
    MaskIsRemainder(Shr(key, m.superp), m.partition);
    ShrIsQuotient(key, m.superp);
    ShrIsQuotient(key, m.superp + m.partition);
  }

  // ---------- state_count ----------

  /** The vertices of partition (superp, partition), the set `state_count` is meant to count. */
  function Members(m: Shifts, vertices: nat, superp: nat, partition: nat): set<nat> {
    set v: nat | v < vertices && MapSuperPartition(m, v) == superp && MapCachedPartition(m, v) == partition
  }

  /** `~x` on a word of the given width. */
  function Not(x: nat, word: nat): nat
    requires x < Pow2(word)
  {
    Pow2(word) - 1 - x
  }

  /** `configuration::state_count`, with its three bit tricks and its wrap-around branch. */
  function StateCount(m: Shifts, vertices: nat, superp: nat, partition: nat): nat
    requires vertices > 0 && m.Total() < m.word
    requires superp < Pow2(m.superp) && partition < Pow2(m.partition)
  {
    Pow2Monotone(m.Total(), m.word);
    var base := Or(Shl(partition, m.superp), superp);
    var count := And(vertices - 1, Not(Pow2(m.Total()) - 1, m.word));
    if Or(count, base) < vertices then
      Shr(count, m.Total()) + 1
    else
      Shr(count, m.Total()) // the source subtracts one, possibly wrapping, and adds it back
  }

  /** Clearing the low k bits of a word. */
  lemma ClearLowBits(x: nat, k: nat, word: nat)
    requires k < word && x < Pow2(word)
    ensures Pow2(k) - 1 < Pow2(word)
    ensures And(x, Not(Pow2(k) - 1, word)) == Shl(Shr(x, k), k)
  {
    Pow2Monotone(k, word);
    var r := ShrRest(x, k);
    var q, j := Shr(x, k), word - k;
    NotLowBits(k, j);
    assert k + j == word;
    AndSplit(x, Not(Pow2(k) - 1, word), k, q, r, Pow2(j) - 1, 0);
    UpperBits(q, r, k, j);
    ShlZero(j);
    AndMask(q, j, 0, q);
  }

  lemma NotLowBits(k: nat, j: nat)
    requires j > 0
    ensures Pow2(k + j) - Pow2(k) == Shl(Pow2(j) - 1, k)
  {
    ShlPow2(j, k);
    ShlPow2(0, k);
    ShlSum(Pow2(j) - 1, 1, k);
  }

  lemma UpperBits(q: nat, r: nat, k: nat, j: nat)
    requires Shl(q, k) + r < Pow2(k + j)
    ensures q < Pow2(j)
  {
    ShlPow2(j, k);
    if Pow2(j) <= q {
      ShlSum(Pow2(j), q - Pow2(j), k);
    }
  }

  lemma {:induction false} ShlPow2(i: nat, k: nat)
    ensures Shl(Pow2(i), k) == Pow2(i + k)
  {
    if k > 0 {
      ShlPow2(i, k - 1);
    }
  }

  lemma {:induction false} ShlZero(k: nat)
    ensures Shl(0, k) == 0
  {
    if k > 0 {
      ShlZero(k - 1);
    }
  }

  lemma {:induction false} ShlStrict(a: nat, b: nat, k: nat)
    requires a < b
    ensures Shl(a, k) + Pow2(k) <= Shl(b, k)
  {
    if k > 0 {
      ShlStrict(a, b, k - 1);
    }
  }

  /** `map_inverse` as arithmetic: the offset times the number of partitions, plus the partition's base. */
  lemma InverseValue(m: Shifts, superp: nat, partition: nat, offset: nat)
    requires superp < Pow2(m.superp) && partition < Pow2(m.partition)
    ensures Or(Shl(partition, m.superp), superp) == Shl(partition, m.superp) + superp < Pow2(m.Total())
    ensures MapInverse(m, superp, partition, offset) == Shl(offset, m.Total()) + Shl(partition, m.superp) + superp
  {
    OrDisjoint(partition, m.superp, superp);
    OrDisjoint(offset, m.partition, partition);
    OrDisjoint(Shl(offset, m.partition) + partition, m.superp, superp);
    ShlShl(offset, m.partition, m.superp);
    ShlSum(Shl(offset, m.partition), partition, m.superp);
    ShlStrict(partition, Pow2(m.partition), m.superp);
    ShlTimes(Pow2(m.partition), m.superp);
    Pow2Add(m.partition, m.superp);
  }

  lemma {:induction false} ShlSum(a: nat, b: nat, k: nat)
    ensures Shl(a + b, k) == Shl(a, k) + Shl(b, k)
  {
    if k > 0 {
      ShlSum(a, b, k - 1);
    }
  }

  /** `state_count` without its bit tricks. */
  lemma StateCountValue(m: Shifts, vertices: nat, superp: nat, partition: nat) returns (q: nat, r: nat)
    requires 0 < vertices <= Pow2(m.word) && m.Total() < m.word
    requires superp < Pow2(m.superp) && partition < Pow2(m.partition)
    ensures vertices - 1 == Shl(q, m.Total()) + r && r < Pow2(m.Total())
    ensures StateCount(m, vertices, superp, partition) ==
      if Shl(q, m.Total()) + Shl(partition, m.superp) + superp < vertices then q + 1 else q
  {
    var k := m.Total();
    InverseValue(m, superp, partition, 0);
    ClearLowBits(vertices - 1, k, m.word);
    q := Shr(vertices - 1, k);
    r := ShrRest(vertices - 1, k);
    OrDisjoint(q, k, Shl(partition, m.superp) + superp);
    ShrOfShl(Shl(q, k), k, q, 0);
  }

  /** `state_count` is the threshold between the offsets whose vertex exists and those past the end. */
  lemma StateCountThreshold(m: Shifts, vertices: nat, superp: nat, partition: nat, offset: nat)
    requires 0 < vertices <= Pow2(m.word) && m.Total() < m.word
    requires superp < Pow2(m.superp) && partition < Pow2(m.partition)
    ensures MapInverse(m, superp, partition, offset) < vertices <==> offset < StateCount(m, vertices, superp, partition)
  {
    InverseValue(m, superp, partition, offset);
    var q, r := StateCountValue(m, vertices, superp, partition);
    if offset < q {
      ShlStrict(offset, q, m.Total());
    } else if offset > q {
      ShlStrict(q, offset, m.Total());
    }
  }

  /** Main result: `state_count` is the number of vertices mapped to the partition. */
  lemma StateCountIsCardinality(m: Shifts, vertices: nat, superp: nat, partition: nat)
    requires 0 < vertices <= Pow2(m.word) && m.Total() < m.word
    requires superp < Pow2(m.superp) && partition < Pow2(m.partition)
    ensures |Members(m, vertices, superp, partition)| == StateCount(m, vertices, superp, partition)
  {
    var c := StateCount(m, vertices, superp, partition);
    var image := InverseImage(m, superp, partition, c);
    assert image == Members(m, vertices, superp, partition) by {
      forall v: nat
        ensures v in image <==> v in Members(m, vertices, superp, partition)
      {
        if v in image {
          var offset: nat :| offset < c && v == MapInverse(m, superp, partition, offset);
          MapsOfInverse(m, superp, partition, offset);
          StateCountThreshold(m, vertices, superp, partition, offset);
        }
        if v in Members(m, vertices, superp, partition) {
          InverseOfMaps(m, v);
          StateCountThreshold(m, vertices, superp, partition, MapOffset(m, v));
        }
      }
    }
    ImageSize(m, superp, partition, c);
  }

  function InverseImage(m: Shifts, superp: nat, partition: nat, count: nat): set<nat> {
    set offset: nat | offset < count :: MapInverse(m, superp, partition, offset)
  }

  lemma {:induction false} ImageSize(m: Shifts, superp: nat, partition: nat, count: nat)
    requires superp < Pow2(m.superp) && partition < Pow2(m.partition)
    ensures |InverseImage(m, superp, partition, count)| == count
  {
    if count > 0 {
      ImageSize(m, superp, partition, count - 1);
      var rest := InverseImage(m, superp, partition, count - 1);
      var last := MapInverse(m, superp, partition, count - 1);
      assert InverseImage(m, superp, partition, count) == rest + {last};
      MapsOfInverse(m, superp, partition, count - 1);
      if last in rest {
        var offset: nat :| offset < count - 1 && last == MapInverse(m, superp, partition, offset);
        MapsOfInverse(m, superp, partition, offset);
        assert false;
      }
    }
  }

  // ---------- the counts add up ----------

  function MemberCount(m: Shifts, vertices: nat, superp: nat, partition: nat): nat {
    |Members(m, vertices, superp, partition)|
  }

  function Sum(f: nat -> nat, n: nat): nat {
    if n == 0 then 0 else Sum(f, n - 1) + f(n - 1)
  }

  /** Sum of the counts of the first `partitions` partitions of one super-partition. */
  function CountSum(m: Shifts, vertices: nat, superp: nat, partitions: nat): nat {
    Sum(partition => MemberCount(m, vertices, superp, partition), partitions)
  }

  /** ... and over the first `superps` super-partitions. */
  function TotalSum(m: Shifts, vertices: nat, superps: nat): nat {
    Sum(superp => CountSum(m, vertices, superp, Pow2(m.partition)), superps)
  }

  /** The elements of `all` that f sends to k. */
  function Class(all: set<nat>, f: nat -> nat, k: nat): set<nat> {
    set v | v in all && f(v) == k
  }

  lemma {:induction false} ClassesCount(all: set<nat>, f: nat -> nat, sizes: nat -> nat, k: nat)
    requires forall j: nat :: j < k ==> sizes(j) == |Class(all, f, j)|
    ensures |set v | v in all && f(v) < k| == Sum(sizes, k)
  {
    var below := set v | v in all && f(v) < k;
    if k == 0 {
      assert below == {};
    } else {
      ClassesCount(all, f, sizes, k - 1);
      var before := set v | v in all && f(v) < k - 1;
      assert below == before + Class(all, f, k - 1);
      assert before !! Class(all, f, k - 1);
    }
  }

  /** The sizes of classes that cover everything add up to the whole. */
  lemma ClassesAddUp(all: set<nat>, f: nat -> nat, sizes: nat -> nat, k: nat)
    requires forall j: nat :: j < k ==> sizes(j) == |Class(all, f, j)|
    requires forall v :: v in all ==> f(v) < k
    ensures Sum(sizes, k) == |all|
  {
    ClassesCount(all, f, sizes, k);
    assert all == set v | v in all && f(v) < k;
  }

  /** The vertices of a super-partition. */
  function InSuperPartition(m: Shifts, vertices: nat, superp: nat): set<nat> {
    Class(Below(vertices), v => MapSuperPartition(m, v), superp)
  }

  /** All partitions of a super-partition together. */
  lemma SuperPartitionCount(m: Shifts, vertices: nat, superp: nat)
    ensures CountSum(m, vertices, superp, Pow2(m.partition)) == |InSuperPartition(m, vertices, superp)|
  {
    var all, f := InSuperPartition(m, vertices, superp), (v: nat) => MapCachedPartition(m, v);
    forall v | v in all
      ensures f(v) < Pow2(m.partition)
    {
      InverseOfMaps(m, v);
    }
    forall j: nat | j < Pow2(m.partition)
      ensures MemberCount(m, vertices, superp, j) == |Class(all, f, j)|
    {
      assert Members(m, vertices, superp, j) == Class(all, f, j);
    }
    ClassesAddUp(all, f, partition => MemberCount(m, vertices, superp, partition), Pow2(m.partition));
  }

  /** Over all super-partitions and partitions the counts add up to the number of vertices. */
  lemma CountsAddUp(m: Shifts, vertices: nat)
    ensures TotalSum(m, vertices, Pow2(m.superp)) == vertices
  {
    var f := (v: nat) => MapSuperPartition(m, v);
    forall v | v in Below(vertices)
      ensures f(v) < Pow2(m.superp)
    {
      InverseOfMaps(m, v);
    }
    forall j: nat | j < Pow2(m.superp)
      ensures CountSum(m, vertices, j, Pow2(m.partition)) == |Class(Below(vertices), f, j)|
    {
      SuperPartitionCount(m, vertices, j);
    }
    ClassesAddUp(Below(vertices), f, superp => CountSum(m, vertices, superp, Pow2(m.partition)), Pow2(m.superp));
  }

  /** The first n numbers. */
  function Below(n: nat): (r: set<nat>)
    ensures forall v: nat :: v in r <==> v < n
    ensures |r| == n
  {
    if n == 0 then {} else Below(n - 1) + {n - 1}
  }

  // ---------- vertex records of a loaded super-partition ----------

  class Configuration {
    var vertices: nat
    var vertexSize: nat
    var cachedPartitions: nat
    var superPartitions: nat
    var shifts: Shifts

    constructor (word: nat, vertices: nat, vertexSize: nat, cachedPartitions: nat, superPartitions: nat)
      ensures this.vertices == vertices && this.vertexSize == vertexSize
      ensures this.cachedPartitions == cachedPartitions && this.superPartitions == superPartitions
    {
      this.vertices, this.vertexSize := vertices, vertexSize;
      this.cachedPartitions, this.superPartitions := cachedPartitions, superPartitions;
      shifts := Shifts(word, 0, 0);
    }

    /** What the start-up checks and `setup_mapping` establish. */
    predicate Valid()
      reads this
    {
      && 0 < vertices <= Pow2(shifts.word) && vertexSize > 0
      && cachedPartitions == Pow2(shifts.partition) && superPartitions == Pow2(shifts.superp)
      && shifts.Total() < shifts.word
    }

    /** `setup_mapping`: the shifts are the logarithms of the partition counts. */
    method SetupMapping(ghost p: nat, ghost s: nat)
      requires cachedPartitions == Pow2(p) && superPartitions == Pow2(s)
      modifies this
      ensures shifts == Shifts(old(shifts.word), p, s)
      ensures vertices == old(vertices) && vertexSize == old(vertexSize)
      ensures cachedPartitions == old(cachedPartitions) && superPartitions == old(superPartitions)
    {
      var partitionShift := BitLength(cachedPartitions - 1, p);
      var superPartitionShift := BitLength(superPartitions - 1, s);
      shifts := Shifts(shifts.word, partitionShift, superPartitionShift);
    }

    /** `state_count` returns the number of vertices mapped to the partition. */
    method CountState(superp: nat, partition: nat) returns (count: nat)
      requires Valid() && superp < superPartitions && partition < cachedPartitions
      ensures count == MemberCount(shifts, vertices, superp, partition)
    {
      count := StateCount(shifts, vertices, superp, partition);
      StateCountIsCardinality(shifts, vertices, superp, partition);
    }

    /** `state_prepare`: partition i's records start after those of the partitions before it. */
    method StatePrepare(superp: nat, index: array<nat>)
      requires Valid() && superp < superPartitions && index.Length == cachedPartitions
      modifies index
      ensures forall j: nat :: j < index.Length ==> index[j] == vertexSize * |InFront(shifts, vertices, superp, j)|
      ensures forall j: nat :: j < index.Length ==> index[j] == Start(shifts, vertices, vertexSize, superp, j)
    {
      var soFar := 0;
      var i := 0;
      while i < cachedPartitions
        invariant i <= cachedPartitions
        invariant soFar == Start(shifts, vertices, vertexSize, superp, i)
        invariant forall j: nat :: j < i ==> index[j] == Start(shifts, vertices, vertexSize, superp, j)
      {
        index[i] := soFar;
        soFar := NextStart(superp, i, soFar);
        i := i + 1;
      }
      forall j: nat | j < index.Length
        ensures index[j] == vertexSize * |InFront(shifts, vertices, superp, j)|
      {
        StartIsPacked(shifts, vertices, vertexSize, superp, j);
      }
    }

    method NextStart(superp: nat, partition: nat, soFar: nat) returns (next: nat)
      requires Valid() && superp < superPartitions && partition < cachedPartitions
      requires soFar == Start(shifts, vertices, vertexSize, superp, partition)
      ensures next == Start(shifts, vertices, vertexSize, superp, partition + 1)
    {
      var count := CountState(superp, partition);
      next := soFar + vertexSize * count;
      BytesProduct(vertexSize, count);
    }
  }

  /** The size of that many records. */
  function Bytes(size: nat, count: nat): nat {
    if count == 0 then 0 else Bytes(size, count - 1) + size
  }

  lemma {:induction false} BytesProduct(size: nat, count: nat)
    ensures Bytes(size, count) == size * count
  {
    if count > 0 {
      BytesProduct(size, count - 1);
      assert size * count == size * (count - 1) + size;
    }
  }

  lemma {:induction false} BytesFit(size: nat, i: nat, j: nat)
    requires i < j
    ensures Bytes(size, i) + size <= Bytes(size, j)
  {
    if i < j - 1 {
      BytesFit(size, i, j - 1);
    }
  }

  /** Byte offset at which a partition's records start: those of the partitions before it are in front. */
  function Start(m: Shifts, vertices: nat, size: nat, superp: nat, partition: nat): nat {
    if partition == 0 then 0
    else Start(m, vertices, size, superp, partition - 1) + Bytes(size, MemberCount(m, vertices, superp, partition - 1))
  }

  /** The vertices of a super-partition in its first `partitions` partitions. */
  function InFront(m: Shifts, vertices: nat, superp: nat, partitions: nat): set<nat> {
    set v: nat | v < vertices && MapSuperPartition(m, v) == superp && MapCachedPartition(m, v) < partitions
  }

  /** The records of a partition start right behind those of all vertices of earlier partitions. */
  lemma {:induction false} StartIsPacked(m: Shifts, vertices: nat, size: nat, superp: nat, partition: nat)
    ensures Start(m, vertices, size, superp, partition) == size * |InFront(m, vertices, superp, partition)|
  {
    if partition == 0 {
      assert InFront(m, vertices, superp, 0) == {};
    } else {
      var k := partition - 1;
      StartIsPacked(m, vertices, size, superp, k);
      NextInFront(m, vertices, superp, k, partition);
      BytesProduct(size, MemberCount(m, vertices, superp, k));
      Distribute(size, |InFront(m, vertices, superp, k)|, MemberCount(m, vertices, superp, k));
    }
  }

  lemma NextInFront(m: Shifts, vertices: nat, superp: nat, k: nat, next: nat)
    requires next == k + 1
    ensures |InFront(m, vertices, superp, next)| ==
      |InFront(m, vertices, superp, k)| + MemberCount(m, vertices, superp, k)
  {
    var before, these := InFront(m, vertices, superp, k), Members(m, vertices, superp, k);
    assert InFront(m, vertices, superp, next) == before + these && before !! these;
  }

  lemma Distribute(size: nat, x: nat, y: nat)
    ensures size * (x + y) == size * x + size * y
  {
  }

  /** All partitions together fill as many bytes as the vertices of the super-partition take. */
  lemma StateIsPacked(m: Shifts, vertices: nat, size: nat, superp: nat)
    ensures Start(m, vertices, size, superp, Pow2(m.partition)) == size * |InSuperPartition(m, vertices, superp)|
  {
    StartIsPacked(m, vertices, size, superp, Pow2(m.partition));
    forall v: nat
      ensures v in InFront(m, vertices, superp, Pow2(m.partition)) <==> v in InSuperPartition(m, vertices, superp)
    {
      InverseOfMaps(m, v);
    }
    assert InFront(m, vertices, superp, Pow2(m.partition)) == InSuperPartition(m, vertices, superp);
  }

  /** The loop of `setup_mapping`: count how often `temp` can be halved. */
  method BitLength(start: nat, ghost k: nat) returns (shift: nat)
    requires start == Pow2(k) - 1
    ensures shift == k
  {
    shift := 0;
    var temp := start;
    while temp != 0
      invariant shift <= k && temp == Pow2(k - shift) - 1
      decreases temp
    {
      shift := shift + 1;
      temp := temp / 2;
    }
  }

  /** Byte address of the record of a vertex once the prefix sums are in place. */
  function Address(m: Shifts, vertices: nat, size: nat, v: nat): (a: nat)
    ensures a >= Start(m, vertices, size, MapSuperPartition(m, v), MapCachedPartition(m, v))
  {
    Start(m, vertices, size, MapSuperPartition(m, v), MapCachedPartition(m, v)) + Bytes(size, MapOffset(m, v))
  }

  lemma OffsetBelowCount(m: Shifts, vertices: nat, v: nat)
    requires v < vertices <= Pow2(m.word) && m.Total() < m.word
    ensures MapOffset(m, v) < MemberCount(m, vertices, MapSuperPartition(m, v), MapCachedPartition(m, v))
  {
    InverseOfMaps(m, v);
    StateCountIsCardinality(m, vertices, MapSuperPartition(m, v), MapCachedPartition(m, v));
    StateCountThreshold(m, vertices, MapSuperPartition(m, v), MapCachedPartition(m, v), MapOffset(m, v));
  }

  /** A vertex's record ends before the records of any later partition begin. */
  lemma RecordInside(m: Shifts, vertices: nat, size: nat, v: nat, partitions: nat)
    requires v < vertices <= Pow2(m.word) && m.Total() < m.word
    requires MapCachedPartition(m, v) < partitions
    ensures Address(m, vertices, size, v) + size <= Start(m, vertices, size, MapSuperPartition(m, v), partitions)
  {
    var s, p := MapSuperPartition(m, v), MapCachedPartition(m, v);
    OffsetBelowCount(m, vertices, v);
    BytesFit(size, MapOffset(m, v), MemberCount(m, vertices, s, p));
    StartMonotone(m, vertices, size, s, p + 1, partitions);
  }

  lemma {:induction false} StartMonotone(m: Shifts, vertices: nat, size: nat, superp: nat, i: nat, j: nat)
    requires i <= j
    ensures Start(m, vertices, size, superp, i) <= Start(m, vertices, size, superp, j)
  {
    if i < j {
      StartMonotone(m, vertices, size, superp, i, j - 1);
    }
  }

  /** The records of two vertices of a loaded super-partition do not overlap. */
  lemma RecordsDisjoint(m: Shifts, vertices: nat, size: nat, v: nat, w: nat)
    requires v < vertices <= Pow2(m.word) && w < vertices && v != w && m.Total() < m.word
    requires MapSuperPartition(m, v) == MapSuperPartition(m, w)
    ensures
      var a, b := Address(m, vertices, size, v), Address(m, vertices, size, w);
      a + size <= b || b + size <= a
  {
    var p, q := MapCachedPartition(m, v), MapCachedPartition(m, w);
    if p < q {
      RecordInside(m, vertices, size, v, q);
    } else if q < p {
      RecordInside(m, vertices, size, w, p);
    } else {
      DistinctOffsets(m, v, w);
      if MapOffset(m, v) < MapOffset(m, w) {
        BytesFit(size, MapOffset(m, v), MapOffset(m, w));
      } else {
        BytesFit(size, MapOffset(m, w), MapOffset(m, v));
      }
    }
  }

  lemma DistinctOffsets(m: Shifts, v: nat, w: nat)
    requires v != w && MapSuperPartition(m, v) == MapSuperPartition(m, w) &&
      MapCachedPartition(m, v) == MapCachedPartition(m, w)
    ensures MapOffset(m, v) != MapOffset(m, w)
  {
    InverseOfMaps(m, v);
    InverseOfMaps(m, w);
  }

  /** Which of `count` records a byte lies in. */
  lemma {:induction false} RecordOfByte(size: nat, count: nat, b: nat) returns (offset: nat)
    requires b < Bytes(size, count)
    ensures offset < count && Bytes(size, offset) <= b < Bytes(size, offset) + size
  {
    if Bytes(size, count - 1) <= b {
      offset := count - 1;
    } else {
      offset := RecordOfByte(size, count - 1, b);
    }
  }

  /** Which partition a byte lies in. */
  lemma {:induction false} PartitionOfByte(m: Shifts, vertices: nat, size: nat, superp: nat, partitions: nat, b: nat)
    returns (i: nat)
    requires b < Start(m, vertices, size, superp, partitions)
    ensures i < partitions && Start(m, vertices, size, superp, i) <= b
    ensures b < Start(m, vertices, size, superp, i) + Bytes(size, MemberCount(m, vertices, superp, i))
  {
    if Start(m, vertices, size, superp, partitions - 1) <= b {
      i := partitions - 1;
    } else {
      i := PartitionOfByte(m, vertices, size, superp, partitions - 1, b);
    }
  }

  /** Byte b lies in the record of vertex v. */
  predicate InRecord(m: Shifts, vertices: nat, size: nat, v: nat, b: nat) {
    v < vertices && Address(m, vertices, size, v) <= b < Address(m, vertices, size, v) + size
  }

  /** No byte is wasted or shared: each belongs to the record of exactly one vertex of the super-partition. */
  lemma OneOwner(m: Shifts, vertices: nat, size: nat, superp: nat, b: nat) returns (v: nat)
    requires 0 < vertices <= Pow2(m.word) && m.Total() < m.word && superp < Pow2(m.superp)
    requires b < size * |InSuperPartition(m, vertices, superp)|
    ensures MapSuperPartition(m, v) == superp && InRecord(m, vertices, size, v, b)
    ensures forall w: nat :: MapSuperPartition(m, w) == superp && InRecord(m, vertices, size, w, b) ==> w == v
  {
    StateIsPacked(m, vertices, size, superp);
    var i := PartitionOfByte(m, vertices, size, superp, Pow2(m.partition), b);
    var start := Start(m, vertices, size, superp, i);
    var offset := RecordOfByte(size, MemberCount(m, vertices, superp, i), b - start);
    v := MapInverse(m, superp, i, offset);
    MapsOfInverse(m, superp, i, offset);
    StateCountIsCardinality(m, vertices, superp, i);
    StateCountThreshold(m, vertices, superp, i, offset);
    forall w: nat | MapSuperPartition(m, w) == superp && InRecord(m, vertices, size, w, b) && w != v
      ensures false
    {
      RecordsDisjoint(m, vertices, size, v, w);
    }
  }
}
