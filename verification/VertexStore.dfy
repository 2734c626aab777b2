/**
 Breadth-first search out of core: the superpartitions take turns in one state buffer, which is loaded before a gather
 and written back by changed sectors after the scatter (algorithms/bfs/bfs.hpp 69-73, 88-161, core/sg_driver.hpp
 746-893). However many supersteps are run, every superpartition's file holds what a run in memory would hold.
 */
module VertexStore {
  import opened FilteredScatter
  import opened DirtySectors
  import Bfs

  // ---------- the bytes of a bfs_vertex ----------

  type Byte = b: nat | b < 256

  const RECORD_BYTES: nat := 8
  const PHASE_LIMIT: nat := 0x8000_0000

  function Word(r: seq<Byte>, at: nat): (w: nat)
    requires at + 4 <= |r|
    ensures w < 0x1_0000_0000
  {
    var b0: nat, b1: nat, b2: nat, b3: nat := r[at], r[at + 1], r[at + 2], r[at + 3];
    b0 + 0x100 * b1 + 0x1_0000 * b2 + 0x100_0000 * b3
  }

  function WordBytes(w: nat): (r: seq<Byte>)
    ensures |r| == 4
  {
    [w % 0x100, w / 0x100 % 0x100, w / 0x1_0000 % 0x100, w / 0x100_0000 % 0x100]
  }

  /** The parent, 31 bits of phase, and the flag on top. */
  function Decode(r: seq<Byte>): (v: Vertex)
    requires |r| == RECORD_BYTES
  {
    var w := Word(r, 4);
    Vertex(Word(r, 0), if w < PHASE_LIMIT then w else w - PHASE_LIMIT, w >= PHASE_LIMIT)
  }

  function Encode(v: Vertex): (r: seq<Byte>)
    ensures |r| == RECORD_BYTES
  {
    WordBytes(v.parent) + WordBytes(v.phase + if v.changed then PHASE_LIMIT else 0)
  }

  lemma WordRoundTrip(w: nat)
    requires w < 0x1_0000_0000
    ensures Word(WordBytes(w), 0) == w
  {
    assert w == w % 0x100 + 0x100 * (w / 0x100);
    assert w / 0x1_0000 == w / 0x100 / 0x100 && w / 0x100_0000 == w / 0x1_0000 / 0x100;
  }

  /** Fields that fit their width come back. */
  lemma RecordRoundTrip(v: Vertex)
    requires v.parent < 0x1_0000_0000 && v.phase < PHASE_LIMIT
    ensures Decode(Encode(v)) == v
  {
    var low, high := WordBytes(v.parent), WordBytes(v.phase + if v.changed then PHASE_LIMIT else 0);
    WordRoundTrip(v.parent);
    WordRoundTrip(v.phase + if v.changed then PHASE_LIMIT else 0);
    assert Word(low + high, 0) == Word(low, 0) && Word(low + high, 4) == Word(high, 0);
  }

  /**
   The bytes of a record as x86 lays out the bit fields: the parent in the first four, lowest first, the phase in the
   next four but for the top bit of the last, which is the flag.
   */
  lemma RecordFields(r: seq<Byte>)
    requires |r| == RECORD_BYTES
    ensures Decode(r).parent == r[0] as int + 256 * r[1] as int + 65536 * r[2] as int + 16777216 * r[3] as int
    ensures Decode(r).phase == r[4] as int + 256 * r[5] as int + 65536 * r[6] as int + 16777216 * (r[7] % 128) as int
    ensures Decode(r).changed <==> r[7] >= 128
    ensures Encode(Decode(r)) == r
  {
    var v := Decode(r);
    DigitsBack(r, 0);
    DigitsBack(r, 4);
    assert v.phase + (if v.changed then PHASE_LIMIT else 0) == Word(r, 4);
    assert WordBytes(v.parent) == r[..4] && WordBytes(Word(r, 4)) == r[4..];
    assert r == r[..4] + r[4..];
  }

  lemma DigitsBack(r: seq<Byte>, at: nat)
    requires at + 4 <= |r|
    ensures WordBytes(Word(r, at)) == r[at..at + 4]
  {
    var b0: nat, b1: nat, b2: nat, b3: nat := r[at], r[at + 1], r[at + 2], r[at + 3];
    var w := Word(r, at);
    assert w / 0x100 == b1 + 0x100 * b2 + 0x1_0000 * b3;
    assert w / 0x1_0000 == b2 + 0x100 * b3;
    assert w / 0x100_0000 == b3;
  }

  predicate Changed(r: seq<Byte>) {
    |r| == RECORD_BYTES && r[7] >= 0x80
  }

  function Reset(r: seq<Byte>): seq<Byte> {
    if |r| == RECORD_BYTES && r[7] >= 0x80 then r[7 := r[7] - 0x80] else r
  }

  /** `check_reset_changed` finds the flag, and clears it and nothing else. */
  lemma FlagOfRecord(r: seq<Byte>)
    requires |r| == RECORD_BYTES
    ensures Changed(r) == Decode(r).changed && Decode(Reset(r)) == Decode(r).(changed := false)
  {
  }

  /** n records one after the other. */
  function BfsLayout(n: nat): Layout<Byte> {
    Layout(n, RECORD_BYTES, (v: nat) => RECORD_BYTES * v, (r: seq<Byte>) => Changed(r), (r: seq<Byte>) => Reset(r))
  }

  lemma LayoutFits(n: nat, len: nat)
    requires RECORD_BYTES * n <= len
    ensures Fits(BfsLayout(n), len)
  {
  }

  // ---------- what the buffer holds ----------

  function RecordAt(mem: seq<Byte>, v: nat): (r: seq<Byte>)
    requires RECORD_BYTES * v + RECORD_BYTES <= |mem|
    ensures |r| == RECORD_BYTES
  {
    mem[RECORD_BYTES * v..RECORD_BYTES * v + RECORD_BYTES]
  }

  /** Record v is in the eight bytes from 8 v on. */
  lemma FieldsInMemory(mem: seq<Byte>, v: nat, at: nat)
    requires at == 8 * v && at + 8 <= |mem|
    ensures Decode(RecordAt(mem, v)).parent ==
      mem[at] as int + 256 * mem[at + 1] as int + 65536 * mem[at + 2] as int + 16777216 * mem[at + 3] as int
    ensures Decode(RecordAt(mem, v)).phase ==
      mem[at + 4] as int + 256 * mem[at + 5] as int + 65536 * mem[at + 6] as int +
      16777216 * (mem[at + 7] % 128) as int
    ensures Decode(RecordAt(mem, v)).changed <==> mem[at + 7] >= 128
  {
    RecordFields(RecordAt(mem, v));
  }

  predicate RecordIs(mem: seq<Byte>, v: nat, vertex: Vertex) {
    RECORD_BYTES * v + RECORD_BYTES <= |mem| && Decode(RecordAt(mem, v)) == vertex
  }

  ghost predicate HoldsState(mem: seq<Byte>, state: seq<Vertex>) {
    forall v: nat :: v < |state| ==> RecordIs(mem, v, state[v])
  }

  /** Every record that is not flagged is on disk as in memory. */
  ghost predicate Pending(disk: seq<Byte>, mem: seq<Byte>, n: nat) {
    && |disk| == |mem| && RECORD_BYTES * n <= |mem|
    && forall v: nat :: v < n ==> Changed(RecordAt(mem, v)) || RecordAt(mem, v) == RecordAt(disk, v)
  }

  /** Only record v has been written. */
  ghost predicate OnlyRecord(before: seq<Byte>, mem: seq<Byte>, v: nat) {
    && |before| == |mem|
    && forall k: nat :: k < |mem| && !(RECORD_BYTES * v <= k < RECORD_BYTES * v + RECORD_BYTES) ==> mem[k] == before[k]
  }

  lemma OtherRecordSame(before: seq<Byte>, mem: seq<Byte>, v: nat, w: nat)
    requires OnlyRecord(before, mem, v) && v != w && RECORD_BYTES * w + RECORD_BYTES <= |mem|
    ensures RecordAt(mem, w) == RecordAt(before, w)
  {
    forall k: nat | k < RECORD_BYTES
      ensures RecordAt(mem, w)[k] == RecordAt(before, w)[k]
    {
      assert mem[RECORD_BYTES * w + k] == before[RECORD_BYTES * w + k];
    }
  }

  method WriteRecord(mem: array<Byte>, v: nat, vertex: Vertex)
    requires RECORD_BYTES * v + RECORD_BYTES <= mem.Length
    requires vertex.parent < 0x1_0000_0000 && vertex.phase < PHASE_LIMIT
    modifies mem
    ensures OnlyRecord(old(mem[..]), mem[..], v) && RecordIs(mem[..], v, vertex)
  {
    var r := Encode(vertex);
    forall i | 0 <= i < RECORD_BYTES {
      mem[RECORD_BYTES * v + i] := r[i];
    }
    assert RecordAt(mem[..], v) == r;
    RecordRoundTrip(vertex);
  }

  method ReadRecord(mem: array<Byte>, v: nat) returns (vertex: Vertex)
    requires RECORD_BYTES * v + RECORD_BYTES <= mem.Length
    ensures RecordIs(mem[..], v, vertex) && vertex.parent < 0x1_0000_0000 && vertex.phase < PHASE_LIMIT
  {
    var r := mem[RECORD_BYTES * v..RECORD_BYTES * v + RECORD_BYTES];
    assert r == RecordAt(mem[..], v);
    vertex := Decode(r);
  }

  /** A flagged record that was written keeps the rest, and the state follows. */
  lemma Written(disk: seq<Byte>, before: seq<Byte>, mem: seq<Byte>, state: seq<Vertex>, v: nat, vertex: Vertex)
    requires Pending(disk, before, |state|) && HoldsState(before, state) && v < |state|
    requires OnlyRecord(before, mem, v) && RecordIs(mem, v, vertex) && vertex.changed
    ensures Pending(disk, mem, |state|) && HoldsState(mem, state[v := vertex])
  {
    FlagOfRecord(RecordAt(mem, v));
    forall w: nat | w < |state|
      ensures RecordIs(mem, w, state[v := vertex][w])
      ensures Changed(RecordAt(mem, w)) || RecordAt(mem, w) == RecordAt(disk, w)
    {
      assert RecordIs(before, w, state[w]);
      if w != v {
        OtherRecordSame(before, mem, v, w);
      }
    }
  }

  // ---------- the run in memory ----------

  /** `init`: the phase of a vertex that is not the root is left as it was. */
  function Initial(root: nat, at: nat, v: nat, was: Vertex): Vertex {
    if v == at then Vertex(root, 0, true) else Vertex(NONE, was.phase, true)
  }

  function InitialState(root: nat, at: nat, was: seq<Vertex>): (state: seq<Vertex>)
    ensures |state| == |was| && forall v: nat :: v < |was| ==> state[v] == Initial(root, at, v, was[v])
  {
    seq(|was|, v requires 0 <= v < |was| => Initial(root, at, v, was[v]))
  }

  /** Updates as they fit their stream and the superpartition. */
  predicate UpdatesFit(us: seq<Update>, n: nat) {
    forall k: nat :: k < |us| ==> us[k].child < n && us[k].parent < 0x1_0000_0000
  }

  /** The gather of one phase; the phase is kept in 31 bits. */
  ghost function Gathered(state: seq<Vertex>, us: seq<Update>, phase: nat): (after: seq<Vertex>)
    requires UpdatesFit(us, |state|)
    ensures |after| == |state|
  {
    if us == [] then state
    else Bfs.Apply(Gathered(state, us[..|us| - 1], phase), us[|us| - 1], phase % PHASE_LIMIT)
  }

  /** What one superpartition is: its size, and where in it the root is, if there at all. */
  datatype Part = Part(n: nat, root: nat, at: nat)

  /** The state of a superpartition after phases 0 to p, all in memory and no flag ever reset. */
  ghost function InMemory(part: Part, was: seq<Vertex>, us: nat -> seq<Update>, p: nat): (state: seq<Vertex>)
    requires |was| == part.n && forall q: nat :: UpdatesFit(us(q), part.n)
    ensures |state| == part.n
  {
    Gathered(if p == 0 then InitialState(part.root, part.at, was) else InMemory(part, was, us, p - 1), us(p), p)
  }

  /** All flags reset. */
  function Cleared(state: seq<Vertex>): (after: seq<Vertex>)
    ensures |after| == |state| && forall v: nat :: v < |state| ==> after[v] == state[v].(changed := false)
  {
    seq(|state|, v requires 0 <= v < |state| => state[v].(changed := false))
  }

  /** The flags have no influence on parents and phases. */
  lemma {:induction false} FlagsDoNotMatter(state: seq<Vertex>, us: seq<Update>, phase: nat)
    requires UpdatesFit(us, |state|)
    ensures Cleared(Gathered(Cleared(state), us, phase)) == Cleared(Gathered(state, us, phase))
  {
    if us != [] {
      FlagsDoNotMatter(state, us[..|us| - 1], phase);
      var a, b := Gathered(Cleared(state), us[..|us| - 1], phase), Gathered(state, us[..|us| - 1], phase);
      assert Cleared(a) == Cleared(b);
      var u := us[|us| - 1];
      assert Cleared(a)[u.child] == Cleared(b)[u.child];
      forall v: nat | v < |state|
        ensures Cleared(Bfs.Apply(a, u, phase % PHASE_LIMIT))[v] == Cleared(Bfs.Apply(b, u, phase % PHASE_LIMIT))[v]
      {
        assert Cleared(a)[v] == Cleared(b)[v];
      }
    }
  }

  // ---------- one superstep of one superpartition ----------

  /** The root's record names the root and phase 0, any other record has a parent of all ones; all are flagged. */
  predicate InitRecord(r: seq<Byte>, isRoot: bool, root: nat)
    requires |r| == RECORD_BYTES
  {
    && (isRoot ==> Decode(r).parent == root && Decode(r).phase == 0)
    && (!isRoot ==> r[0] == 255 && r[1] == 255 && r[2] == 255 && r[3] == 255)
    && r[7] >= 128
  }

  lemma InitialIsInitRecord(mem: seq<Byte>, root: nat, at: nat, was: Vertex, v: nat)
    requires RecordIs(mem, v, Initial(root, at, v, was))
    ensures InitRecord(RecordAt(mem, v), v == at, root)
  {
    var r := RecordAt(mem, v);
    RecordFields(r);
  }

  /** `init` for every record. */
  method Init(mem: array<Byte>, part: Part) returns (ghost was: seq<Vertex>)
    requires RECORD_BYTES * part.n <= mem.Length && part.root < 0x1_0000_0000
    modifies mem
    ensures |was| == part.n && HoldsState(mem[..], InitialState(part.root, part.at, was))
    ensures forall v: nat :: v < part.n ==> InitRecord(RecordAt(mem[..], v), v == part.at, part.root)
    ensures forall disk: seq<Byte> :: |disk| == mem.Length ==> Pending(disk, mem[..], part.n)
  {
    was := [];
    var v := 0;
    while v < part.n
      invariant 0 <= v <= part.n && |was| == v && HoldsState(mem[..], InitialState(part.root, part.at, was))
    {
      var old' := ReadRecord(mem, v);
      ghost var before := mem[..];
      WriteRecord(mem, v, Initial(part.root, part.at, v, old'));
      was := was + [old'];
      forall w: nat | w < v
        ensures RecordIs(mem[..], w, InitialState(part.root, part.at, was)[w])
      {
        assert RecordIs(before, w, InitialState(part.root, part.at, was[..v])[w]);
        OtherRecordSame(before, mem[..], v, w);
      }
      v := v + 1;
    }
    forall w: nat | w < part.n
      ensures Changed(RecordAt(mem[..], w)) && InitRecord(RecordAt(mem[..], w), w == part.at, part.root)
    {
      assert RecordIs(mem[..], w, InitialState(part.root, part.at, was)[w]);
      FlagOfRecord(RecordAt(mem[..], w));
      InitialIsInitRecord(mem[..], part.root, part.at, was[w], w);
    }
  }

  /** `apply_one_update` on the bytes: what it changes it flags. */
  method ApplyUpdate(mem: array<Byte>, u: Update, phase: nat, ghost disk: seq<Byte>, ghost state: seq<Vertex>)
    requires Pending(disk, mem[..], |state|) && HoldsState(mem[..], state)
    requires u.child < |state| && u.parent < 0x1_0000_0000
    modifies mem
    ensures Pending(disk, mem[..], |state|) && HoldsState(mem[..], Bfs.Apply(state, u, phase % PHASE_LIMIT))
  {
    assert RecordIs(mem[..], u.child, state[u.child]);
    var v := ReadRecord(mem, u.child);
    if v.parent == NONE {
      ghost var before := mem[..];
      WriteRecord(mem, u.child, Vertex(u.parent, phase % PHASE_LIMIT, true));
      Written(disk, before, mem[..], state, u.child, Vertex(u.parent, phase % PHASE_LIMIT, true));
    }
  }

  method Gather(mem: array<Byte>, us: seq<Update>, phase: nat, ghost disk: seq<Byte>, ghost state: seq<Vertex>)
    requires Pending(disk, mem[..], |state|) && HoldsState(mem[..], state) && UpdatesFit(us, |state|)
    modifies mem
    ensures Pending(disk, mem[..], |state|) && HoldsState(mem[..], Gathered(state, us, phase))
  {
    var k := 0;
    while k < |us|
      invariant 0 <= k <= |us| && Pending(disk, mem[..], |state|)
      invariant HoldsState(mem[..], Gathered(state, us[..k], phase))
    {
      ApplyUpdate(mem, us[k], phase, disk, Gathered(state, us[..k], phase));
      assert us[..k + 1][..k] == us[..k];
      k := k + 1;
    }
    assert us[..k] == us;
  }

  /** `read_one_shot`. */
  method Load(mem: array<Byte>, disk: seq<Byte>)
    requires |disk| == mem.Length
    modifies mem
    ensures mem[..] == disk
  {
    forall k | 0 <= k < mem.Length {
      mem[k] := disk[k];
    }
  }

  /** The buffers of the engine, and how the vertices of a superpartition are dealt out to the processors. */
  datatype Engine = Engine(mem: array<Byte>, bitset: array<bv8>, owner: nat -> nat, processors: nat)

  /** The buffer has room for the superpartition, the bitset for the buffer, and the file is as long as the buffer. */
  ghost predicate Roomy(e: Engine, stream: StateStream<Byte>, n: nat)
    reads stream
  {
    && RECORD_BYTES * n <= e.mem.Length && 0 < e.mem.Length <= SECTOR * (8 * e.bitset.Length)
    && e.mem as object != e.bitset && stream as object != e.mem && stream as object != e.bitset
    && |stream.disk| == e.mem.Length && stream.numSubreq > 0
    && forall v: nat :: v < n ==> e.owner(v) < e.processors
  }

  /** What `state_store` needs, and what it leaves, in terms of records. */
  method Store(e: Engine, stream: StateStream<Byte>, n: nat, ghost state: seq<Vertex>)
    requires n == |state| && Roomy(e, stream, |state|) && Pending(stream.disk, e.mem[..], |state|) &&
      HoldsState(e.mem[..], state)
    modifies stream`disk, e.mem, e.bitset
    ensures Roomy(e, stream, n) && Synced(stream.disk, e.mem[..], n)
    ensures HoldsState(stream.disk, Cleared(state)) && HoldsState(e.mem[..], Cleared(state))
  {
    ghost var before := e.mem[..];
    var l := BfsLayout(n);
    LayoutFits(n, e.mem.Length);
    PendingIsSync(stream.disk, before, n);
    StateStore(stream, l, e.mem, e.bitset, e.owner, e.processors);
    forall v: nat | v < n
      ensures RecordIs(e.mem[..], v, Cleared(state)[v]) && RecordIs(stream.disk, v, Cleared(state)[v])
    {
      StoredRecord(stream.disk, before, e.mem[..], e.bitset[..], n, v, state[v]);
    }
  }

  /** The records that are not flagged are on disk as they are in memory. */
  lemma PendingIsSync(disk: seq<Byte>, mem: seq<Byte>, n: nat)
    requires Pending(disk, mem, n)
    ensures forall v: nat :: v < n && !BfsLayout(n).changed(Record(BfsLayout(n), mem, v)) ==>
      InSync(BfsLayout(n), disk, mem, v)
  {
    var l := BfsLayout(n);
    LayoutFits(n, |mem|);
    forall v: nat | v < n && Record(l, mem, v) != Record(l, disk, v)
      ensures l.changed(Record(l, mem, v))
    {
      assert Record(l, mem, v) == RecordAt(mem, v) && Record(l, disk, v) == RecordAt(disk, v);
    }
    TouchedRecordsAreFlagged(l, disk, disk, mem);
  }

  /** Every record is on disk as it is in memory. */
  ghost predicate Synced(disk: seq<Byte>, mem: seq<Byte>, n: nat) {
    forall v: nat :: v < n ==> InSync(BfsLayout(n), disk, mem, v)
  }

  lemma StoredRecord(disk: seq<Byte>, before: seq<Byte>, mem: seq<Byte>, bitset: seq<bv8>, n: nat, v: nat,
                     vertex: Vertex)
    requires RECORD_BYTES * n <= |before| == |mem| == |disk| && v < n && RecordIs(before, v, vertex)
    requires InSync(BfsLayout(n), disk, mem, v) && Done(BfsLayout(n), before, mem, bitset, v)
    ensures RecordIs(mem, v, vertex.(changed := false)) && RecordIs(disk, v, vertex.(changed := false))
  {
    FlagOfRecord(RecordAt(before, v));
    assert Record(BfsLayout(n), before, v) == RecordAt(before, v) && Record(BfsLayout(n), mem, v) == RecordAt(mem, v);
    assert RecordAt(disk, v) == RecordAt(mem, v);
  }

  /** A buffer just loaded has nothing to be stored. */
  lemma LoadedIsPending(disk: seq<Byte>, n: nat)
    requires RECORD_BYTES * n <= |disk|
    ensures Pending(disk, disk, n)
  {
  }

  /**
   One superstep of one superpartition: load, gather, and after the scatter, which changes no record, reset the flags
   and store the sectors they mark. In phase 0 the records are initialised instead of loaded.
   */
  method Superstep(e: Engine, stream: StateStream<Byte>, part: Part, us: seq<Update>, phase: nat,
                   ghost state: seq<Vertex>)
    returns (ghost after: seq<Vertex>, ghost was: seq<Vertex>)
    requires Roomy(e, stream, part.n) && UpdatesFit(us, part.n) && part.root < 0x1_0000_0000
    requires phase > 0 ==> |state| == part.n && HoldsState(stream.disk, Cleared(state))
    modifies stream`disk, e.mem, e.bitset
    ensures Roomy(e, stream, part.n) && Synced(stream.disk, e.mem[..], part.n)
    ensures HoldsState(stream.disk, Cleared(after)) && HoldsState(e.mem[..], Cleared(after)) && |was| == part.n
    ensures after == Gathered(if phase == 0 then InitialState(part.root, part.at, was) else state, us, phase)
  {
    ghost var from: seq<Vertex>;
    if phase > 0 {
      Load(e.mem, stream.disk);
      LoadedIsPending(stream.disk, part.n);
      from, was := Cleared(state), state;
      after := Gathered(state, us, phase);
      FlagsDoNotMatter(state, us, phase);
    } else {
      was := Init(e.mem, part);
      from := InitialState(part.root, part.at, was);
      after := Gathered(from, us, phase);
    }
    Gather(e.mem, us, phase, stream.disk, from);
    Store(e, stream, part.n, Gathered(from, us, phase));
  }

  // ---------- the run out of core ----------

  /** The superpartitions, their files, and the updates each gathers in each phase: us(phase, i). */
  ghost predicate Together(e: Engine, streams: seq<StateStream<Byte>>, parts: seq<Part>, us: (nat, nat) -> seq<Update>)
    reads streams
  {
    && |streams| == |parts| && (forall i: nat, j: nat :: i < j < |streams| ==> streams[i] != streams[j])
    && (forall i: nat :: i < |streams| ==> Roomy(e, streams[i], parts[i].n) && parts[i].root < 0x1_0000_0000)
    && forall p: nat, i: nat :: i < |parts| ==> UpdatesFit(us(p, i), parts[i].n)
  }

  /** The file of superpartition i holds what a run in memory would hold after phase p, its flags reset. */
  ghost predicate StoredAfter(stream: StateStream<Byte>, part: Part, was: seq<Vertex>, us: nat -> seq<Update>, p: nat)
    reads stream
  {
    && |was| == part.n && (forall q: nat :: UpdatesFit(us(q), part.n))
    && HoldsState(stream.disk, Cleared(InMemory(part, was, us, p)))
  }

  /** The updates of superpartition i. */
  function UpdatesOf(us: (nat, nat) -> seq<Update>, i: nat): nat -> seq<Update> {
    (p: nat) => us(p, i)
  }

  /** Superpartition i in phase p. */
  method Turn(e: Engine, streams: seq<StateStream<Byte>>, parts: seq<Part>, us: (nat, nat) -> seq<Update>, p: nat,
              i: nat,
              ghost before: seq<Vertex>) returns (ghost was: seq<Vertex>)
    requires Together(e, streams, parts, us) && i < |parts|
    requires p > 0 ==> StoredAfter(streams[i], parts[i], before, UpdatesOf(us, i), p - 1)
    modifies streams, e.mem, e.bitset
    ensures Together(e, streams, parts, us) && StoredAfter(streams[i], parts[i], was, UpdatesOf(us, i), p)
    ensures p > 0 ==> was == before
    ensures forall j: nat :: j < |streams| && j != i ==> streams[j].disk == old(streams[j].disk)
  {
    ghost var mine, part := UpdatesOf(us, i), parts[i];
    assert forall q: nat :: mine(q) == us(q, i);
    ghost var state := if p > 0 then InMemory(part, before, mine, p - 1) else [];
    ghost var after, first := Superstep(e, streams[i], parts[i], us(p, i), p, state);
    was := if p > 0 then before else first;
    assert after == InMemory(part, was, mine, p);
  }

  /** In phase p the superpartitions below i have had their turn. */
  ghost predicate Underway(streams: seq<StateStream<Byte>>, parts: seq<Part>, was: seq<seq<Vertex>>,
                           us: (nat, nat) -> seq<Update>,
                           p: nat, i: nat)
    requires |streams| == |parts|
    reads streams
  {
    && |was| == |parts|
    && forall j: nat :: j < |parts| ==>
      && (j < i ==> StoredAfter(streams[j], parts[j], was[j], UpdatesOf(us, j), p))
      && (j >= i && p > 0 ==> StoredAfter(streams[j], parts[j], was[j], UpdatesOf(us, j), p - 1))
  }

  method Phase(e: Engine, streams: seq<StateStream<Byte>>, parts: seq<Part>, us: (nat, nat) -> seq<Update>, p: nat,
               ghost was: seq<seq<Vertex>>) returns (ghost was': seq<seq<Vertex>>)
    requires Together(e, streams, parts, us) && Underway(streams, parts, was, us, p, 0)
    modifies streams, e.mem, e.bitset
    ensures Together(e, streams, parts, us) && Underway(streams, parts, was', us, p, |parts|)
  {
    was' := was;
    var i := 0;
    while i < |parts|
      invariant 0 <= i <= |parts| && Together(e, streams, parts, us) && Underway(streams, parts, was', us, p, i)
    {
      ghost var mine := Turn(e, streams, parts, us, p, i, was'[i]);
      was' := was'[i := mine];
      i := i + 1;
    }
  }

  /**
   Any number of supersteps over all superpartitions, one buffer for all of them: after each the file of every
   superpartition holds the state of a run that keeps all its vertices in memory, except that the flags are reset.
   */
  method Run(e: Engine, streams: seq<StateStream<Byte>>, parts: seq<Part>, us: (nat, nat) -> seq<Update>, phases: nat)
    returns (ghost was: seq<seq<Vertex>>)
    requires Together(e, streams, parts, us)
    modifies streams, e.mem, e.bitset
    ensures |was| == |parts| && Together(e, streams, parts, us)
    ensures phases > 0 ==> forall i: nat :: i < |parts| ==>
      StoredAfter(streams[i], parts[i], was[i], UpdatesOf(us, i), phases - 1)
  {
    was := seq(|parts|, i => []);
    var p := 0;
    while p < phases
      invariant 0 <= p <= phases && Together(e, streams, parts, us) && Underway(streams, parts, was, us, p, 0)
    {
      was := Phase(e, streams, parts, us, p, was);
      p := p + 1;
    }
  }
}
