/**
 What the files of the superpartitions hold after any number of supersteps is the breadth-first search of module Bfs:
 the vertices are dealt out to superpartitions, every superpartition gathers the updates for its own vertices, and
 together the records are the levels of the search (algorithms/bfs/bfs.hpp 88-141, core/sg_driver.hpp 746-893).
 */
module OutOfCoreSearch {
  import opened DirtySectors
  import opened FilteredScatter
  import opened VertexStore
  import opened Bfs

  // ---------- where the vertices live ----------

  /** Superpartition and record of a vertex. */
  datatype Place = Place(part: nat, at: nat)

  /**
   A search over several superpartitions: where its n vertices live, what their records held before it, its edges, and
   the updates us(p, i) that superpartition i gathers in phase p.
   */
  datatype Job = Job(
    parts: seq<Part>,
    place: nat -> Place,
    root: nat,
    n: nat,
    was: seq<seq<Vertex>>,
    edges: seq<Edge>,
    us: (nat, nat) -> seq<Update>)

  /** Each vertex has a record of its own; the root's, if there, is the one `init` starts from. */
  ghost predicate Placed(j: Job) {
    && (forall v: nat :: v < j.n ==> j.place(v).part < |j.parts| && j.place(v).at < j.parts[j.place(v).part].n)
    && (forall v: nat, w: nat :: v < j.n && w < j.n && j.place(v) == j.place(w) ==> v == w)
    && (forall i: nat :: i < |j.parts| ==> j.parts[i].root == j.root)
    && (forall v: nat :: v < j.n ==> (j.place(v).at == j.parts[j.place(v).part].at <==> v == j.root))
  }

  ghost predicate Sized(j: Job) {
    && |j.was| == |j.parts|
    && (forall i: nat :: i < |j.parts| ==> |j.was[i]| == j.parts[i].n)
    && forall p: nat, i: nat :: i < |j.parts| ==> UpdatesFit(j.us(p, i), j.parts[i].n)
  }

  /** Vertices are numbered below 2^31, and edges lead from one to another. */
  ghost predicate Searchable(j: Job) {
    Placed(j) && Sized(j) && j.n <= PHASE_LIMIT && EdgesInRange(j.edges, j.n)
  }

  /** The state of superpartition i after phase p, had it been kept in memory. */
  ghost function PartAfter(j: Job, i: nat, p: nat): (state: seq<Vertex>)
    requires Sized(j) && i < |j.parts|
    ensures |state| == j.parts[i].n
  {
    InMemory(j.parts[i], j.was[i], UpdatesOf(j.us, i), p)
  }

  /** All of them together, vertex by vertex. */
  ghost function WholeAfter(j: Job, p: nat): (state: seq<Vertex>)
    requires Placed(j) && Sized(j)
    ensures |state| == j.n
    ensures forall v: nat :: v < j.n ==> state[v] == PartAfter(j, j.place(v).part, p)[j.place(v).at]
  {
    seq(j.n, v requires 0 <= v < j.n && Placed(j) && Sized(j) => PartAfter(j, j.place(v).part, p)[j.place(v).at])
  }

  /**
   Phase p + 1 gathers, in each superpartition, the updates over the edges out of level p to its own vertices, in any
   order and as often as there are such edges.
   */
  ghost predicate DeliveredIn(j: Job, p: nat)
    requires Placed(j) && Sized(j)
  {
    var state := WholeAfter(j, p);
    && (forall i: nat, u: Update :: i < |j.parts| && u in j.us(p + 1, i) ==>
          exists v: nat :: v < j.n && j.place(v) == Place(i, u.child) &&
            FromLevel(state, j.edges, p, Update(u.parent, v)))
    && forall v: nat, parent: nat :: v < j.n && FromLevel(state, j.edges, p, Update(parent, v)) ==>
         Update(parent, j.place(v).at) in j.us(p + 1, j.place(v).part)
  }

  /** What the shuffle delivers; phase 0 gathers nothing. */
  ghost predicate Delivered(j: Job)
    requires Placed(j) && Sized(j)
  {
    && (forall i: nat :: i < |j.parts| ==> j.us(0, i) == [])
    && forall p: nat :: DeliveredIn(j, p)
  }

  // ---------- what a gather does to a record ----------

  /** Update k is the first one for record v. */
  predicate FirstFor(us: seq<Update>, v: nat, k: nat) {
    && k < |us| && us[k].child == v
    && forall j: nat :: j < k ==> us[j].child != v
  }

  /** A record that was reached, or is not updated, is kept; any other takes the first update that reaches it. */
  lemma {:induction false} GatheredAt(state: seq<Vertex>, us: seq<Update>, phase: nat, v: nat)
    requires UpdatesFit(us, |state|) && v < |state|
    requires forall k: nat :: k < |us| ==> us[k].parent != NONE
    ensures state[v].parent != NONE || (forall k: nat :: k < |us| ==> us[k].child != v) ==>
              Gathered(state, us, phase)[v] == state[v]
    ensures forall k: nat :: state[v].parent == NONE && FirstFor(us, v, k) ==>
              Gathered(state, us, phase)[v] == Vertex(us[k].parent, phase % PHASE_LIMIT, true)
  {
    if us != [] {
      var n := |us| - 1;
      var before := us[..n];
      GatheredAt(state, before, phase, v);
      forall k: nat | state[v].parent == NONE && FirstFor(us, v, k)
        ensures Gathered(state, us, phase)[v] == Vertex(us[k].parent, phase % PHASE_LIMIT, true)
      {
        if k < n {
          assert FirstFor(before, v, k);
        }
      }
    }
  }

  lemma FirstExists(us: seq<Update>, v: nat, j: nat) returns (k: nat)
    requires j < |us| && us[j].child == v
    ensures FirstFor(us, v, k)
  {
    k := 0;
    while us[k].child != v
      invariant k <= j && forall i: nat :: i < k ==> us[i].child != v
      decreases j - k
    {
      k := k + 1;
    }
  }

  // ---------- distances fit the phase ----------

  /** A vertex at distance k has one at every distance before it. */
  lemma {:induction false} LevelsBefore(edges: seq<Edge>, root: nat, n: nat, v: nat, k: nat)
    requires AtDistance(edges, root, n, v, k)
    ensures |Within(edges, root, n, k)| >= k + 1
    decreases k
  {
    if k > 0 {
      var e :| e in edges && e.src != NONE && e.src in Within(edges, root, n, k - 1) && e.dst == v;
      SourceIsNew(edges, root, n, k - 1, e);
      LevelsBefore(edges, root, n, e.src, k - 1);
      SizeOfSubset(Within(edges, root, n, k - 1) + {v}, Within(edges, root, n, k));
    }
  }

  lemma DistanceBelow(edges: seq<Edge>, root: nat, n: nat, v: nat, k: nat)
    requires AtDistance(edges, root, n, v, k) && EdgesInRange(edges, n)
    ensures k < n
  {
    LevelsBefore(edges, root, n, v, k);
    WithinInRange(edges, root, n, k);
    SizeOfRange(Within(edges, root, n, k), n);
  }

  // ---------- one superstep of all superpartitions ----------

  /** The updates over the edges out of level p, as a list. */
  lemma {:induction false} UpdateList(state: seq<Vertex>, edges: seq<Edge>, p: nat) returns (done: seq<Update>)
    ensures forall u: Update :: u in done <==> FromLevel(state, edges, p, u)
  {
    done := [];
    var i := 0;
    while i < |edges|
      invariant i <= |edges|
      invariant forall u: Update :: u in done <==>
        Active(state, p, u.parent) && u.parent != NONE && Edge(u.parent, u.child) in edges[..i]
    {
      var e := edges[i];
      assert edges[..i + 1] == edges[..i] + [e];
      assert forall u: Update :: Edge(u.parent, u.child) == e <==> u == Update(e.src, e.dst);
      if Active(state, p, e.src) && e.src != NONE {
        done := done + [Update(e.src, e.dst)];
      }
      i := i + 1;
    }
    assert edges[..i] == edges;
  }

  /** Vertex v is kept, without an update to reach it, or reached by one. */
  ghost predicate Stepped(before: seq<Vertex>, state: seq<Vertex>, edges: seq<Edge>, p: nat, v: nat)
    requires v < |before| == |state|
  {
    || (state[v] == before[v] &&
        (Reached(before, v) || forall parent: nat :: !FromLevel(before, edges, p, Update(parent, v))))
    || (!Reached(before, v) && state[v].parent != NONE && state[v].phase == (p + 1) % PHASE_LIMIT &&
        FromLevel(before, edges, p, Update(state[v].parent, v)))
  }

  /** What superpartition i gathers in phase p + 1 comes from level p; an update for the record of v is one for v. */
  lemma UpdateFor(j: Job, p: nat, i: nat, k: nat, v: nat)
    requires Placed(j) && Sized(j) && DeliveredIn(j, p) && i < |j.parts| && k < |j.us(p + 1, i)| && v < j.n
    ensures j.us(p + 1, i)[k].parent != NONE
    ensures j.place(v) == Place(i, j.us(p + 1, i)[k].child) ==>
              FromLevel(WholeAfter(j, p), j.edges, p, Update(j.us(p + 1, i)[k].parent, v))
  {
    var u := j.us(p + 1, i)[k];
    assert u in j.us(p + 1, i);
    var w: nat :| w < j.n && j.place(w) == Place(i, u.child) &&
      FromLevel(WholeAfter(j, p), j.edges, p, Update(u.parent, w));
  }

  /** What the gather of phase p + 1 does to vertex v, wherever it lives. */
  lemma VertexStep(j: Job, p: nat, v: nat)
    requires Placed(j) && Sized(j) && v < j.n && DeliveredIn(j, p)
    ensures Stepped(WholeAfter(j, p), WholeAfter(j, p + 1), j.edges, p, v)
  {
    var i, at := j.place(v).part, j.place(v).at;
    var mine, was := j.us(p + 1, i), PartAfter(j, i, p);
    var before := WholeAfter(j, p);
    assert UpdatesOf(j.us, i)(p + 1) == mine;
    assert PartAfter(j, i, p + 1) == Gathered(was, mine, p + 1);
    forall k: nat | k < |mine|
      ensures mine[k].parent != NONE
      ensures mine[k].child == at ==> FromLevel(before, j.edges, p, Update(mine[k].parent, v))
    {
      UpdateFor(j, p, i, k, v);
    }
    GatheredAt(was, mine, p + 1, at);
    if !Reached(before, v) {
      if k: nat :| k < |mine| && mine[k].child == at {
        var first := FirstExists(mine, at, k);
      } else {
        forall parent: nat
          ensures !FromLevel(before, j.edges, p, Update(parent, v))
        {
          assert Update(parent, at) !in mine;
        }
      }
    }
  }

  /** A vertex reached in phase p + 1 is one hop further than the level before, and its phase fits 31 bits. */
  lemma ReachedInPhase(before: seq<Vertex>, edges: seq<Edge>, root: nat, p: nat, u: Update)
    requires Levels(before, edges, root, p) && EdgesInRange(edges, |before|) && |before| <= PHASE_LIMIT
    requires FromLevel(before, edges, p, u) && u.child < |before| && !Reached(before, u.child)
    ensures (p + 1) % PHASE_LIMIT == p + 1
  {
    UpdateLeadsOn(before, edges, root, p, u);
    DistanceBelow(edges, root, |before|, u.child, p + 1);
  }

  lemma SteppedIsGathering(before: seq<Vertex>, state: seq<Vertex>, edges: seq<Edge>, root: nat, p: nat,
                           done: seq<Update>)
    requires Levels(before, edges, root, p) && EdgesInRange(edges, |before|) && |state| == |before| <= PHASE_LIMIT
    requires forall u: Update :: u in done <==> FromLevel(before, edges, p, u)
    requires forall v: nat :: v < |state| ==> Stepped(before, state, edges, p, v)
    ensures Gathering(before, state, edges, root, p, done)
  {
    forall v: nat | v < |state|
      ensures Reached(before, v) ==> state[v] == before[v]
      ensures !Reached(before, v) ==> (Reached(state, v) <==> exists u :: u in done && u.child == v)
      ensures Reached(state, v) && !Reached(before, v) ==>
                state[v].phase == p + 1 && FromLevel(before, edges, p, Update(state[v].parent, v))
    {
      assert Stepped(before, state, edges, p, v);
      if Reached(state, v) && !Reached(before, v) {
        assert Update(state[v].parent, v) in done;
        ReachedInPhase(before, edges, root, p, Update(state[v].parent, v));
      } else if u :| u in done && u.child == v {
        assert u == Update(u.parent, v);
      }
    }
  }

  /** A superstep of all superpartitions completes the next level. */
  lemma SuperstepIsNextLevel(j: Job, p: nat, next: nat)
    requires Searchable(j) && Delivered(j) && Levels(WholeAfter(j, p), j.edges, j.root, p) && next == p + 1
    ensures Levels(WholeAfter(j, next), j.edges, j.root, next)
  {
    var before, state := WholeAfter(j, p), WholeAfter(j, p + 1);
    var done := UpdateList(before, j.edges, p);
    assert DeliveredIn(j, p);
    forall v: nat | v < j.n
      ensures Stepped(before, state, j.edges, p, v)
    {
      VertexStep(j, p, v);
    }
    SteppedIsGathering(before, state, j.edges, j.root, p, done);
    GatheredIsNextLevel(before, state, j.edges, j.root, p, done);
  }

  /** When the root has itself as parent and phase 0, and nobody else a parent, the search has its first level. */
  lemma RootIsFirstLevel(state: seq<Vertex>, edges: seq<Edge>, root: nat)
    requires |state| <= PHASE_LIMIT
    requires forall v: nat :: v < |state| ==>
               if v == root then state[v].parent == root && state[v].phase == 0 else state[v].parent == NONE
    ensures Levels(state, edges, root, 0)
  {
    forall v: nat | Reached(state, v)
      ensures state[v].phase <= 0 && WellReached(state, edges, root, v)
    {
      assert v == root;
    }
  }

  /** After `init` only the root is reached. */
  lemma InitIsFirstLevel(j: Job)
    requires Searchable(j) && forall i: nat :: i < |j.parts| ==> j.us(0, i) == []
    ensures Levels(WholeAfter(j, 0), j.edges, j.root, 0)
  {
    var state := WholeAfter(j, 0);
    forall v: nat | v < j.n
      ensures if v == j.root then state[v].parent == j.root && state[v].phase == 0 else state[v].parent == NONE
    {
      var i := j.place(v).part;
      assert UpdatesOf(j.us, i)(0) == [];
      assert PartAfter(j, i, 0) == InitialState(j.root, j.parts[i].at, j.was[i]);
    }
    RootIsFirstLevel(state, j.edges, j.root);
  }

  /** After every phase the records of all superpartitions together are the levels of the search. */
  lemma {:induction false} InMemoryIsSearch(j: Job, p: nat)
    requires Searchable(j) && Delivered(j)
    ensures Levels(WholeAfter(j, p), j.edges, j.root, p)
  {
    if p == 0 {
      InitIsFirstLevel(j);
    } else {
      var q := p - 1;
      InMemoryIsSearch(j, q);
      SuperstepIsNextLevel(j, q, p);
    }
  }

  /** One superpartition, in which record v is vertex v. */
  function OneJob(part: Part, was: seq<Vertex>, us: nat -> seq<Update>, edges: seq<Edge>): Job {
    Job([part], (v: nat) => Place(0, v), part.root, part.n, [was], edges, (q: nat, i: nat) => us(q))
  }

  lemma OneWhole(part: Part, was: seq<Vertex>, us: nat -> seq<Update>, edges: seq<Edge>, q: nat)
    requires |was| == part.n && part.at == part.root && forall q: nat :: UpdatesFit(us(q), part.n)
    ensures Placed(OneJob(part, was, us, edges)) && Sized(OneJob(part, was, us, edges))
    ensures WholeAfter(OneJob(part, was, us, edges), q) == InMemory(part, was, us, q)
  {
    var j := OneJob(part, was, us, edges);
    SameUpdates(part, was, us, UpdatesOf(j.us, 0), q);
  }

  lemma OneDelivered(part: Part, was: seq<Vertex>, us: nat -> seq<Update>, edges: seq<Edge>, q: nat)
    requires |was| == part.n && part.at == part.root && EdgesInRange(edges, part.n)
    requires forall q: nat :: UpdatesFit(us(q), part.n)
    requires forall u: Update :: u in us(q + 1) <==> FromLevel(InMemory(part, was, us, q), edges, q, u)
    ensures Placed(OneJob(part, was, us, edges)) && Sized(OneJob(part, was, us, edges))
    ensures DeliveredIn(OneJob(part, was, us, edges), q)
  {
    var j := OneJob(part, was, us, edges);
    OneWhole(part, was, us, edges, q);
    forall i: nat, u: Update | i < |j.parts| && u in j.us(q + 1, i)
      ensures exists v: nat :: v < j.n && j.place(v) == Place(i, u.child) &&
                FromLevel(WholeAfter(j, q), edges, q, Update(u.parent, v))
    {
      assert UpdatesFit(us(q + 1), part.n);
      assert j.place(u.child) == Place(i, u.child) && u == Update(u.parent, u.child);
    }
  }

  /** With one superpartition, record v is vertex v, and the records are the levels of the search. */
  lemma OneSuperpartition(part: Part, was: seq<Vertex>, us: nat -> seq<Update>, edges: seq<Edge>, p: nat)
    requires |was| == part.n <= PHASE_LIMIT && part.at == part.root && EdgesInRange(edges, part.n)
    requires us(0) == [] && forall q: nat :: UpdatesFit(us(q), part.n)
    requires forall q: nat, u: Update :: u in us(q + 1) <==> FromLevel(InMemory(part, was, us, q), edges, q, u)
    ensures Levels(InMemory(part, was, us, p), edges, part.root, p)
  {
    var j := OneJob(part, was, us, edges);
    OneWhole(part, was, us, edges, p);
    forall q: nat
      ensures DeliveredIn(j, q)
    {
      OneDelivered(part, was, us, edges, q);
    }
    InMemoryIsSearch(j, p);
  }

  lemma {:induction false} SameUpdates(part: Part, was: seq<Vertex>, us: nat -> seq<Update>, us': nat -> seq<Update>,
                                       p: nat)
    requires |was| == part.n && (forall q: nat :: UpdatesFit(us(q), part.n)) && forall q: nat :: us'(q) == us(q)
    ensures InMemory(part, was, us', p) == InMemory(part, was, us, p)
  {
    if p > 0 {
      SameUpdates(part, was, us, us', p - 1);
    }
  }

  // ---------- what the files hold ----------

  ghost predicate OnFiles(disks: seq<seq<Byte>>, place: nat -> Place, n: nat) {
    forall v: nat :: v < n ==>
      place(v).part < |disks| && RECORD_BYTES * place(v).at + RECORD_BYTES <= |disks[place(v).part]|
  }

  /** The vertices as their records on disk tell them. */
  ghost function OnDisk(disks: seq<seq<Byte>>, place: nat -> Place, n: nat): (state: seq<Vertex>)
    requires OnFiles(disks, place, n)
    ensures |state| == n
    ensures forall v: nat :: v < n ==> RecordIs(disks[place(v).part], place(v).at, state[v])
  {
    seq(n, v requires 0 <= v < n && place(v).part < |disks| &&
                      RECORD_BYTES * place(v).at + RECORD_BYTES <= |disks[place(v).part]| =>
      Decode(RecordAt(disks[place(v).part], place(v).at)))
  }

  /** Parents and phases, not flags, make a search. */
  lemma SameSearch(a: seq<Vertex>, b: seq<Vertex>, edges: seq<Edge>, root: nat, p: nat)
    requires Levels(a, edges, root, p) && |a| == |b|
    requires forall v: nat :: v < |a| ==> b[v].parent == a[v].parent && b[v].phase == a[v].phase
    ensures Levels(b, edges, root, p)
  {
    forall v: nat | Reached(b, v)
      ensures b[v].phase <= p && WellReached(b, edges, root, v)
    {
      assert Reached(a, v) && WellReached(a, edges, root, v);
    }
  }

  /**
   Files that hold the states of a run in memory, as `VertexStore.Run` leaves them after phase p, hold the levels of the
   breadth-first search: the vertices at most p hops from the root, their distances and parents one level above.
   */
  lemma FilesHoldSearch(j: Job, disks: seq<seq<Byte>>, p: nat)
    requires Searchable(j) && Delivered(j) && |disks| == |j.parts|
    requires forall i: nat :: i < |disks| ==>
      && RECORD_BYTES * j.parts[i].n <= |disks[i]|
      && HoldsState(disks[i], VertexStore.Cleared(InMemory(j.parts[i], j.was[i], UpdatesOf(j.us, i), p)))
    ensures OnFiles(disks, j.place, j.n) && Levels(OnDisk(disks, j.place, j.n), j.edges, j.root, p)
  {
    InMemoryIsSearch(j, p);
    var state, stored := WholeAfter(j, p), OnDisk(disks, j.place, j.n);
    forall v: nat | v < j.n
      ensures stored[v].parent == state[v].parent && stored[v].phase == state[v].phase
    {
      var i, k := j.place(v).part, j.place(v).at;
      assert RecordIs(disks[i], k, VertexStore.Cleared(PartAfter(j, i, p))[k]);
    }
    SameSearch(state, stored, j.edges, j.root, p);
  }

  /** The files of the superpartitions. */
  ghost function Disks(streams: seq<StateStream<Byte>>): (disks: seq<seq<Byte>>)
    reads streams
    ensures |disks| == |streams| && forall i: nat :: i < |streams| ==> disks[i] == streams[i].disk
  {
    seq(|streams|, i requires 0 <= i < |streams| reads streams => streams[i].disk)
  }

  /** Whatever the records held before. */
  ghost predicate DeliveredAlways(j: Job) {
    forall was: seq<seq<Vertex>> :: Sized(j.(was := was)) ==> Searchable(j.(was := was)) && Delivered(j.(was := was))
  }

  /** The files hold the levels of the breadth-first search up to phase p. */
  ghost predicate HoldsSearch(disks: seq<seq<Byte>>, j: Job, p: nat) {
    OnFiles(disks, j.place, j.n) && Levels(OnDisk(disks, j.place, j.n), j.edges, j.root, p)
  }

  lemma StoredIsSearch(j: Job, disks: seq<seq<Byte>>, was: seq<seq<Vertex>>, p: nat)
    requires Sized(j.(was := was)) && DeliveredAlways(j) && |disks| == |j.parts|
    requires forall i: nat :: i < |disks| ==>
      && RECORD_BYTES * j.parts[i].n <= |disks[i]|
      && HoldsState(disks[i], VertexStore.Cleared(InMemory(j.parts[i], was[i], UpdatesOf(j.us, i), p)))
    ensures HoldsSearch(disks, j, p)
  {
    FilesHoldSearch(j.(was := was), disks, p);
  }

  /**
   What `VertexStore.Run` ensures is the search: whatever the records held before, after phase p the files hold the
   levels of the breadth-first search.
   */
  lemma RunIsSearch(e: Engine, streams: seq<StateStream<Byte>>, j: Job, was: seq<seq<Vertex>>, p: nat)
    requires Together(e, streams, j.parts, j.us) && DeliveredAlways(j) && |was| == |j.parts|
    requires forall i: nat :: i < |j.parts| ==> StoredAfter(streams[i], j.parts[i], was[i], UpdatesOf(j.us, i), p)
    ensures HoldsSearch(Disks(streams), j, p)
  {
    forall i: nat | i < |streams|
      ensures |was[i]| == j.parts[i].n && RECORD_BYTES * j.parts[i].n <= |streams[i].disk|
      ensures HoldsState(streams[i].disk, VertexStore.Cleared(InMemory(j.parts[i], was[i], UpdatesOf(j.us, i), p)))
    {
      assert StoredAfter(streams[i], j.parts[i], was[i], UpdatesOf(j.us, i), p);
    }
    StoredIsSearch(j, Disks(streams), was, p);
  }
}
