/**
 Breadth-first search over the superstep loop: exact hop distances, parents one level above, and termination
 (algorithms/bfs/bfs.hpp 88-141, core/sg_driver.hpp 746-920, 975-987).
 */
module Bfs {
  import opened FilteredScatter

  // ---------- hop distances ----------

  ghost predicate LiveEdge(edges: seq<Edge>, u: nat, v: nat) {
    u != NONE && Edge(u, v) in edges
  }

  /** Where live edges out of s lead. */
  ghost function Successors(edges: seq<Edge>, s: set<nat>): set<nat> {
    set e | e in edges && e.src != NONE && e.src in s :: e.dst
  }

  /** The vertices at most k hops from the root. */
  ghost function Within(edges: seq<Edge>, root: nat, n: nat, k: nat): set<nat> {
    if k == 0 then (if root < n then {root} else {})
    else Within(edges, root, n, k - 1) + Successors(edges, Within(edges, root, n, k - 1))
  }

  /** v is exactly k hops from the root. */
  ghost predicate AtDistance(edges: seq<Edge>, root: nat, n: nat, v: nat, k: nat) {
    v in Within(edges, root, n, k) && (k > 0 ==> v !in Within(edges, root, n, k - 1))
  }

  /** A walk along live edges. */
  ghost predicate Walk(edges: seq<Edge>, w: seq<nat>) {
    |w| > 0 && forall i, j :: 0 <= i && j == i + 1 && j < |w| ==> LiveEdge(edges, w[i], w[j])
  }

  /** A walk of k hops from the root ends within k hops. */
  lemma {:induction false} WalkStaysWithin(edges: seq<Edge>, root: nat, n: nat, w: seq<nat>)
    requires Walk(edges, w) && w[0] == root && root < n
    ensures w[|w| - 1] in Within(edges, root, n, |w| - 1)
    decreases |w|
  {
    if |w| > 1 {
      var shorter := w[..|w| - 1];
      WalkStaysWithin(edges, root, n, shorter);
      var k := |w| - 2;
      assert LiveEdge(edges, w[k], w[k + 1]);
      assert Edge(w[k], w[k + 1]) in edges;
    }
  }

  /** A vertex within k hops ends a walk of at most k hops. */
  lemma {:induction false} WithinHasWalk(edges: seq<Edge>, root: nat, n: nat, v: nat, k: nat) returns (w: seq<nat>)
    requires v in Within(edges, root, n, k)
    ensures Walk(edges, w) && |w| <= k + 1 && w[0] == root && w[|w| - 1] == v
    decreases k
  {
    if k == 0 {
      w := [root];
    } else if v in Within(edges, root, n, k - 1) {
      w := WithinHasWalk(edges, root, n, v, k - 1);
    } else {
      var e :| e in edges && e.src != NONE && e.src in Within(edges, root, n, k - 1) && e.dst == v;
      var before := WithinHasWalk(edges, root, n, e.src, k - 1);
      assert e == Edge(e.src, v);
      w := before + [v];
    }
  }

  lemma {:induction false} WithinGrows(edges: seq<Edge>, root: nat, n: nat, j: nat, k: nat)
    requires j <= k
    ensures Within(edges, root, n, j) <= Within(edges, root, n, k)
    decreases k
  {
    if j < k {
      WithinGrows(edges, root, n, j, k - 1);
    }
  }

  /** Once a hop finds nothing new, no further one does. */
  lemma {:induction false} WithinSettles(edges: seq<Edge>, root: nat, n: nat, p: nat, k: nat)
    requires Settled(edges, root, n, p) && k >= p
    ensures Within(edges, root, n, k) <= Within(edges, root, n, p)
    decreases k
  {
    if k > p {
      WithinSettles(edges, root, n, p, k - 1);
      forall v | v in Within(edges, root, n, k)
        ensures v in Within(edges, root, n, p)
      {
        NextHopStays(edges, root, n, p, k - 1, v);
      }
    }
  }

  /** Hop p found nothing new. */
  ghost predicate Settled(edges: seq<Edge>, root: nat, n: nat, p: nat) {
    p > 0 && Within(edges, root, n, p) == Within(edges, root, n, p - 1)
  }

  lemma NextHopStays(edges: seq<Edge>, root: nat, n: nat, p: nat, j: nat, v: nat)
    requires Settled(edges, root, n, p) && Within(edges, root, n, j) <= Within(edges, root, n, p)
    requires v in Within(edges, root, n, j + 1)
    ensures v in Within(edges, root, n, p)
  {
    if v !in Within(edges, root, n, j) {
      var e :| e in edges && e.src != NONE && e.src in Within(edges, root, n, j) && e.dst == v;
      assert e.src in Within(edges, root, n, p - 1);
    }
  }

  /** Live edges lead from vertex to vertex. */
  ghost predicate EdgesInRange(edges: seq<Edge>, n: nat) {
    forall e :: e in edges && e.src != NONE ==> e.src < n && e.dst < n
  }

  lemma {:induction false} WithinInRange(edges: seq<Edge>, root: nat, n: nat, k: nat)
    requires EdgesInRange(edges, n)
    ensures forall v :: v in Within(edges, root, n, k) ==> v < n
  {
    if k > 0 {
      WithinInRange(edges, root, n, k - 1);
    }
  }

  lemma {:induction false} SizeOfRange(s: set<nat>, n: nat)
    requires forall v :: v in s ==> v < n
    ensures |s| <= n
  {
    if n == 0 {
      assert s == {};
    } else {
      SizeOfRange(s - {n - 1}, n - 1);
    }
  }

  // ---------- the state between supersteps ----------

  predicate Reached(state: seq<Vertex>, v: nat) {
    v < |state| && state[v].parent != NONE
  }

  /** v was reached at its hop distance, over a live edge from the level before. */
  ghost predicate WellReached(state: seq<Vertex>, edges: seq<Edge>, root: nat, v: nat)
    requires v < |state|
  {
    && AtDistance(edges, root, |state|, v, state[v].phase)
    && (state[v].phase == 0 ==> v == root && state[v].parent == root)
    && (state[v].phase > 0 ==>
      && LiveEdge(edges, state[v].parent, v)
      && Reached(state, state[v].parent) && state[state[v].parent].phase + 1 == state[v].phase)
  }

  /** Exactly the vertices within p hops are reached, each as it should be. */
  ghost predicate Levels(state: seq<Vertex>, edges: seq<Edge>, root: nat, p: nat) {
    && (forall v: nat :: v < |state| ==> (Reached(state, v) <==> v in Within(edges, root, |state|, p)))
    && forall v: nat {:trigger WellReached(state, edges, root, v)} :: Reached(state, v) ==>
      state[v].phase <= p && WellReached(state, edges, root, v)
  }

  /** The active vertices of a phase are the vertices at that distance. */
  lemma ActiveIsAtDistance(state: seq<Vertex>, edges: seq<Edge>, root: nat, p: nat, v: nat)
    requires Levels(state, edges, root, p) && v < |state|
    ensures Active(state, p, v) <==> AtDistance(edges, root, |state|, v, p)
  {
    if Reached(state, v) {
      assert WellReached(state, edges, root, v);
      DistanceUnique(edges, root, |state|, v, state[v].phase, p);
    }
  }

  /** A vertex has one distance. */
  lemma DistanceUnique(edges: seq<Edge>, root: nat, n: nat, v: nat, j: nat, k: nat)
    requires AtDistance(edges, root, n, v, j) && j <= k
    ensures AtDistance(edges, root, n, v, k) <==> j == k
  {
    if j < k {
      WithinGrows(edges, root, n, j, k - 1);
    }
  }

  // ---------- gathering the updates ----------

  /** An update over a live edge from level p. */
  ghost predicate FromLevel(state: seq<Vertex>, edges: seq<Edge>, p: nat, u: Update) {
    LiveEdge(edges, u.parent, u.child) && Active(state, p, u.parent)
  }

  lemma {:induction false} EmittedAreFromLevel(state: seq<Vertex>, phase: nat, edges: seq<Edge>, u: Update)
    ensures u in Emitted(state, phase, edges) <==> FromLevel(state, edges, phase, u)
  {
    if edges != [] {
      var before, last := edges[..|edges| - 1], edges[|edges| - 1];
      EmittedAreFromLevel(state, phase, before, u);
      assert Edge(u.parent, u.child) in edges <==> Edge(u.parent, u.child) in before || last == Edge(u.parent, u.child);
    }
  }

  /** Midway through the gather of phase p + 1: the children of the updates done so far have been reached. */
  ghost predicate Gathering(before: seq<Vertex>, state: seq<Vertex>, edges: seq<Edge>, root: nat, p: nat,
                            done: seq<Update>) {
    && |state| == |before|
    && (forall v: nat :: Reached(before, v) ==> state[v] == before[v])
    && (forall v: nat :: v < |state| && !Reached(before, v) ==>
      (Reached(state, v) <==> exists u :: u in done && u.child == v))
    && forall v: nat :: Reached(state, v) && !Reached(before, v) ==>
      state[v].phase == p + 1 && FromLevel(before, edges, p, Update(state[v].parent, v))
  }

  /** `apply_one_update`, as a function of the state. */
  function Apply(state: seq<Vertex>, u: Update, phase: nat): seq<Vertex>
    requires u.child < |state|
  {
    if state[u.child].parent == NONE then state[u.child := Vertex(u.parent, phase, true)] else state
  }

  lemma ApplyKeepsGathering(before: seq<Vertex>, state: seq<Vertex>, edges: seq<Edge>, root: nat, p: nat,
                            done: seq<Update>, u: Update)
    requires Gathering(before, state, edges, root, p, done) && u.child < |state| && FromLevel(before, edges, p, u)
    ensures Gathering(before, Apply(state, u, p + 1), edges, root, p, done + [u])
  {
    var after := Apply(state, u, p + 1);
    forall v: nat | v < |state| && !Reached(before, v)
      ensures Reached(after, v) <==> exists x :: x in done + [u] && x.child == v
    {
      if v == u.child {
        assert u in done + [u];
      } else if Reached(state, v) {
        var x :| x in done && x.child == v;
        assert x in done + [u];
      }
    }
  }

  /** After all updates the next level is complete. */
  lemma GatheredIsNextLevel(before: seq<Vertex>, state: seq<Vertex>, edges: seq<Edge>, root: nat, p: nat,
                            done: seq<Update>)
    requires Levels(before, edges, root, p) && EdgesInRange(edges, |before|)
    requires Gathering(before, state, edges, root, p, done)
    requires forall u: Update :: u in done <==> FromLevel(before, edges, p, u)
    ensures Levels(state, edges, root, p + 1)
  {
    forall v: nat | v < |state|
      ensures Reached(state, v) <==> v in Within(edges, root, |state|, p + 1)
    {
      NextLevelReached(before, state, edges, root, p, done, v);
    }
    forall v: nat | Reached(state, v)
      ensures state[v].phase <= p + 1 && WellReached(state, edges, root, v)
    {
      if Reached(before, v) {
        assert WellReached(before, edges, root, v);
      } else {
        assert v in Within(edges, root, |state|, p + 1);
      }
    }
  }

  lemma NextLevelReached(before: seq<Vertex>, state: seq<Vertex>, edges: seq<Edge>, root: nat, p: nat,
                         done: seq<Update>, v: nat)
    requires Levels(before, edges, root, p) && v < |state| && EdgesInRange(edges, |before|)
    requires Gathering(before, state, edges, root, p, done)
    requires forall u: Update :: u in done <==> FromLevel(before, edges, p, u)
    ensures Reached(state, v) <==> v in Within(edges, root, |state|, p + 1)
  {
    if v in Within(edges, root, |state|, p + 1) && v !in Within(edges, root, |state|, p) {
      var u := UpdateOfNewVertex(before, edges, root, p, v);
      assert u in done && u.child == v;
    }
    if Reached(state, v) && !Reached(before, v) {
      UpdateLeadsOn(before, edges, root, p, Update(state[v].parent, v));
    }
  }

  lemma UpdateLeadsOn(before: seq<Vertex>, edges: seq<Edge>, root: nat, p: nat, u: Update)
    requires Levels(before, edges, root, p) && FromLevel(before, edges, p, u)
    ensures u.child in Within(edges, root, |before|, p + 1)
  {
    assert Edge(u.parent, u.child) in edges && Reached(before, u.parent);
  }

  /** A vertex first found at the next hop has an update. */
  lemma UpdateOfNewVertex(before: seq<Vertex>, edges: seq<Edge>, root: nat, p: nat, v: nat) returns (u: Update)
    requires Levels(before, edges, root, p) && EdgesInRange(edges, |before|)
    requires v in Within(edges, root, |before|, p + 1) && v !in Within(edges, root, |before|, p)
    ensures FromLevel(before, edges, p, u) && u.child == v
  {
    var e :| e in edges && e.src != NONE && e.src in Within(edges, root, |before|, p) && e.dst == v;
    SourceIsNew(edges, root, |before|, p, e);
    ActiveIsAtDistance(before, edges, root, p, e.src);
    u := Update(e.src, v);
    assert e == Edge(e.src, v);
  }

  /** A live edge to a vertex beyond p hops starts at distance p. */
  lemma SourceIsNew(edges: seq<Edge>, root: nat, n: nat, p: nat, e: Edge)
    requires e in edges && e.src != NONE && e.src in Within(edges, root, n, p) && e.dst !in Within(edges, root, n, p)
    ensures AtDistance(edges, root, n, e.src, p)
  {
  }

  // ---------- counting ----------

  /** The number of live edges out of s. */
  ghost function EdgesFrom(edges: seq<Edge>, s: set<nat>): nat {
    if edges == [] then 0
    else EdgesFrom(edges[..|edges| - 1], s) + if edges[|edges| - 1].src != NONE && edges[|edges| - 1].src in s then 1
      else 0
  }

  /** Every phase explores the edges out of its own level. */
  lemma {:induction false} ExploredInPhase(state: seq<Vertex>, p: nat, edges: seq<Edge>, inner: set<nat>,
                                           outer: set<nat>)
    requires inner <= outer && EdgesInRange(edges, |state|)
    requires forall v: nat :: v < |state| ==> (Active(state, p, v) <==> v in outer && v !in inner)
    ensures EdgesFrom(edges, outer) == EdgesFrom(edges, inner) + |Emitted(state, p, edges)|
  {
    if edges != [] {
      var before := edges[..|edges| - 1];
      assert forall e :: e in before ==> e in edges;
      assert edges[|edges| - 1] in edges;
      ExploredInPhase(state, p, before, inner, outer);
    }
  }

  ghost function ReachedSet(state: seq<Vertex>): set<nat> {
    set v: nat | v < |state| && Reached(state, v)
  }

  lemma ApplyCounts(state: seq<Vertex>, u: Update, phase: nat)
    requires u.child < |state| && u.parent != NONE
    ensures |ReachedSet(Apply(state, u, phase))| == |ReachedSet(state)| + if state[u.child].parent == NONE then 1 else 0
  {
    if state[u.child].parent == NONE {
      assert ReachedSet(Apply(state, u, phase)) == ReachedSet(state) + {u.child};
    }
  }

  /** The scatter of one phase sends the updates out of its level, one for each live edge. */
  method ScatterLevel(s: Setup, state: seq<Vertex>, phase: nat, edges: seq<Edge>, ghost built: seq<Edge>,
                      ghost groups: nat, queued: set<nat>) returns (out: seq<Update>)
    requires Ready(s, edges, built, |state|, groups) && QueuedCover(state, phase, s.part, queued)
    ensures |out| == |Emitted(state, phase, edges)|
    ensures forall u: Update :: u in out <==> FromLevel(state, edges, phase, u)
  {
    out := ScatterPhase(s, state, phase, edges, built, groups, queued);
    assert |out| == |multiset(out)|;
    forall u: Update
      ensures u in out <==> FromLevel(state, edges, phase, u)
    {
      assert u in out <==> u in multiset(out);
      EmittedAreFromLevel(state, phase, edges, u);
    }
  }

  // ---------- the run ----------

  class Run {
    const root: nat
    const vertices: array<Vertex>
    var bspPhase: nat
    /** The updates in the stream read by the next gather. */
    var updates: seq<Update>
    /** `scatter_filter`: the partitions that will be scattered. */
    var queued: set<nat>
    var verticesDiscovered: nat
    var edgesExplored: nat

    constructor (root: nat, n: nat)
      requires n <= 0x8000_0000
      ensures fresh(vertices) && vertices.Length == n && this.root == root
      ensures bspPhase == 0 && updates == [] && queued == {} && verticesDiscovered == 0 && edgesExplored == 0
    {
      this.root := root;
      vertices := new Vertex[n];
      bspPhase, updates, queued, verticesDiscovered, edgesExplored := 0, [], {}, 0, 0;
    }

    /** `init` for every vertex, in phase 0. */
    method Init(part: nat -> nat, ghost edges: seq<Edge>)
      requires vertices.Length <= 0x8000_0000
      modifies this`queued, vertices
      ensures Levels(vertices[..], edges, root, 0)
      ensures forall v: nat :: v < vertices.Length ==> vertices[v].parent == if v == root then root else 0xFFFF_FFFF
      ensures queued == old(queued) + if root < vertices.Length then {part(root)} else {}
    {
      var i := 0;
      while i < vertices.Length
        invariant 0 <= i <= vertices.Length
        invariant forall v: nat :: v < i ==>
          (if v == root then vertices[v].parent == root && vertices[v].phase == 0 else vertices[v].parent == NONE)
        invariant queued == old(queued) + if root < i then {part(root)} else {}
      {
        vertices[i] := vertices[i].(parent := NONE);
        if root == i {
          vertices[i] := vertices[i].(parent := root, phase := 0);
          queued := queued + {part(i)};
        }
        vertices[i] := vertices[i].(changed := true);
        i := i + 1;
      }
    }

    /** What holds midway through a gather. */
    ghost predicate Midway(before: seq<Vertex>, part: nat -> nat, edges: seq<Edge>, p: nat, done: seq<Update>,
                           discovered: nat, activated: bool)
      reads this, vertices
    {
      && Gathering(before, vertices[..], edges, root, p, done)
      && (forall v: nat :: Reached(vertices[..], v) && !Reached(before, v) ==> part(v) in queued)
      && verticesDiscovered >= discovered && (activated <==> verticesDiscovered > discovered)
      && |ReachedSet(vertices[..])| == |ReachedSet(before)| + (verticesDiscovered - discovered)
    }

    /** The gather of phase p + 1: apply all updates, queueing the partition of every vertex that is activated. */
    method Gather(part: nat -> nat, ghost edges: seq<Edge>, ghost p: nat) returns (activated: bool)
      requires bspPhase == p + 1 && queued == {} && EdgesInRange(edges, vertices.Length)
      requires Levels(vertices[..], edges, root, p)
      requires forall u: Update :: u in updates <==> FromLevel(vertices[..], edges, p, u)
      modifies this`queued, this`verticesDiscovered, vertices
      ensures Levels(vertices[..], edges, root, p + 1)
      ensures QueuedCover(vertices[..], p + 1, part, queued)
      ensures |ReachedSet(vertices[..])| ==
        |ReachedSet(old(vertices[..]))| + (verticesDiscovered - old(verticesDiscovered))
      ensures verticesDiscovered >= old(verticesDiscovered) &&
        (activated <==> verticesDiscovered > old(verticesDiscovered))
    {
      ghost var before, discovered := vertices[..], verticesDiscovered;
      activated := ApplyAll(part, before, edges, p);
      GatheredIsNextLevel(before, vertices[..], edges, root, p, updates);
      ActiveAreNew(before, vertices[..], edges, root, p, updates);
    }

    method ApplyAll(part: nat -> nat, ghost before: seq<Vertex>, ghost edges: seq<Edge>, ghost p: nat)
      returns (activated: bool)
      requires bspPhase == p + 1 && queued == {} && EdgesInRange(edges, vertices.Length) && before == vertices[..]
      requires forall u: Update :: u in updates ==> FromLevel(before, edges, p, u)
      modifies this`queued, this`verticesDiscovered, vertices
      ensures Midway(before, part, edges, p, updates, old(verticesDiscovered), activated)
    {
      ghost var discovered := verticesDiscovered;
      activated := false;
      var i := 0;
      while i < |updates|
        invariant 0 <= i <= |updates| && Midway(before, part, edges, p, updates[..i], discovered, activated)
      {
        assert updates[i] in updates;
        activated := ApplyOne(part, updates[i], before, edges, p, updates[..i], discovered, activated);
        assert updates[..i + 1] == updates[..i] + [updates[i]];
        i := i + 1;
      }
      assert updates[..i] == updates;
    }

    /** `apply_one_update` and what the driver does with its result. */
    method ApplyOne(part: nat -> nat, u: Update, ghost before: seq<Vertex>, ghost edges: seq<Edge>, ghost p: nat,
                    ghost done: seq<Update>,
                    ghost discovered: nat, activated: bool) returns (activated': bool)
      requires bspPhase == p + 1 && EdgesInRange(edges, vertices.Length) && FromLevel(before, edges, p, u)
      requires Midway(before, part, edges, p, done, discovered, activated)
      modifies this`queued, this`verticesDiscovered, vertices
      ensures Midway(before, part, edges, p, done + [u], discovered, activated')
    {
      assert Edge(u.parent, u.child) in edges;
      ghost var state := vertices[..];
      ApplyKeepsGathering(before, state, edges, root, p, done, u);
      ApplyCounts(state, u, p + 1);
      activated' := activated;
      if vertices[u.child].parent == NONE {
        verticesDiscovered := verticesDiscovered + 1;
        vertices[u.child] := Vertex(u.parent, bspPhase, true);
        queued := queued + {part(u.child)};
        activated' := true;
      }
      assert vertices[..] == Apply(state, u, p + 1);
    }

    /** The rest of the superstep: scatter over the index, then empty the filter and move to the next phase. */
    method Scatter(s: Setup, edges: seq<Edge>, ghost built: seq<Edge>, ghost groups: nat, ghost p: nat)
      requires bspPhase == p && Ready(s, edges, built, vertices.Length, groups) && EdgesInRange(edges, vertices.Length)
      requires Levels(vertices[..], edges, root, p) && QueuedCover(vertices[..], p, s.part, queued)
      requires edgesExplored == ExploredUpTo(edges, root, vertices.Length, p)
      modifies this`updates, this`queued, this`edgesExplored, this`bspPhase
      ensures bspPhase == p + 1 && queued == {} && vertices[..] == old(vertices[..])
      ensures forall u: Update :: u in updates <==> FromLevel(vertices[..], edges, p, u)
      ensures edgesExplored == ExploredUpTo(edges, root, vertices.Length, p + 1)
    {
      ghost var state := vertices[..];
      updates := ScatterLevel(s, vertices[..], bspPhase, edges, built, groups, queued);
      edgesExplored := edgesExplored + |updates|;
      queued := {};
      bspPhase := bspPhase + 1;
      LevelExplored(state, edges, root, p);
    }

    /** What holds between supersteps, p being the last phase done. */
    ghost predicate AfterPhase(edges: seq<Edge>, p: nat)
      reads this, vertices
    {
      var n := vertices.Length;
      && bspPhase == p + 1 && queued == {} && Levels(vertices[..], edges, root, p)
      && (forall u: Update :: u in updates <==> FromLevel(vertices[..], edges, p, u))
      && edgesExplored == ExploredUpTo(edges, root, n, p + 1)
      && verticesDiscovered + (if root < n then 1 else 0) == |ReachedSet(vertices[..])|
    }

    /** Every phase so far has reached a vertex, or the last one found nothing new. */
    ghost predicate Going(edges: seq<Edge>, p: nat, activated: bool)
      reads this
    {
      if activated then verticesDiscovered >= p else Settled(edges, root, vertices.Length, p)
    }

    /** What holds between the gather and the scatter of phase p. */
    ghost predicate MidPhase(part: nat -> nat, edges: seq<Edge>, p: nat)
      reads this, vertices
    {
      var n := vertices.Length;
      && bspPhase == p && Levels(vertices[..], edges, root, p) && QueuedCover(vertices[..], p, part, queued)
      && edgesExplored == ExploredUpTo(edges, root, n, p)
      && verticesDiscovered + (if root < n then 1 else 0) == |ReachedSet(vertices[..])|
    }

    method GatherStep(part: nat -> nat, ghost edges: seq<Edge>, ghost p: nat) returns (activated: bool)
      requires 0 < vertices.Length && EdgesInRange(edges, vertices.Length) && AfterPhase(edges, p) &&
        Going(edges, p, true)
      modifies this`queued, this`verticesDiscovered, vertices
      ensures MidPhase(part, edges, p + 1) && Going(edges, p + 1, activated) && p < vertices.Length
    {
      ghost var before, n := vertices[..], vertices.Length;
      NotYetFinished(before, edges, root, n, p, verticesDiscovered);
      activated := Gather(part, edges, p);
      if !activated {
        NothingNew(before, vertices[..], edges, root, n, p);
      }
    }

    method ScatterStep(s: Setup, edges: seq<Edge>, ghost built: seq<Edge>, ghost groups: nat, ghost p: nat)
      requires Ready(s, edges, built, vertices.Length, groups) && EdgesInRange(edges, vertices.Length)
      requires MidPhase(s.part, edges, p)
      modifies this`updates, this`queued, this`edgesExplored, this`bspPhase
      ensures AfterPhase(edges, p) && verticesDiscovered == old(verticesDiscovered)
    {
      Scatter(s, edges, built, groups, p);
    }

    /** One superstep after the first. */
    method Step(s: Setup, edges: seq<Edge>, ghost built: seq<Edge>, ghost groups: nat, ghost p: nat)
      returns (activated: bool)
      requires 0 < vertices.Length && Ready(s, edges, built, vertices.Length, groups) &&
        EdgesInRange(edges, vertices.Length)
      requires AfterPhase(edges, p) && Going(edges, p, true)
      modifies this`updates, this`queued, this`edgesExplored, this`bspPhase, this`verticesDiscovered, vertices
      ensures AfterPhase(edges, p + 1) && Going(edges, p + 1, activated) && p < vertices.Length
    {
      activated := GatherStep(s.part, edges, p);
      ScatterStep(s, edges, built, groups, p + 1);
    }

    /** The first superstep. */
    method FirstStep(s: Setup, edges: seq<Edge>, ghost built: seq<Edge>, ghost groups: nat)
      requires bspPhase == 0 && updates == [] && queued == {} && verticesDiscovered == 0 && edgesExplored == 0
      requires vertices.Length <= 0x8000_0000 && Ready(s, edges, built, vertices.Length, groups) &&
        EdgesInRange(edges, vertices.Length)
      modifies this`updates, this`queued, this`edgesExplored, this`bspPhase, vertices
      ensures AfterPhase(edges, 0) && Going(edges, 0, true)
    {
      Init(s.part, edges);
      FirstLevel(vertices[..], edges, root, s.part, queued);
      ScatterStep(s, edges, built, groups, 0);
    }

    /** The superstep loop: it stops in the first phase, after phase 0, that reaches no vertex. */
    method Execute(s: Setup, edges: seq<Edge>, ghost built: seq<Edge>, ghost groups: nat) returns (ghost last: nat)
      requires bspPhase == 0 && updates == [] && queued == {} && verticesDiscovered == 0 && edgesExplored == 0
      requires 0 < vertices.Length <= 0x8000_0000 && Ready(s, edges, built, vertices.Length, groups) &&
        EdgesInRange(edges, vertices.Length)
      modifies this`updates, this`queued, this`edgesExplored, this`bspPhase, this`verticesDiscovered, vertices
      ensures last <= vertices.Length && AfterPhase(edges, last) && Going(edges, last, false)
    {
      FirstStep(s, edges, built, groups);
      last := LaterSteps(s, edges, built, groups);
    }

    method LaterSteps(s: Setup, edges: seq<Edge>, ghost built: seq<Edge>, ghost groups: nat) returns (ghost last: nat)
      requires 0 < vertices.Length && Ready(s, edges, built, vertices.Length, groups)
      requires EdgesInRange(edges, vertices.Length) && AfterPhase(edges, 0) && Going(edges, 0, true)
      modifies this`updates, this`queued, this`edgesExplored, this`bspPhase, this`verticesDiscovered, vertices
      ensures last <= vertices.Length && AfterPhase(edges, last) && Going(edges, last, false)
    {
      var activated := true;
      last := 0;
      while activated
        invariant AfterPhase(edges, last) && Going(edges, last, activated) && last <= vertices.Length
        decreases vertices.Length - last, activated
      {
        activated := Step(s, edges, built, groups, last);
        last := last + 1;
      }
    }
  }

  /**
   What a finished run has computed: a vertex has a parent exactly when a walk of live edges leads to it from the
   root; its phase is the length of the shortest one; its parent precedes it on one; and all counters are exact.
   */
  lemma FinishedRun(run: Run, edges: seq<Edge>, last: nat)
    requires run.AfterPhase(edges, last) && run.Going(edges, last, false)
    requires run.root < run.vertices.Length && EdgesInRange(edges, run.vertices.Length)
    ensures forall w: seq<nat> :: Walk(edges, w) && w[0] == run.root ==>
      Reached(run.vertices[..], w[|w| - 1]) && run.vertices[w[|w| - 1]].phase <= |w| - 1
    ensures forall v: nat :: Reached(run.vertices[..], v) ==>
      WellReached(run.vertices[..], edges, run.root, v) &&
      exists w: seq<nat> :: Walk(edges, w) && w[0] == run.root && w[|w| - 1] == v && |w| - 1 == run.vertices[v].phase
    ensures run.edgesExplored == EdgesFrom(edges, ReachedSet(run.vertices[..]))
    ensures run.verticesDiscovered + 1 == |ReachedSet(run.vertices[..])| && run.bspPhase == last + 1
  {
    var state, root := run.vertices[..], run.root;
    ReachedIsWithin(state, edges, root, last);
    forall w: seq<nat> | Walk(edges, w) && w[0] == root
      ensures Reached(state, w[|w| - 1]) && state[w[|w| - 1]].phase <= |w| - 1
    {
      ReachedByWalk(state, edges, root, last, w);
    }
    forall v: nat | Reached(state, v)
      ensures exists w: seq<nat> :: Walk(edges, w) && w[0] == root && w[|w| - 1] == v && |w| - 1 == state[v].phase
    {
      var w := ShortestWalk(state, edges, root, last, v);
    }
  }

  lemma ReachedByWalk(state: seq<Vertex>, edges: seq<Edge>, root: nat, p: nat, w: seq<nat>)
    requires Levels(state, edges, root, p) && EdgesInRange(edges, |state|) && root < |state|
    requires Settled(edges, root, |state|, p) && Walk(edges, w) && w[0] == root
    ensures Reached(state, w[|w| - 1]) && state[w[|w| - 1]].phase <= |w| - 1
  {
    var v, k := w[|w| - 1], |w| - 1;
    WalkStaysWithin(edges, root, |state|, w);
    WithinInRange(edges, root, |state|, k);
    LevelFound(edges, root, |state|, p, k);
    PhaseAtMost(state, edges, root, p, v, k);
  }

  lemma PhaseAtMost(state: seq<Vertex>, edges: seq<Edge>, root: nat, p: nat, v: nat, k: nat)
    requires Levels(state, edges, root, p) && v < |state|
    requires v in Within(edges, root, |state|, k) && v in Within(edges, root, |state|, p)
    ensures Reached(state, v) && state[v].phase <= k
  {
    assert Reached(state, v) && WellReached(state, edges, root, v);
    NotBefore(edges, root, |state|, v, state[v].phase, k);
  }

  /** A vertex is not found before its distance. */
  lemma NotBefore(edges: seq<Edge>, root: nat, n: nat, v: nat, d: nat, k: nat)
    requires AtDistance(edges, root, n, v, d) && v in Within(edges, root, n, k)
    ensures d <= k
  {
    if k < d {
      WithinGrows(edges, root, n, k, d - 1);
    }
  }

  lemma ShortestWalk(state: seq<Vertex>, edges: seq<Edge>, root: nat, p: nat, v: nat) returns (w: seq<nat>)
    requires Levels(state, edges, root, p) && root < |state| && Reached(state, v)
    ensures Walk(edges, w) && w[0] == root && w[|w| - 1] == v && |w| - 1 == state[v].phase
  {
    assert WellReached(state, edges, root, v);
    w := WalkOfDistance(edges, root, |state|, v, state[v].phase);
  }

  lemma WalkOfDistance(edges: seq<Edge>, root: nat, n: nat, v: nat, d: nat) returns (w: seq<nat>)
    requires AtDistance(edges, root, n, v, d) && root < n
    ensures Walk(edges, w) && w[0] == root && w[|w| - 1] == v && |w| - 1 == d
  {
    w := WithinHasWalk(edges, root, n, v, d);
    WalkStaysWithin(edges, root, n, w);
    NotBefore(edges, root, n, v, d, |w| - 1);
  }

  lemma LevelFound(edges: seq<Edge>, root: nat, n: nat, p: nat, k: nat)
    requires Settled(edges, root, n, p)
    ensures Within(edges, root, n, k) <= Within(edges, root, n, p)
  {
    if k <= p {
      WithinGrows(edges, root, n, k, p);
    } else {
      WithinSettles(edges, root, n, p, k);
    }
  }

  lemma PhaseOfReached(state: seq<Vertex>, edges: seq<Edge>, root: nat, p: nat, v: nat)
    requires Levels(state, edges, root, p) && Reached(state, v)
    ensures state[v].phase <= p
  {
    assert WellReached(state, edges, root, v);
  }

  lemma ActiveAreNew(before: seq<Vertex>, state: seq<Vertex>, edges: seq<Edge>, root: nat, p: nat, done: seq<Update>)
    requires Levels(before, edges, root, p) && Gathering(before, state, edges, root, p, done)
    ensures forall v: nat :: Active(state, p + 1, v) ==> Reached(state, v) && !Reached(before, v)
  {
    forall v: nat | Active(state, p + 1, v)
      ensures Reached(state, v) && !Reached(before, v)
    {
      if Reached(before, v) {
        PhaseOfReached(before, edges, root, p, v);
      }
    }
  }

  /** The edges out of the first p levels, counted phase by phase. */
  lemma LevelExplored(state: seq<Vertex>, edges: seq<Edge>, root: nat, p: nat)
    requires Levels(state, edges, root, p) && EdgesInRange(edges, |state|)
    ensures ExploredUpTo(edges, root, |state|, p + 1) ==
      ExploredUpTo(edges, root, |state|, p) + |Emitted(state, p, edges)|
  {
    var inner := if p == 0 then {} else Within(edges, root, |state|, p - 1);
    forall v: nat | v < |state|
      ensures Active(state, p, v) <==> v in Within(edges, root, |state|, p) && v !in inner
    {
      ActiveIsAtDistance(state, edges, root, p, v);
    }
    if p > 0 {
      WithinGrows(edges, root, |state|, p - 1, p);
    }
    ExploredInPhase(state, p, edges, inner, Within(edges, root, |state|, p));
    NoEdgesFromNowhere(edges);
  }

  /** The edges explored by the first k phases. */
  ghost function ExploredUpTo(edges: seq<Edge>, root: nat, n: nat, k: nat): nat {
    if k == 0 then 0 else EdgesFrom(edges, Within(edges, root, n, k - 1))
  }

  lemma {:induction false} NoEdgesFromNowhere(edges: seq<Edge>)
    ensures EdgesFrom(edges, {}) == 0
  {
    if edges != [] {
      NoEdgesFromNowhere(edges[..|edges| - 1]);
    }
  }

  lemma ReachedIsWithin(state: seq<Vertex>, edges: seq<Edge>, root: nat, p: nat)
    requires Levels(state, edges, root, p) && EdgesInRange(edges, |state|)
    ensures ReachedSet(state) == Within(edges, root, |state|, p) && |ReachedSet(state)| <= |state|
  {
    WithinInRange(edges, root, |state|, p);
    forall v | v in Within(edges, root, |state|, p)
      ensures v in ReachedSet(state)
    {
      assert Reached(state, v);
    }
    SizeOfRange(ReachedSet(state), |state|);
  }

  /** At the start only the root is reached, and its partition is queued. */
  lemma FirstLevel(state: seq<Vertex>, edges: seq<Edge>, root: nat, part: nat -> nat, queued: set<nat>)
    requires Levels(state, edges, root, 0) && EdgesInRange(edges, |state|)
    requires root < |state| ==> part(root) in queued
    ensures QueuedCover(state, 0, part, queued) && |ReachedSet(state)| == if root < |state| then 1 else 0
  {
    ReachedIsWithin(state, edges, root, 0);
    forall v: nat | Active(state, 0, v)
      ensures part(v) in queued
    {
      assert WellReached(state, edges, root, v);
    }
  }

  /** There are not more phases than vertices to be activated. */
  lemma NotYetFinished(state: seq<Vertex>, edges: seq<Edge>, root: nat, n: nat, p: nat, discovered: nat)
    requires n == |state| > 0 && Levels(state, edges, root, p) && EdgesInRange(edges, n)
    requires discovered >= p && discovered + (if root < n then 1 else 0) == |ReachedSet(state)|
    ensures p + 1 <= n
  {
    ReachedIsWithin(state, edges, root, p);
    if root >= n {
      NowhereWithoutRoot(edges, root, n, p);
    }
  }

  lemma {:induction false} NowhereWithoutRoot(edges: seq<Edge>, root: nat, n: nat, k: nat)
    requires root >= n
    ensures Within(edges, root, n, k) == {}
  {
    if k > 0 {
      NowhereWithoutRoot(edges, root, n, k - 1);
    }
  }

  /** A gather that activates nothing finds no new level. */
  lemma NothingNew(before: seq<Vertex>, state: seq<Vertex>, edges: seq<Edge>, root: nat, n: nat, p: nat)
    requires n == |state| == |before| && EdgesInRange(edges, n)
    requires Levels(before, edges, root, p) && Levels(state, edges, root, p + 1)
    requires |ReachedSet(state)| == |ReachedSet(before)|
    ensures Settled(edges, root, n, p + 1)
  {
    ReachedIsWithin(before, edges, root, p);
    ReachedIsWithin(state, edges, root, p + 1);
    WithinGrows(edges, root, n, p, p + 1);
    SameSize(Within(edges, root, n, p), Within(edges, root, n, p + 1));
  }

  lemma {:induction false} SameSize(a: set<nat>, b: set<nat>)
    requires a <= b && |a| == |b|
    ensures a == b
  {
    if x :| x in b && x !in a {
      assert a <= b - {x};
      SizeOfSubset(a, b - {x});
    }
  }

  lemma {:induction false} SizeOfSubset(a: set<nat>, b: set<nat>)
    requires a <= b
    ensures |a| <= |b|
  {
    if a != {} {
      var x :| x in a;
      SizeOfSubset(a - {x}, b - {x});
    }
  }
}
