/**
 Strongly connected components by alternating label propagation (algorithms/scc/scc.hpp): propagate the
 smallest vertex id along the live edges, drop the edges whose ends disagree, reverse the others, repeat.
 A vertex whose label survives two consecutive passes has found its component.
 */
module Scc {
  import opened Graph

  const NONE: int := -1        // (vertex_t)ULONG_MAX in prev_root
  const DISCOVERED: int := -1  // ULONG_MAX in update_iteration

  datatype Vertex = Vertex(prev: int, comp: nat, upd: int)
  datatype Message = Message(src: nat, dst: nat, comp: nat)

  // ---------- the state between passes ----------

  /** The direction of the live edges in pass p: forward in even passes, backward in odd ones. */
  function Direction(g: set<Edge>, p: nat): set<Edge> {
    if p % 2 == 0 then g else Reverse(g)
  }

  predicate InRange(g: set<Edge>, n: nat) {
    forall e :: e in g ==> e.src < n && e.dst < n
  }

  /** Takes part in pass p: everybody in the first pass, then those whose label changed in the last one. */
  predicate Active(p: nat, v: Vertex) {
    p == 0 || v.prev != v.comp
  }

  /** v's label names its component: a member of it, and the smallest. */
  ghost predicate Found(g: set<Edge>, vs: seq<Vertex>, v: nat)
    requires v < |vs|
  {
    && vs[v].prev == vs[v].comp
    && StronglyConnected(g, vs[v].comp, v)
    && forall u: nat :: u < |vs| && StronglyConnected(g, v, u) ==> vs[v].comp <= u
  }

  ghost predicate LiveEdgesOk(g: set<Edge>, p: nat, vs: seq<Vertex>, live: set<Edge>) {
    && live <= Direction(g, p) && InRange(g, |vs|)
    && (p == 0 ==> live == g)
    && (p > 0 ==> forall e :: e in live ==>
          && e.src < |vs| && e.dst < |vs|
          && vs[e.src].comp == vs[e.dst].comp && vs[e.src].prev == vs[e.dst].prev
          && Active(p, vs[e.src]))
  }

  /** Before pass p > 0: labels agree on every component, and no edge inside an undiscovered one is lost. */
  ghost predicate ComponentsOk(g: set<Edge>, p: nat, vs: seq<Vertex>, live: set<Edge>) {
    && (forall u: nat, v: nat {:trigger StronglyConnected(g, u, v)} ::
      u < |vs| && v < |vs| && StronglyConnected(g, u, v) ==>
          vs[u].comp == vs[v].comp && vs[u].prev == vs[v].prev)
    && (forall u: nat, v: nat {:trigger StronglyConnected(g, u, v)} ::
      u < |vs| && v < |vs| && StronglyConnected(g, u, v) ==>
          (Active(p, vs[u]) && Edge(u, v) in Direction(g, p) ==> Edge(u, v) in live))
  }

  ghost predicate LabelsOk(g: set<Edge>, p: nat, vs: seq<Vertex>)
    requires p > 0
  {
    && (forall v: nat :: v < |vs| && Active(p, vs[v]) ==> Reach(Direction(g, p - 1), vs[v].comp, v))
    && (forall v: nat :: v < |vs| && !Active(p, vs[v]) ==> Found(g, vs, v))
  }

  ghost predicate Between(g: set<Edge>, p: nat, vs: seq<Vertex>, live: set<Edge>) {
    && LiveEdgesOk(g, p, vs, live)
    && (p > 0 ==> ComponentsOk(g, p, vs, live) && LabelsOk(g, p, vs))
  }

  // ---------- what one pass does to it ----------

  /** The labels at the fixpoint of a pass over the edges `live`. */
  ghost predicate Settled(p: nat, vs: seq<Vertex>, live: set<Edge>, vs': seq<Vertex>) {
    && |vs'| == |vs|
    && (forall v: nat :: v < |vs| && Active(p, vs[v]) ==>
          && vs'[v].prev == (if p == 0 then NONE else vs[v].comp)
          && vs'[v].comp <= v && Reach(live, vs'[v].comp, v))
    && (forall v: nat :: v < |vs| && !Active(p, vs[v]) ==>
          vs'[v].prev == vs[v].prev && vs'[v].comp == vs[v].comp)
    && (forall e :: e in live ==> e.src < |vs| && e.dst < |vs| && vs'[e.dst].comp <= vs'[e.src].comp)
  }

  /** The edges `step_elim_write` keeps. */
  predicate Keeps(vs: seq<Vertex>, e: Edge)
    requires e.src < |vs| && e.dst < |vs|
  {
    vs[e.src].comp == vs[e.dst].comp && vs[e.dst].comp != vs[e.dst].prev
  }

  ghost predicate Eliminated(vs: seq<Vertex>, live: set<Edge>, live': set<Edge>)
    requires InRange(live, |vs|)
  {
    forall e :: e in live' <==> Flip(e) in live && Keeps(vs, Flip(e))
  }

  lemma DirectionNext(g: set<Edge>, p: nat, e: Edge)
    ensures e in Direction(g, p + 1) <==> Flip(e) in Direction(g, p)
  {
    assert Flip(Flip(e)) == e;
  }

  /** Labels do not grow along a path. */
  lemma LabelAlongPath(live: set<Edge>, vs: seq<Vertex>, u: nat, v: nat)
    requires u < |vs| && v < |vs| && Reach(live, u, v)
    requires forall e :: e in live ==> e.src < |vs| && e.dst < |vs| && vs[e.dst].comp <= vs[e.src].comp
    ensures vs[v].comp <= vs[u].comp
  {
    var path :| PathFromTo(live, path, u, v);
    var i := 0;
    while i < |path| - 1
      invariant 0 <= i < |path| && path[i] < |vs| && vs[path[i]].comp <= vs[u].comp
    {
      assert Edge(path[i], path[i + 1]) in live;
      i := i + 1;
    }
  }

  lemma ComponentInDirection(g: set<Edge>, p: nat, u: nat, v: nat)
    requires StronglyConnected(g, u, v)
    ensures StronglyConnected(Direction(g, p), u, v)
  {
    StronglyConnectedReverse(g, u, v);
  }

  lemma ComponentFromDirection(g: set<Edge>, p: nat, u: nat, v: nat)
    requires StronglyConnected(Direction(g, p), u, v)
    ensures StronglyConnected(g, u, v)
  {
    StronglyConnectedReverse(Direction(g, p), u, v);
    assert Reverse(Reverse(g)) == g by {
      forall e
        ensures e in Reverse(Reverse(g)) <==> e in g
      {
        assert Flip(Flip(e)) == e;
      }
    }
  }

  /** A component that is not yet discovered is still connected by live edges. */
  lemma ReachInsideComponent(g: set<Edge>, p: nat, vs: seq<Vertex>, live: set<Edge>, u: nat, v: nat)
    requires Between(g, p, vs, live) && u < |vs| && v < |vs|
    requires StronglyConnected(g, u, v) && Active(p, vs[u])
    ensures Reach(live, u, v)
  {
    if p > 0 {
      ComponentInDirection(g, p, u, v);
      var d := Direction(g, p);
      var path :| PathFromTo(d, path, u, v);
      forall i, j | 0 <= i < j < |path| && j == i + 1
        ensures Edge(path[i], path[j]) in live
      {
        assert Edge(path[i], path[j]) in d;
        PathInsideComponent(d, path, u, v, i);
        PathInsideComponent(d, path, u, v, j);
        ComponentFromDirection(g, p, u, path[i]);
        ComponentFromDirection(g, p, u, path[j]);
        StronglyConnectedTrans(g, path[i], u, path[j]);
        DirectionInRange(g, p, |vs|, Edge(path[i], path[j]));
      }
      assert PathFromTo(live, path, u, v);
    }
  }

  lemma DirectionInRange(g: set<Edge>, p: nat, n: nat, e: Edge)
    requires InRange(g, n) && e in Direction(g, p)
    ensures e.src < n && e.dst < n
  {
    assert e in g || Flip(e) in g;
  }

  /** The labels of a pass are constant on every component. */
  lemma LabelsAgree(g: set<Edge>, p: nat, vs: seq<Vertex>, live: set<Edge>, vs': seq<Vertex>, u: nat, v: nat)
    requires Between(g, p, vs, live) && Settled(p, vs, live, vs')
    requires u < |vs| && v < |vs| && StronglyConnected(g, u, v)
    ensures vs'[u].comp == vs'[v].comp && vs'[u].prev == vs'[v].prev
    ensures Active(p, vs[u]) == Active(p, vs[v])
  {
    if Active(p, vs[u]) {
      ReachInsideComponent(g, p, vs, live, u, v);
      ReachInsideComponent(g, p, vs, live, v, u);
      LabelAlongPath(live, vs', u, v);
      LabelAlongPath(live, vs', v, u);
    }
  }

  /** A label that survives two passes has gone to its vertex in both directions. */
  lemma SurvivingLabelIsFound(g: set<Edge>, p: nat, vs: seq<Vertex>, live: set<Edge>, vs': seq<Vertex>, v: nat)
    requires Between(g, p, vs, live) && Settled(p, vs, live, vs') && v < |vs|
    requires vs'[v].prev == vs'[v].comp
    ensures Found(g, vs', v)
  {
    var r := vs'[v].comp;
    if Active(p, vs[v]) {
      ReachMonotone(live, Direction(g, p), r, v);
      ReachReverse(Direction(g, p - 1), r, v);
      assert Reverse(Direction(g, p - 1)) == Direction(g, p) by {
        forall e
          ensures e in Reverse(Direction(g, p - 1)) <==> e in Direction(g, p)
        {
          DirectionNext(g, p - 1, e);
        }
      }
      ComponentFromDirection(g, p, r, v);
      forall u: nat | u < |vs| && StronglyConnected(g, v, u)
        ensures r <= u
      {
        LabelsAgree(g, p, vs, live, vs', v, u);
      }
    } else {
      assert Found(g, vs, v);
    }
  }

  lemma EdgesStayOk(g: set<Edge>, p: nat, vs: seq<Vertex>, live: set<Edge>, vs': seq<Vertex>, live': set<Edge>)
    requires Between(g, p, vs, live) && Settled(p, vs, live, vs')
    requires InRange(live, |vs'|) && Eliminated(vs', live, live')
    ensures LiveEdgesOk(g, p + 1, vs', live')
  {
    forall e | e in live'
      ensures e in Direction(g, p + 1)
      ensures e.src < |vs'| && e.dst < |vs'|
      ensures vs'[e.src].comp == vs'[e.dst].comp && vs'[e.src].prev == vs'[e.dst].prev
      ensures Active(p + 1, vs'[e.src])
    {
      DirectionNext(g, p, e);
      assert Flip(e) in live;
    }
  }

  lemma ComponentsStayOk(g: set<Edge>, p: nat, vs: seq<Vertex>, live: set<Edge>, vs': seq<Vertex>, live': set<Edge>)
    requires Between(g, p, vs, live) && Settled(p, vs, live, vs')
    requires InRange(live, |vs'|) && Eliminated(vs', live, live')
    ensures ComponentsOk(g, p + 1, vs', live')
  {
    forall u: nat, v: nat | u < |vs'| && v < |vs'| && StronglyConnected(g, u, v)
      ensures vs'[u].comp == vs'[v].comp && vs'[u].prev == vs'[v].prev
      ensures Active(p + 1, vs'[u]) && Edge(u, v) in Direction(g, p + 1) ==> Edge(u, v) in live'
    {
      LabelsAgree(g, p, vs, live, vs', u, v);
      if Active(p + 1, vs'[u]) && Edge(u, v) in Direction(g, p + 1) {
        DirectionNext(g, p, Edge(u, v));
        assert StronglyConnected(g, v, u);
        assert Edge(v, u) in live && Keeps(vs', Edge(v, u));
        assert Flip(Edge(u, v)) == Edge(v, u);
      }
    }
  }

  lemma LabelsStayOk(g: set<Edge>, p: nat, vs: seq<Vertex>, live: set<Edge>, vs': seq<Vertex>)
    requires Between(g, p, vs, live) && Settled(p, vs, live, vs')
    ensures LabelsOk(g, p + 1, vs')
  {
    forall v: nat | v < |vs'|
      ensures Active(p + 1, vs'[v]) ==> Reach(Direction(g, p), vs'[v].comp, v)
      ensures !Active(p + 1, vs'[v]) ==> Found(g, vs', v)
    {
      if Active(p + 1, vs'[v]) {
        ReachMonotone(live, Direction(g, p), vs'[v].comp, v);
      } else {
        SurvivingLabelIsFound(g, p, vs, live, vs', v);
      }
    }
  }

  /** Main invariant: a whole pass (propagation and elimination) keeps the state between passes. */
  lemma PassKeeps(g: set<Edge>, p: nat, vs: seq<Vertex>, live: set<Edge>, vs': seq<Vertex>, live': set<Edge>)
    requires Between(g, p, vs, live) && Settled(p, vs, live, vs')
    requires InRange(live, |vs'|) && Eliminated(vs', live, live')
    ensures Between(g, p + 1, vs', live')
  {
    EdgesStayOk(g, p, vs, live, vs', live');
    ComponentsStayOk(g, p, vs, live, vs', live');
    LabelsStayOk(g, p, vs, live, vs');
  }

  // ---------- termination: two passes always drop an edge ----------

  ghost predicate EndsAgree(vs: seq<Vertex>, live: set<Edge>) {
    forall e :: e in live ==>
      && e.src < |vs| && e.dst < |vs|
      && vs[e.src].comp == vs[e.dst].comp && vs[e.src].prev == vs[e.dst].prev
  }

  /** Where every edge has equal labels at its ends, labels are equal along paths. */
  lemma EqualAlongPath(live: set<Edge>, vs: seq<Vertex>, u: nat, v: nat)
    requires u < |vs| && v < |vs| && Reach(live, u, v)
    requires EndsAgree(vs, live)
    ensures vs[u].comp == vs[v].comp && vs[u].prev == vs[v].prev
  {
    var path :| PathFromTo(live, path, u, v);
    var i := 0;
    while i < |path| - 1
      invariant 0 <= i < |path| && path[i] < |vs|
      invariant vs[path[i]].comp == vs[u].comp && vs[path[i]].prev == vs[u].prev
    {
      assert Edge(path[i], path[i + 1]) in live;
      i := i + 1;
    }
  }

  /** Were two passes to keep every edge, both would label a live vertex alike, and then drop its edges. */
  lemma TwoPassesDropAnEdge(g: set<Edge>, p: nat, vs0: seq<Vertex>, live0: set<Edge>,
                            vs1: seq<Vertex>, live1: set<Edge>, vs2: seq<Vertex>, e: Edge)
    requires Between(g, p, vs0, live0) && Settled(p, vs0, live0, vs1)
    requires InRange(live0, |vs1|) && Eliminated(vs1, live0, live1)
    requires InRange(live1, |vs2|) && Settled(p + 1, vs1, live1, vs2)
    requires e in live0
    ensures (exists e0 :: e0 in live0 && !Keeps(vs1, e0)) || (exists e1 :: e1 in live1 && !Keeps(vs2, e1))
  {
    if (forall e0 :: e0 in live0 ==> Keeps(vs1, e0)) && (forall e1 :: e1 in live1 ==> Keeps(vs2, e1)) {
      PassKeeps(g, p, vs0, live0, vs1, live1);
      var x := e.src;
      assert Flip(Flip(e)) == e && Flip(e) in live1;
      forall f | f in live0
        ensures Flip(f) in live1
      {
        assert Flip(Flip(f)) == f;
      }
      assert live1 == Reverse(live0);
      var r := vs1[x].comp;
      ReachReverse(live0, r, x);
      LiveLabels(g, p, vs0, live0, vs1, live1);
      EqualAlongPath(live1, vs1, x, r);
      EqualAlongPath(live1, vs2, x, r);
      var r2 := vs2[x].comp;
      EqualAlongPath(live1, vs1, r2, x);
      ActiveAlongPath(g, p, vs0, live0, live1, r2, x);
      assert false;
    }
  }

  /** With every edge kept, both ends of every edge agree on all labels, before and after. */
  lemma LiveLabels(g: set<Edge>, p: nat, vs0: seq<Vertex>, live0: set<Edge>, vs1: seq<Vertex>, live1: set<Edge>)
    requires Between(g, p, vs0, live0) && Settled(p, vs0, live0, vs1)
    requires InRange(live0, |vs1|) && Eliminated(vs1, live0, live1)
    ensures Between(g, p + 1, vs1, live1)
    ensures EndsAgree(vs1, live1)
  {
    PassKeeps(g, p, vs0, live0, vs1, live1);
  }

  lemma ActiveAlongPath(g: set<Edge>, p: nat, vs: seq<Vertex>, live: set<Edge>, live': set<Edge>, u: nat, v: nat)
    requires Between(g, p, vs, live) && live' == Reverse(live) && Reach(live', u, v) && u < |vs| && v < |vs|
    ensures Active(p, vs[u]) == Active(p, vs[v])
  {
    if p > 0 {
      forall e | e in live'
        ensures e.src < |vs| && e.dst < |vs| && vs[e.src].comp == vs[e.dst].comp && vs[e.src].prev == vs[e.dst].prev
      {
        assert Flip(e) in live;
      }
      EqualAlongPath(live', vs, u, v);
    }
  }

  // ---------- what holds when no live edge is left ----------

  /** Every vertex with an edge inside its component has found it. */
  lemma InternalEdgeFound(g: set<Edge>, p: nat, vs: seq<Vertex>, u: nat, v: nat)
    requires p > 0 && Between(g, p, vs, {})
    requires Edge(u, v) in g && StronglyConnected(g, u, v)
    ensures u < |vs| && v < |vs| && Found(g, vs, u) && Found(g, vs, v)
  {
    assert StronglyConnected(g, v, u);
    assert Edge(u, v) in Direction(g, p) || Edge(v, u) in Direction(g, p) by {
      assert Flip(Edge(v, u)) == Edge(u, v);
    }
    assert !Active(p, vs[u]) && !Active(p, vs[v]);
  }

  // ---------- the program ----------

  /** Streams deliver what was appended in an order the partitioning decides; nothing below may depend on it. */
  method Stream<T(==)>(appended: seq<T>) returns (delivered: seq<T>)
    ensures multiset(delivered) == multiset(appended)
  {
    delivered :| multiset(delivered) == multiset(appended);
  }

  lemma SameElements<T>(a: seq<T>, b: seq<T>)
    requires multiset(a) == multiset(b)
    ensures forall x :: x in a <==> x in b
    ensures |a| == |b|
  {
    forall x
      ensures x in a <==> x in b
    {
      assert x in a <==> x in multiset(a);
      assert x in b <==> x in multiset(b);
    }
    assert |multiset(a)| == |a| && |multiset(b)| == |b|;
  }

  /** Sum of the labels: what a propagation step brings down. */
  function LabelSum(vs: seq<Vertex>): nat {
    if vs == [] then 0 else LabelSum(vs[..|vs| - 1]) + vs[|vs| - 1].comp
  }

  lemma {:induction false} LabelSumDrops(vs: seq<Vertex>, vs': seq<Vertex>)
    requires |vs| == |vs'| && forall v :: 0 <= v < |vs| ==> vs'[v].comp <= vs[v].comp
    ensures LabelSum(vs') <= LabelSum(vs)
    ensures (exists v :: 0 <= v < |vs| && vs'[v].comp < vs[v].comp) ==> LabelSum(vs') < LabelSum(vs)
  {
    if vs != [] {
      LabelSumDrops(vs[..|vs| - 1], vs'[..|vs| - 1]);
      if v :| 0 <= v < |vs| && vs'[v].comp < vs[v].comp {
        assert v < |vs| - 1 ==> vs'[..|vs| - 1][v].comp < vs[..|vs| - 1][v].comp;
      }
    }
  }

  class Propagation {
    const vertices: array<Vertex>
    var edges: seq<Edge>
    var sccIteration: nat
    var wccIteration: nat

    constructor (n: nat, graph: seq<Edge>)
      ensures fresh(vertices) && vertices.Length == n && edges == graph && sccIteration == 0
    {
      vertices := new Vertex[n](_ => Vertex(NONE, 0, 0));
      edges, sccIteration, wccIteration := graph, 0, 0;
    }

    predicate EdgesInRange()
      reads this
    {
      InRange(EdgeSet(edges), vertices.Length)
    }

    /** `state_iter_callback` at the start of a pass. */
    method StartPass()
      modifies vertices
      ensures forall v {:trigger vertices[v]} :: 0 <= v < vertices.Length ==>
        vertices[v] ==
          if sccIteration == 0 then Vertex(NONE, v, 0)
          else if old(vertices[v]).prev != old(vertices[v]).comp then Vertex(old(vertices[v]).comp, v, 0)
          else old(vertices[v]).(upd := DISCOVERED)
    {
      for v := 0 to vertices.Length
        invariant forall u :: v <= u < vertices.Length ==> vertices[u] == old(vertices[u])
        invariant forall u {:trigger vertices[u]} :: 0 <= u < v ==>
          vertices[u] ==
            if sccIteration == 0 then Vertex(NONE, u, 0)
            else if old(vertices[u]).prev != old(vertices[u]).comp then Vertex(old(vertices[u]).comp, u, 0)
            else old(vertices[u]).(upd := DISCOVERED)
      {
        if sccIteration == 0 {
          vertices[v] := Vertex(NONE, v, 0);
        } else if vertices[v].prev != vertices[v].comp {
          vertices[v] := Vertex(vertices[v].comp, v, 0);
        } else {
          vertices[v] := vertices[v].(upd := DISCOVERED);
        }
      }
    }

    /** `step_wcc_in`: a label smaller than the vertex's own replaces it. */
    method ReceiveLabels(messages: seq<Message>)
      requires forall m :: m in messages ==> m.dst < vertices.Length
      modifies vertices
      ensures forall v :: 0 <= v < vertices.Length ==> Lowered(old(vertices[v]), vertices[v], v, messages, wccIteration)
      ensures forall m :: m in messages ==> vertices[m.dst].comp <= m.comp
    {
      var i := 0;
      while i < |messages|
        invariant 0 <= i <= |messages|
        invariant forall v :: 0 <= v < vertices.Length ==>
          Lowered(old(vertices[v]), vertices[v], v, messages, wccIteration)
        invariant forall j :: 0 <= j < i ==> vertices[messages[j].dst].comp <= messages[j].comp
      {
        var m := messages[i];
        assert m in messages;
        if vertices[m.dst].comp > m.comp {
          vertices[m.dst] := vertices[m.dst].(comp := m.comp, upd := wccIteration);
        }
        i := i + 1;
      }
    }

    /** `step_wcc_out`: the vertices updated in this iteration send their label along their live edges. */
    method SendLabels() returns (messages: seq<Message>)
      requires EdgesInRange()
      ensures forall m :: m in messages ==> Sent(m, EdgeSet(edges), vertices[..], wccIteration)
      ensures forall e :: e in edges && vertices[e.src].upd == wccIteration ==>
        Message(e.src, e.dst, vertices[e.src].comp) in messages
    {
      messages := [];
      var i := 0;
      while i < |edges|
        invariant 0 <= i <= |edges|
        invariant forall m :: m in messages ==> Sent(m, EdgeSet(edges), vertices[..], wccIteration)
        invariant forall j :: 0 <= j < i && vertices[edges[j].src].upd == wccIteration ==>
          Message(edges[j].src, edges[j].dst, vertices[edges[j].src].comp) in messages
      {
        var e := edges[i];
        assert e in EdgeSet(edges);
        if vertices[e.src].upd == wccIteration {
          messages := messages + [Message(e.src, e.dst, vertices[e.src].comp)];
        }
        i := i + 1;
      }
    }
  
    /** One more round of the loop of `scc_do_cc`: take the messages in, send the next ones. */
    method Iterate(messages: seq<Message>) returns (out: seq<Message>)
      requires EdgesInRange() && forall m :: m in messages ==> m.dst < vertices.Length
      modifies this`wccIteration, vertices
      ensures wccIteration == old(wccIteration) + 1
      ensures Iterates(EdgeSet(edges), old(vertices[..]), old(wccIteration), messages, vertices[..], out)
    {
      wccIteration := wccIteration + 1;
      ReceiveLabels(messages);
      out := SendLabels();
    }

    /** `scc_do_cc`: propagate until no message is left. */
    method Propagate(ghost g: set<Edge>)
      requires EdgesInRange() && Between(g, sccIteration, vertices[..], EdgeSet(edges))
      modifies this`wccIteration, vertices
      ensures Settled(sccIteration, old(vertices[..]), EdgeSet(edges), vertices[..])
    {
      ghost var before := vertices[..];
      var out := FirstRound(g);
      FurtherRounds(before, out);
    }

    /** The first iteration: every vertex that takes part sends its own id. */
    method FirstRound(ghost g: set<Edge>) returns (out: seq<Message>)
      requires EdgesInRange() && Between(g, sccIteration, vertices[..], EdgeSet(edges))
      modifies this`wccIteration, vertices
      ensures wccIteration == 0
      ensures Propagating(sccIteration, old(vertices[..]), EdgeSet(edges), vertices[..], 0, out)
    {
      ghost var before := vertices[..];
      wccIteration := 0;
      StartPass();
      out := SendLabels();
      PropagationStarts(g, sccIteration, before, EdgeSet(edges), vertices[..], out);
    }

    method FurtherRounds(ghost before: seq<Vertex>, first: seq<Message>)
      requires EdgesInRange() && wccIteration == 0
      requires Propagating(sccIteration, before, EdgeSet(edges), vertices[..], 0, first)
      modifies this`wccIteration, vertices
      ensures Settled(sccIteration, before, EdgeSet(edges), vertices[..])
    {
      ghost var live := EdgeSet(edges);
      var out := first;
      while out != []
        invariant Propagating(sccIteration, before, live, vertices[..], wccIteration, out)
        decreases LabelSum(vertices[..]), |out|
      {
        ghost var vs := vertices[..];
        var messages := Stream(out);
        SameElements(messages, out);
        var out' := Iterate(messages);
        PropagationStep(sccIteration, before, live, vs, wccIteration - 1, out, messages, vertices[..], out');
        out := out';
      }
    }

    /** `scc_do_elim`: both ends compare labels; the edges that agree come back reversed, the others are counted. */
    method Eliminate() returns (eliminated: nat)
      requires EdgesInRange()
      modifies this`edges
      ensures EdgesInRange()
      ensures Eliminated(vertices[..], EdgeSet(old(edges)), EdgeSet(edges))
      ensures |edges| + eliminated == |old(edges)|
      ensures eliminated > 0 <==> exists e :: e in old(edges) && !Keeps(vertices[..], e)
    {
      var pushed: seq<Message> := [];
      var i := 0;
      while i < |edges|
        invariant 0 <= i <= |edges| && |pushed| == i
        invariant forall j :: 0 <= j < i ==>
          pushed[j] == Message(edges[j].src, edges[j].dst, vertices[edges[j].src].comp)
      {
        assert edges[i] in EdgeSet(edges);
        pushed := pushed + [Message(edges[i].src, edges[i].dst, vertices[edges[i].src].comp)];
        i := i + 1;
      }
      ghost var was := edges;
      forall m: Message
        ensures m in pushed <==> Edge(m.src, m.dst) in was && m.comp == vertices[m.src].comp
      {
        if Edge(m.src, m.dst) in was && m.comp == vertices[m.src].comp {
          var j :| 0 <= j < |was| && was[j] == Edge(m.src, m.dst);
          assert pushed[j] == m;
        }
      }
      var messages := Stream(pushed);
      SameElements(messages, pushed);
      eliminated := 0;
      var kept: seq<Edge> := [];
      i := 0;
      while i < |messages|
        invariant 0 <= i <= |messages| && |kept| + eliminated == i
        invariant forall e :: e in kept <==> exists j :: 0 <= j < i && Survives(vertices[..], messages[j], e)
        invariant eliminated > 0 <==> exists j :: 0 <= j < i && Drops(vertices[..], messages[j])
      {
        var m := messages[i];
        assert m in messages && Edge(m.src, m.dst) in EdgeSet(was);
        if m.comp == vertices[m.dst].comp && vertices[m.dst].comp != vertices[m.dst].prev {
          kept := kept + [Edge(m.dst, m.src)];
        } else {
          eliminated := eliminated + 1;
        }
        i := i + 1;
      }
      edges := kept;
      KeptEdges(vertices[..], was, messages, kept);
      DroppedEdges(vertices[..], was, messages);
    }
  
    /**
     The main loop: double passes until no live edge is left, then the count of the vertices that name their
     own component. The graph is the live edges at the start; the last double pass went from vs0 to vs1 over
     live0, and from there to the end over live1.
     */
    method FindComponents() returns (count: nat, ghost vs0: seq<Vertex>, ghost live0: set<Edge>, ghost vs1: seq<Vertex>,
                                     ghost live1: set<Edge>)
      requires EdgesInRange() && sccIteration == 0
      modifies this, vertices
      ensures edges == []
      ensures Between(EdgeSet(old(edges)), sccIteration, vertices[..], {})
      ensures 2 <= sccIteration <= (if old(edges) == [] then 2 else 2 * |old(edges)|)
      ensures DoublePassed(EdgeSet(old(edges)), sccIteration - 2, vs0, live0, vs1, live1, vertices[..])
      ensures count == |Roots(vertices[..])|
    {
      ghost var g := EdgeSet(edges);
      ghost var most := if edges == [] then 1 else |edges|;
      var remaining := |edges|;
      var more := true;
      vs0, live0, vs1, live1 := [], {}, [], {};
      while more
        invariant EdgesInRange() && Between(g, sccIteration, vertices[..], EdgeSet(edges))
        invariant remaining == |edges| && (more ==> remaining > 0 || sccIteration == 0)
        invariant if sccIteration == 0 then more && remaining <= most else sccIteration + 2 * remaining <= 2 * most
        invariant !more ==> remaining == 0 && sccIteration >= 2
        invariant !more ==> DoublePassed(g, sccIteration - 2, vs0, live0, vs1, live1, vertices[..])
        decreases |edges|, more
      {
        vs0, live0 := vertices[..], EdgeSet(edges);
        var eliminated: nat;
        eliminated, vs1, live1 := DoublePass(g);
        remaining := remaining - eliminated;
        more := remaining > 0;
      }
      assert edges == [] && EdgeSet(edges) == {};
      count := CountRoots();
    }

    /** `step_count_scc`. */
    method CountRoots() returns (count: nat)
      ensures count == |Roots(vertices[..])|
    {
      count := 0;
      for v := 0 to vertices.Length
        invariant count == |set r: nat | r < v && IsRoot(vertices[..], r)|
      {
        RootsNext(vertices[..], v);
        if vertices[v].prev == vertices[v].comp && vertices[v].comp == v {
          count := count + 1;
        }
      }
      assert Roots(vertices[..]) == set r: nat | r < vertices.Length && IsRoot(vertices[..], r);
    }

    /** The body of the main loop: two passes, in opposite directions, which together drop an edge if there is one. */
    method DoublePass(ghost g: set<Edge>) returns (eliminated: nat, ghost vs1: seq<Vertex>, ghost live1: set<Edge>)
      requires EdgesInRange() && Between(g, sccIteration, vertices[..], EdgeSet(edges))
      modifies this, vertices
      ensures EdgesInRange() && Between(g, sccIteration, vertices[..], EdgeSet(edges))
      ensures sccIteration == old(sccIteration) + 2
      ensures |edges| + eliminated == |old(edges)|
      ensures old(edges) != [] ==> eliminated > 0
      ensures DoublePassed(g, old(sccIteration), old(vertices[..]), EdgeSet(old(edges)), vs1, live1, vertices[..])
    {
      ghost var p, vs0, live0 := sccIteration, vertices[..], EdgeSet(edges);
      eliminated := Pass(g);
      vs1, live1 := vertices[..], EdgeSet(edges);
      var second := Pass(g);
      if old(edges) != [] {
        TwoPassesDropAnEdge(g, p, vs0, live0, vs1, live1, vertices[..], old(edges)[0]);
      }
      eliminated := eliminated + second;
    }

    /** `scc_do_cc`, `scc_iteration++`, `scc_do_elim`. */
    method Pass(ghost g: set<Edge>) returns (eliminated: nat)
      requires EdgesInRange() && Between(g, sccIteration, vertices[..], EdgeSet(edges))
      modifies this, vertices
      ensures sccIteration == old(sccIteration) + 1
      ensures EdgesInRange() && Between(g, sccIteration, vertices[..], EdgeSet(edges))
      ensures Settled(old(sccIteration), old(vertices[..]), EdgeSet(old(edges)), vertices[..])
      ensures InRange(EdgeSet(old(edges)), vertices.Length)
      ensures Eliminated(vertices[..], EdgeSet(old(edges)), EdgeSet(edges))
      ensures |edges| + eliminated == |old(edges)|
      ensures eliminated > 0 <==> exists e :: e in EdgeSet(old(edges)) && !Keeps(vertices[..], e)
    {
      Propagate(g);
      sccIteration := sccIteration + 1;
      eliminated := Eliminate();
      PassKeeps(g, old(sccIteration), old(vertices[..]), EdgeSet(old(edges)), vertices[..], EdgeSet(edges));
    }
  }

  /** A vertex `step_count_scc` counts: it is its own label, twice. */
  predicate IsRoot(vs: seq<Vertex>, v: nat)
    requires v < |vs|
  {
    vs[v].prev == vs[v].comp && vs[v].comp == v
  }

  function Roots(vs: seq<Vertex>): set<nat> {
    set v: nat | v < |vs| && IsRoot(vs, v)
  }

  lemma RootsNext(vs: seq<Vertex>, v: nat)
    requires v < |vs|
    ensures |set r: nat | r < v + 1 && IsRoot(vs, r)| == |set r: nat | r < v && IsRoot(vs, r)| + if IsRoot(vs, v) then 1
      else 0
  {
    var upTo := set r: nat | r < v && IsRoot(vs, r);
    assert (set r: nat | r < v + 1 && IsRoot(vs, r)) == upTo + if IsRoot(vs, v) then {v} else {};
  }

  // ---------- main results ----------

  /**
   Soundness of the labels at the end of the run: a vertex whose two labels agree is strongly connected to its
   label, which is the smallest vertex of the component, is itself counted, and labels the whole component.
   */
  lemma LabelsNameComponents(g: set<Edge>, p: nat, vs: seq<Vertex>, v: nat)
    requires p > 0 && Between(g, p, vs, {})
    requires v < |vs| && vs[v].prev == vs[v].comp
    ensures Found(g, vs, v) && vs[v].comp in Roots(vs)
    ensures forall u: nat :: u < |vs| && StronglyConnected(g, v, u) ==>
      vs[u].comp == vs[v].comp && vs[u].prev == vs[v].comp
  {
    assert Found(g, vs, v);
    ReachSelf(g, v);
    assert StronglyConnected(g, v, v);
    assert StronglyConnected(g, vs[v].comp, v);
  }

  /** Different counted vertices lie in different components. */
  lemma RootsAreDistinctComponents(g: set<Edge>, p: nat, vs: seq<Vertex>, r: nat, s: nat)
    requires p > 0 && Between(g, p, vs, {})
    requires r in Roots(vs) && s in Roots(vs) && StronglyConnected(g, r, s)
    ensures r == s
  {
  }

  /** The smallest vertex of each component: one per component. */
  ghost function Representatives(g: set<Edge>, n: nat): set<nat> {
    set v: nat | v < n && IsSmallest(g, n, v)
  }

  ghost predicate IsSmallest(g: set<Edge>, n: nat, v: nat) {
    forall u: nat :: u < n && StronglyConnected(g, v, u) ==> v <= u
  }

  ghost predicate HasInternalEdge(g: set<Edge>, v: nat) {
    exists u: nat :: Edge(v, u) in g && StronglyConnected(g, v, u)
  }

  /** Only representatives are counted, and all those of components with an edge inside. */
  lemma CountedComponents(g: set<Edge>, p: nat, vs: seq<Vertex>)
    requires p > 0 && Between(g, p, vs, {})
    ensures Roots(vs) <= Representatives(g, |vs|)
    ensures forall v :: v in Representatives(g, |vs|) && HasInternalEdge(g, v) ==> v in Roots(vs)
    ensures (forall v: nat :: v < |vs| ==> HasInternalEdge(g, v)) ==> Roots(vs) == Representatives(g, |vs|)
  {
    forall v | v in Representatives(g, |vs|) && HasInternalEdge(g, v)
      ensures v in Roots(vs)
    {
      var u: nat :| Edge(v, u) in g && StronglyConnected(g, v, u);
      InternalEdgeFound(g, p, vs, v, u);
      LabelsNameComponents(g, p, vs, v);
      assert StronglyConnected(g, v, vs[v].comp);
    }
    forall v | v in Roots(vs)
      ensures v in Representatives(g, |vs|)
    {
      assert Found(g, vs, v);
    }
  }

  // ---------- which vertices are counted ----------

  /** Two consecutive passes. */
  ghost predicate DoublePassed(g: set<Edge>, p: nat, vs0: seq<Vertex>, live0: set<Edge>, vs1: seq<Vertex>,
                               live1: set<Edge>,
                               vs2: seq<Vertex>) {
    && Between(g, p, vs0, live0) && Settled(p, vs0, live0, vs1) && InRange(live0, |vs1|) &&
      Eliminated(vs1, live0, live1)
    && InRange(live1, |vs2|) && Settled(p + 1, vs1, live1, vs2)
  }

  /** A smaller vertex reaches v along live edges. */
  ghost predicate Undercut(live: set<Edge>, v: nat) {
    exists u: nat :: u < v && Reach(live, u, v)
  }

  /** A vertex that takes part keeps its own id as its label exactly when no smaller vertex reaches it. */
  lemma OwnLabelIff(g: set<Edge>, p: nat, vs: seq<Vertex>, live: set<Edge>, vs': seq<Vertex>, v: nat)
    requires Between(g, p, vs, live) && Settled(p, vs, live, vs') && v < |vs| && Active(p, vs[v])
    ensures vs'[v].comp == v <==> !Undercut(live, v)
  {
    if u: nat :| u < v && Reach(live, u, v) {
      LabelAlongPath(live, vs', u, v);
      if !Active(p, vs[u]) {
        ReachSelf(g, u);
        assert Found(g, vs, u) && StronglyConnected(g, u, u);
      }
    }
  }

  /** Live edges lead to vertices that take part. */
  lemma FoundAreNotReached(g: set<Edge>, p: nat, vs: seq<Vertex>, live: set<Edge>, v: nat)
    requires p > 0 && Between(g, p, vs, live) && v < |vs| && !Active(p, vs[v])
    ensures !Undercut(live, v)
  {
    if u: nat :| u < v && Reach(live, u, v) {
      var path :| PathFromTo(live, path, u, v);
      var k := |path| - 2;
      assert Edge(path[k], path[k + 1]) in live;
    }
  }

  /**
   A vertex is counted exactly when it had been found before the last double pass, as the smallest of its component,
   or no smaller vertex reached it along the live edges in either of the two passes.
   */
  lemma CountedIff(g: set<Edge>, p: nat, vs0: seq<Vertex>, live0: set<Edge>, vs1: seq<Vertex>, live1: set<Edge>,
                   vs2: seq<Vertex>,
                   v: nat)
    requires DoublePassed(g, p, vs0, live0, vs1, live1, vs2) && v < |vs0|
    ensures IsRoot(vs2, v) <==>
      if Active(p, vs0[v]) then !Undercut(live0, v) && !Undercut(live1, v) else vs0[v].comp == v
  {
    PassKeeps(g, p, vs0, live0, vs1, live1);
    if Active(p, vs0[v]) {
      OwnLabelIff(g, p, vs0, live0, vs1, v);
      if Active(p + 1, vs1[v]) {
        OwnLabelIff(g, p + 1, vs1, live1, vs2, v);
      } else {
        FoundAreNotReached(g, p + 1, vs1, live1, v);
      }
    }
  }

  /** A lone vertex for which the count depends on the last double pass. */
  ghost predicate LoneAndUndercut(g: set<Edge>, p: nat, vs0: seq<Vertex>, live0: set<Edge>, live1: set<Edge>, v: nat) {
    && v < |vs0| && IsSmallest(g, |vs0|, v) && !HasInternalEdge(g, v)
    && Active(p, vs0[v]) && (Undercut(live0, v) || Undercut(live1, v))
  }

  lemma InternalIsRoot(g: set<Edge>, p: nat, vs: seq<Vertex>, v: nat)
    requires p > 0 && Between(g, p, vs, {}) && v < |vs| && IsSmallest(g, |vs|, v) && HasInternalEdge(g, v)
    ensures IsRoot(vs, v)
  {
    var u: nat :| Edge(v, u) in g && StronglyConnected(g, v, u);
    InternalEdgeFound(g, p, vs, v, u);
    LabelsNameComponents(g, p, vs, v);
    assert StronglyConnected(g, v, vs[v].comp);
  }

  lemma FoundSmallest(g: set<Edge>, p: nat, vs: seq<Vertex>, live: set<Edge>, v: nat)
    requires Between(g, p, vs, live) && v < |vs| && !Active(p, vs[v]) && IsSmallest(g, |vs|, v)
    ensures vs[v].comp == v
  {
    assert Found(g, vs, v);
    ReachSelf(g, v);
    assert StronglyConnected(g, v, v) && StronglyConnected(g, v, vs[v].comp);
  }

  /** What the last double pass says about vertex v. */
  ghost predicate CountedAs(p: nat, vs0: seq<Vertex>, live0: set<Edge>, live1: set<Edge>, vs2: seq<Vertex>, v: nat) {
    v < |vs0| == |vs2| ==>
      (IsRoot(vs2, v) <==> if Active(p, vs0[v]) then !Undercut(live0, v) && !Undercut(live1, v) else vs0[v].comp == v)
  }

  ghost predicate EveryCountedAs(p: nat, vs0: seq<Vertex>, live0: set<Edge>, live1: set<Edge>, vs2: seq<Vertex>) {
    |vs0| == |vs2| && forall v: nat :: CountedAs(p, vs0, live0, live1, vs2, v)
  }

  lemma AllCountedAs(g: set<Edge>, p: nat, vs0: seq<Vertex>, live0: set<Edge>, vs1: seq<Vertex>, live1: set<Edge>,
                     vs2: seq<Vertex>)
    requires DoublePassed(g, p, vs0, live0, vs1, live1, vs2)
    ensures EveryCountedAs(p, vs0, live0, live1, vs2)
  {
    forall v: nat
      ensures CountedAs(p, vs0, live0, live1, vs2, v)
    {
      if v < |vs0| {
        CountedIff(g, p, vs0, live0, vs1, live1, vs2, v);
      }
    }
  }

  /** The smallest vertex of a component with an edge inside is counted, that of one found earlier is its label. */
  ghost predicate SmallestAs(g: set<Edge>, p: nat, vs0: seq<Vertex>, vs2: seq<Vertex>, v: nat) {
    v < |vs0| == |vs2| && IsSmallest(g, |vs0|, v) ==>
      && (HasInternalEdge(g, v) ==> IsRoot(vs2, v))
      && (!Active(p, vs0[v]) ==> vs0[v].comp == v)
  }

  ghost predicate EverySmallestAs(g: set<Edge>, p: nat, vs0: seq<Vertex>, vs2: seq<Vertex>) {
    Roots(vs2) <= Representatives(g, |vs2|) && forall v: nat :: SmallestAs(g, p, vs0, vs2, v)
  }

  lemma AllSmallestAs(g: set<Edge>, p: nat, vs0: seq<Vertex>, live0: set<Edge>, q: nat, vs2: seq<Vertex>)
    requires Between(g, p, vs0, live0) && q > 0 && Between(g, q, vs2, {})
    ensures EverySmallestAs(g, p, vs0, vs2)
  {
    RootsAreSmallest(g, q, vs2);
    forall v: nat
      ensures SmallestAs(g, p, vs0, vs2, v)
    {
      if v < |vs0| == |vs2| && IsSmallest(g, |vs0|, v) {
        if HasInternalEdge(g, v) {
          InternalIsRoot(g, q, vs2, v);
        }
        if !Active(p, vs0[v]) {
          FoundSmallest(g, p, vs0, live0, v);
        }
      }
    }
  }

  /** A smallest vertex is counted unless the last double pass undercuts it and its component has no edge inside. */
  lemma SmallestCountedIff(g: set<Edge>, p: nat, vs0: seq<Vertex>, live0: set<Edge>, live1: set<Edge>,
                           vs2: seq<Vertex>, v: nat)
    requires CountedAs(p, vs0, live0, live1, vs2, v) && SmallestAs(g, p, vs0, vs2, v) && |vs0| == |vs2|
    ensures LoneAndUndercut(g, p, vs0, live0, live1, v) <==> v in Representatives(g, |vs2|) && v !in Roots(vs2)
  {
  }

  lemma AllCounted(g: set<Edge>, p: nat, vs0: seq<Vertex>, live0: set<Edge>, live1: set<Edge>, vs2: seq<Vertex>)
    requires |vs0| == |vs2| && Roots(vs2) <= Representatives(g, |vs2|)
    requires forall v: nat :: CountedAs(p, vs0, live0, live1, vs2, v)
    requires forall v: nat :: SmallestAs(g, p, vs0, vs2, v)
    ensures CountIsRight(g, vs2) <==> NothingUndercut(g, p, vs0, live0, live1)
  {
    SameSizeIff(Roots(vs2), Representatives(g, |vs2|));
    forall v: nat
      ensures LoneAndUndercut(g, p, vs0, live0, live1, v) <==> v in Representatives(g, |vs2|) && v !in Roots(vs2)
    {
      SmallestCountedIff(g, p, vs0, live0, live1, vs2, v);
    }
  }

  /** As many vertices are counted as there are components. */
  ghost predicate CountIsRight(g: set<Edge>, vs: seq<Vertex>) {
    |Roots(vs)| == |Representatives(g, |vs|)|
  }

  ghost predicate NothingUndercut(g: set<Edge>, p: nat, vs0: seq<Vertex>, live0: set<Edge>, live1: set<Edge>) {
    forall v: nat :: !LoneAndUndercut(g, p, vs0, live0, live1, v)
  }

  /** All that is needed of the last double pass, vertex by vertex. */
  ghost predicate LastPassSays(g: set<Edge>, p: nat, vs0: seq<Vertex>, live0: set<Edge>, live1: set<Edge>,
                               vs2: seq<Vertex>) {
    EveryCountedAs(p, vs0, live0, live1, vs2) && EverySmallestAs(g, p, vs0, vs2)
  }

  lemma LastPass(g: set<Edge>, p: nat, vs0: seq<Vertex>, live0: set<Edge>, vs1: seq<Vertex>, live1: set<Edge>,
                 vs2: seq<Vertex>)
    requires DoublePassed(g, p, vs0, live0, vs1, live1, vs2) && Between(g, p + 2, vs2, {})
    ensures LastPassSays(g, p, vs0, live0, live1, vs2)
  {
    AllCountedAs(g, p, vs0, live0, vs1, live1, vs2);
    AllSmallestAs(g, p, vs0, live0, p + 2, vs2);
  }

  /**
   The count is the number of components exactly when the last double pass undercuts no component that has no edge
   inside. All others are counted once.
   */
  lemma CountIsRightIff(g: set<Edge>, p: nat, vs0: seq<Vertex>, live0: set<Edge>, live1: set<Edge>, vs2: seq<Vertex>)
    requires LastPassSays(g, p, vs0, live0, live1, vs2)
    ensures CountIsRight(g, vs2) <==> NothingUndercut(g, p, vs0, live0, live1)
  {
    AllCounted(g, p, vs0, live0, live1, vs2);
  }

  lemma RootsAreSmallest(g: set<Edge>, p: nat, vs: seq<Vertex>)
    requires p > 0 && Between(g, p, vs, {})
    ensures Roots(vs) <= Representatives(g, |vs|)
  {
    CountedComponents(g, p, vs);
  }

  lemma SameSizeIff(a: set<nat>, b: set<nat>)
    requires a <= b
    ensures |a| == |b| <==> forall x :: x in b ==> x in a
  {
    if x :| x in b && x !in a {
      SmallerSubset(a, b - {x});
    } else {
      assert a == b;
    }
  }

  lemma {:induction false} SmallerSubset(a: set<nat>, b: set<nat>)
    requires a <= b
    ensures |a| <= |b|
  {
    if a != {} {
      var x :| x in a;
      SmallerSubset(a - {x}, b - {x});
    }
  }

  /** A vertex without any edge is counted. */
  lemma IsolatedIsCounted(g: set<Edge>, p: nat, vs0: seq<Vertex>, live0: set<Edge>, vs1: seq<Vertex>, live1: set<Edge>,
                          vs2: seq<Vertex>, v: nat)
    requires DoublePassed(g, p, vs0, live0, vs1, live1, vs2) && v < |vs0|
    requires forall e :: e in g ==> e.src != v && e.dst != v
    ensures IsRoot(vs2, v)
  {
    CountedIff(g, p, vs0, live0, vs1, live1, vs2, v);
    PassKeeps(g, p, vs0, live0, vs1, live1);
    NotReached(Direction(g, p), live0, v);
    NotReached(Direction(g, p + 1), live1, v);
    if !Active(p, vs0[v]) {
      assert Found(g, vs0, v);
      OnlyItself(g, vs0[v].comp, v);
    }
  }

  /** Nothing reaches a vertex without edges. */
  lemma NotReached(all: set<Edge>, live: set<Edge>, v: nat)
    requires live <= all && forall e :: e in all ==> e.dst != v
    ensures !Undercut(live, v)
  {
    if u: nat :| u < v && Reach(live, u, v) {
      OnlyItself(all, u, v) by {
        ReachMonotone(live, all, u, v);
      }
    }
  }

  lemma OnlyItself(all: set<Edge>, u: nat, v: nat)
    requires Reach(all, u, v) && forall e :: e in all ==> e.dst != v
    ensures u == v
  {
    var path :| PathFromTo(all, path, u, v);
    if |path| > 1 {
      LastEdge(all, path);
    }
  }

  lemma LastEdge(all: set<Edge>, path: seq<nat>)
    requires Path(all, path) && |path| > 1
    ensures Edge(path[|path| - 2], path[|path| - 1]) in all
  {
  }

  /**
   A component without an internal edge can be missed: on the graph 0 -> 1 the main loop ends with only vertex 0
   counted, though vertex 1 is a component of its own.
   */
  method LoneVertexMissed() returns (count: nat)
    ensures count == 1 && Representatives({Edge(0, 1)}, 2) == {0, 1}
  {
    var run := new Propagation(2, [Edge(0, 1)]);
    ghost var g := EdgeSet(run.edges);
    assert g == {Edge(0, 1)};
    ghost var vs0, live0, vs1, live1;
    count, vs0, live0, vs1, live1 := run.FindComponents();
    CountedIff(g, 0, vs0, live0, vs1, live1, run.vertices[..], 0);
    CountedIff(g, 0, vs0, live0, vs1, live1, run.vertices[..], 1);
    ReachEdge(g, 0, 1);
    assert Undercut(g, 1);
    assert Roots(run.vertices[..]) == {0};
    OneWay();
  }

  /** The two vertices of 0 -> 1 are components of their own. */
  lemma OneWay()
    ensures Representatives({Edge(0, 1)}, 2) == {0, 1}
  {
    var g := {Edge(0, 1)};
    if StronglyConnected(g, 1, 0) {
      OnlyItself(g, 1, 0);
    }
    assert IsSmallest(g, 2, 0) && IsSmallest(g, 2, 1);
  }

  predicate Survives(vs: seq<Vertex>, m: Message, e: Edge) {
    m.dst < |vs| && m.comp == vs[m.dst].comp && vs[m.dst].comp != vs[m.dst].prev && e == Edge(m.dst, m.src)
  }

  predicate Drops(vs: seq<Vertex>, m: Message) {
    m.dst < |vs| && !(m.comp == vs[m.dst].comp && vs[m.dst].comp != vs[m.dst].prev)
  }

  ghost predicate Pushed(vs: seq<Vertex>, was: seq<Edge>, messages: seq<Message>)
    requires InRange(EdgeSet(was), |vs|)
  {
    forall m: Message :: m in messages <==> Edge(m.src, m.dst) in EdgeSet(was) && m.comp == vs[m.src].comp
  }

  lemma KeptEdges(vs: seq<Vertex>, was: seq<Edge>, messages: seq<Message>, kept: seq<Edge>)
    requires InRange(EdgeSet(was), |vs|) && Pushed(vs, was, messages)
    requires forall e :: e in kept <==> exists j :: 0 <= j < |messages| && Survives(vs, messages[j], e)
    ensures Eliminated(vs, EdgeSet(was), EdgeSet(kept)) && InRange(EdgeSet(kept), |vs|)
  {
    forall e
      ensures e in EdgeSet(kept) <==> Flip(e) in EdgeSet(was) && Keeps(vs, Flip(e))
    {
      if Flip(e) in EdgeSet(was) && Keeps(vs, Flip(e)) {
        var m := Message(e.dst, e.src, vs[e.dst].comp);
        assert m in messages;
        var j :| 0 <= j < |messages| && messages[j] == m;
        assert Survives(vs, messages[j], e);
      }
      if e in EdgeSet(kept) {
        var j :| 0 <= j < |messages| && Survives(vs, messages[j], e);
        assert messages[j] in messages;
      }
    }
  }

  lemma DroppedEdges(vs: seq<Vertex>, was: seq<Edge>, messages: seq<Message>)
    requires InRange(EdgeSet(was), |vs|) && Pushed(vs, was, messages)
    ensures (exists j :: 0 <= j < |messages| && Drops(vs, messages[j])) <==> (exists e :: e in was && !Keeps(vs, e))
  {
    if j :| 0 <= j < |messages| && Drops(vs, messages[j]) {
      var m := messages[j];
      assert m in messages;
      assert Edge(m.src, m.dst) in was && !Keeps(vs, Edge(m.src, m.dst));
    }
    if e :| e in was && !Keeps(vs, e) {
      assert e in EdgeSet(was);
      var m := Message(e.src, e.dst, vs[e.src].comp);
      assert m in messages;
      var j :| 0 <= j < |messages| && messages[j] == m;
      assert Drops(vs, messages[j]);
    }
  }

  /** What receiving a batch of messages does to vertex v. */
  predicate Lowered(before: Vertex, after: Vertex, v: nat, messages: seq<Message>, iteration: nat) {
    && after.prev == before.prev && after.comp <= before.comp
    && (after.comp == before.comp ==> after == before)
    && (after.comp < before.comp ==>
          after.upd == iteration && exists m :: m in messages && m.dst == v && m.comp == after.comp)
  }

  /** A message of the iteration: along a live edge, from a vertex updated in it, with that vertex's label. */
  predicate Sent(m: Message, live: set<Edge>, vs: seq<Vertex>, iteration: nat) {
    && m.src < |vs| && Edge(m.src, m.dst) in live
    && vs[m.src].upd == iteration && m.comp == vs[m.src].comp
  }

  /** After an iteration of a pass: labels are sound, and every edge is at rest or has its message under way. */
  ghost predicate Propagating(p: nat, before: seq<Vertex>, live: set<Edge>, vs: seq<Vertex>, iteration: nat,
                              out: seq<Message>) {
    && |vs| == |before| && InRange(live, |vs|)
    && (forall v: nat :: v < |vs| && Active(p, before[v]) ==>
          && vs[v].prev == (if p == 0 then NONE else before[v].comp)
          && vs[v].comp <= v && Reach(live, vs[v].comp, v)
          && 0 <= vs[v].upd <= iteration)
    && (forall v: nat :: v < |vs| && !Active(p, before[v]) ==>
          vs[v].prev == before[v].prev && vs[v].comp == before[v].comp && vs[v].upd == DISCOVERED)
    && (forall e :: e in live ==> Active(p, before[e.src]) && Active(p, before[e.dst]))
    && (forall m :: m in out ==> Sent(m, live, vs, iteration))
    && (forall e :: e in live ==> vs[e.dst].comp <= vs[e.src].comp || Message(e.src, e.dst, vs[e.src].comp) in out)
  }

  lemma PropagationStarts(g: set<Edge>, p: nat, before: seq<Vertex>, live: set<Edge>, vs: seq<Vertex>,
                          out: seq<Message>)
    requires Between(g, p, before, live) && InRange(live, |before|) && |vs| == |before|
    requires forall v {:trigger vs[v]} :: 0 <= v < |vs| ==>
      vs[v] ==
        if p == 0 then Vertex(NONE, v, 0)
        else if before[v].prev != before[v].comp then Vertex(before[v].comp, v, 0)
        else before[v].(upd := DISCOVERED)
    requires forall m :: m in out ==> Sent(m, live, vs, 0)
    requires forall e :: e in live && vs[e.src].upd == 0 ==> Message(e.src, e.dst, vs[e.src].comp) in out
    ensures Propagating(p, before, live, vs, 0, out)
  {
    forall v: nat | v < |vs|
      ensures Reach(live, v, v)
    {
      ReachSelf(live, v);
    }
  }

  /** One iteration: `messages` (the delivered `out`) lower the labels of vs to vs', and out' is sent. */
  ghost predicate Iterates(live: set<Edge>, vs: seq<Vertex>, k: nat, messages: seq<Message>, vs': seq<Vertex>,
                           out': seq<Message>) {
    && |vs'| == |vs| && InRange(live, |vs|)
    && (forall v :: 0 <= v < |vs| ==> Lowered(vs[v], vs'[v], v, messages, k + 1))
    && (forall m :: m in messages ==> m.dst < |vs| && vs'[m.dst].comp <= m.comp)
    && (forall m :: m in out' ==> Sent(m, live, vs', k + 1))
    && (forall e :: e in live && vs'[e.src].upd == k + 1 ==> Message(e.src, e.dst, vs'[e.src].comp) in out')
  }

  lemma LoweredLabelIsSound(p: nat, before: seq<Vertex>, live: set<Edge>, vs: seq<Vertex>, k: nat, out: seq<Message>,
                            messages: seq<Message>, v: nat, root: nat)
    requires Propagating(p, before, live, vs, k, out) && v < |vs|
    requires forall m :: m in messages ==> m in out
    requires exists m :: m in messages && m.dst == v && m.comp == root
    ensures Active(p, before[v]) && Reach(live, root, v)
  {
    var m :| m in messages && m.dst == v && m.comp == root;
    assert Sent(m, live, vs, k);
    ReachEdge(live, m.src, v);
    ReachTrans(live, m.comp, m.src, v);
  }

  lemma EdgeAtRestOrSent(p: nat, before: seq<Vertex>, live: set<Edge>, vs: seq<Vertex>, k: nat, out: seq<Message>,
                         messages: seq<Message>, vs': seq<Vertex>, out': seq<Message>, e: Edge)
    requires Propagating(p, before, live, vs, k, out) && Iterates(live, vs, k, messages, vs', out')
    requires forall m :: m in out ==> m in messages
    requires e in live
    ensures vs'[e.dst].comp <= vs'[e.src].comp || Message(e.src, e.dst, vs'[e.src].comp) in out'
  {
    assert Lowered(vs[e.src], vs'[e.src], e.src, messages, k + 1);
    assert Lowered(vs[e.dst], vs'[e.dst], e.dst, messages, k + 1);
    var m := Message(e.src, e.dst, vs[e.src].comp);
    assert vs[e.dst].comp <= vs[e.src].comp || m in messages;
  }

  lemma PropagationStep(p: nat, before: seq<Vertex>, live: set<Edge>, vs: seq<Vertex>, k: nat, out: seq<Message>,
                        messages: seq<Message>, vs': seq<Vertex>, out': seq<Message>)
    requires Propagating(p, before, live, vs, k, out) && Iterates(live, vs, k, messages, vs', out')
    requires forall m :: m in messages <==> m in out
    ensures Propagating(p, before, live, vs', k + 1, out')
    ensures LabelSum(vs') <= LabelSum(vs) && (out' != [] ==> LabelSum(vs') < LabelSum(vs))
  {
    forall v: nat | v < |vs|
      ensures vs'[v].comp == vs[v].comp ==> vs'[v] == vs[v]
      ensures vs'[v].prev == vs[v].prev && vs'[v].comp <= vs[v].comp
      ensures vs'[v].comp < vs[v].comp ==> vs'[v].upd == k + 1 && Active(p, before[v]) && Reach(live, vs'[v].comp, v)
    {
      assert Lowered(vs[v], vs'[v], v, messages, k + 1);
      if vs'[v].comp < vs[v].comp {
        LoweredLabelIsSound(p, before, live, vs, k, out, messages, v, vs'[v].comp);
      }
    }
    forall e | e in live
      ensures vs'[e.dst].comp <= vs'[e.src].comp || Message(e.src, e.dst, vs'[e.src].comp) in out'
    {
      EdgeAtRestOrSent(p, before, live, vs, k, out, messages, vs', out', e);
    }
    IterationLowersLabels(p, before, live, vs, k, out, messages, vs', out');
  }

  /** An iteration that sends anything has lowered a label. */
  lemma IterationLowersLabels(p: nat, before: seq<Vertex>, live: set<Edge>, vs: seq<Vertex>, k: nat, out: seq<Message>,
                              messages: seq<Message>, vs': seq<Vertex>, out': seq<Message>)
    requires Propagating(p, before, live, vs, k, out) && Iterates(live, vs, k, messages, vs', out')
    ensures LabelSum(vs') <= LabelSum(vs) && (out' != [] ==> LabelSum(vs') < LabelSum(vs))
  {
    LabelSumDrops(vs, vs');
    if out' != [] {
      var m := out'[0];
      assert m in out';
      assert Sent(m, live, vs', k + 1);
      assert Lowered(vs[m.src], vs'[m.src], m.src, messages, k + 1);
      assert vs'[m.src].comp < vs[m.src].comp;
    }
  }
}
