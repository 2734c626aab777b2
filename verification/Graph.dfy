/** Directed graphs as sets of edges: paths, reachability, strong connectivity. */
module Graph {

  datatype Edge = Edge(src: nat, dst: nat)

  function EdgeSet(edges: seq<Edge>): (r: set<Edge>)
    ensures forall e :: e in r <==> e in edges
  {
    set e | e in edges
  }

  function Flip(e: Edge): Edge {
    Edge(e.dst, e.src)
  }

  function Reverse(g: set<Edge>): (r: set<Edge>)
    ensures forall e :: e in r <==> Flip(e) in g
  {
    var r := set e | e in g :: Flip(e);
    assert forall e :: Flip(e) in g ==> Flip(Flip(e)) in r;
    r
  }

  /** A walk along edges of g, given by the vertices it visits. */
  ghost predicate Path(g: set<Edge>, p: seq<nat>) {
    && |p| > 0
    && forall i, j :: 0 <= i < j < |p| && j == i + 1 ==> Edge(p[i], p[j]) in g
  }

  ghost predicate PathFromTo(g: set<Edge>, p: seq<nat>, u: nat, v: nat) {
    Path(g, p) && p[0] == u && p[|p| - 1] == v
  }

  ghost predicate Reach(g: set<Edge>, u: nat, v: nat) {
    exists p :: PathFromTo(g, p, u, v)
  }

  ghost predicate StronglyConnected(g: set<Edge>, u: nat, v: nat) {
    Reach(g, u, v) && Reach(g, v, u)
  }

  lemma ReachSelf(g: set<Edge>, u: nat)
    ensures Reach(g, u, u)
  {
    assert PathFromTo(g, [u], u, u);
  }

  lemma ReachEdge(g: set<Edge>, u: nat, v: nat)
    requires Edge(u, v) in g
    ensures Reach(g, u, v)
  {
    assert PathFromTo(g, [u, v], u, v);
  }

  lemma ReachTrans(g: set<Edge>, u: nat, v: nat, w: nat)
    requires Reach(g, u, v) && Reach(g, v, w)
    ensures Reach(g, u, w)
  {
    var p :| PathFromTo(g, p, u, v);
    var q :| PathFromTo(g, q, v, w);
    var r := p + q[1..];
    forall i, j | 0 <= i < j < |r| && j == i + 1
      ensures Edge(r[i], r[j]) in g
    {
      if j < |p| {
        assert Edge(p[i], p[j]) in g;
      } else {
        assert r[i] == q[i - |p| + 1] && r[j] == q[j - |p| + 1];
      }
    }
    assert PathFromTo(g, r, u, w);
  }

  lemma ReachMonotone(g: set<Edge>, h: set<Edge>, u: nat, v: nat)
    requires g <= h && Reach(g, u, v)
    ensures Reach(h, u, v)
  {
    var p :| PathFromTo(g, p, u, v);
    assert PathFromTo(h, p, u, v);
  }

  lemma ReachReverse(g: set<Edge>, u: nat, v: nat)
    requires Reach(g, u, v)
    ensures Reach(Reverse(g), v, u)
  {
    var p :| PathFromTo(g, p, u, v);
    var n := |p|;
    var r := seq(n, i requires 0 <= i < n => p[n - 1 - i]);
    forall i, j | 0 <= i < j < n && j == i + 1
      ensures Edge(r[i], r[j]) in Reverse(g)
    {
      assert Edge(p[n - 1 - j], p[n - 1 - i]) in g;
    }
    assert PathFromTo(Reverse(g), r, v, u);
  }

  lemma PathPrefix(g: set<Edge>, p: seq<nat>, i: nat)
    requires Path(g, p) && i < |p|
    ensures Reach(g, p[0], p[i]) && Reach(g, p[i], p[|p| - 1])
  {
    assert PathFromTo(g, p[..i + 1], p[0], p[i]);
    assert PathFromTo(g, p[i..], p[i], p[|p| - 1]);
  }

  /** On a path between strongly connected vertices everything is strongly connected. */
  lemma PathInsideComponent(g: set<Edge>, p: seq<nat>, u: nat, v: nat, i: nat)
    requires PathFromTo(g, p, u, v) && Reach(g, v, u) && i < |p|
    ensures StronglyConnected(g, u, p[i])
  {
    PathPrefix(g, p, i);
    ReachTrans(g, p[i], v, u);
  }

  lemma StronglyConnectedReverse(g: set<Edge>, u: nat, v: nat)
    requires StronglyConnected(g, u, v)
    ensures StronglyConnected(Reverse(g), u, v)
  {
    ReachReverse(g, u, v);
    ReachReverse(g, v, u);
  }

  lemma StronglyConnectedTrans(g: set<Edge>, u: nat, v: nat, w: nat)
    requires StronglyConnected(g, u, v) && StronglyConnected(g, v, w)
    ensures StronglyConnected(g, u, w)
  {
    ReachTrans(g, u, v, w);
    ReachTrans(g, w, v, u);
  }
}
