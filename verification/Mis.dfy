/**
 Maximal independent set by repeated voting (algorithms/mis/mis.hpp on the superstep loop of
 core/sg_driver.hpp): every phase starts from all vertices, and a vertex that was in at the end of the last
 phase votes out its higher-numbered neighbours.
 */
module Mis {
  import opened Graph

  // ---------- the phases as sets ----------

  function Vertices(n: nat): (r: set<nat>)
    ensures |r| == n && forall v: nat :: v in r <==> v < n
  {
    if n == 0 then {} else Vertices(n - 1) + {n - 1}
  }

  /** v is voted out by the members of s. */
  predicate VotedOut(g: set<Edge>, s: set<nat>, v: nat) {
    exists u :: u in s && u < v && Edge(u, v) in g
  }

  /** The set after one phase whose votes come from s. */
  function Survivors(g: set<Edge>, n: nat, s: set<nat>): set<nat> {
    set v | v in Vertices(n) && !VotedOut(g, s, v)
  }

  /** The set at the end of phase p. */
  function Phase(g: set<Edge>, n: nat, p: nat): set<nat> {
    if p == 0 then Vertices(n) else Survivors(g, n, Phase(g, n, p - 1))
  }

  lemma SurvivorsAntitone(g: set<Edge>, n: nat, s: set<nat>, t: set<nat>)
    requires s <= t
    ensures Survivors(g, n, t) <= Survivors(g, n, s)
  {
  }

  /** The phases are nested: even ones shrink, odd ones grow, and every odd one lies inside every even one. */
  lemma {:induction false} Nested(g: set<Edge>, n: nat, p: nat)
    ensures p % 2 == 0 ==> Phase(g, n, p + 1) <= Phase(g, n, p + 2) <= Phase(g, n, p)
    ensures p % 2 == 1 ==> Phase(g, n, p) <= Phase(g, n, p + 2) <= Phase(g, n, p + 1)
  {
    var a, b, c := Phase(g, n, p), Phase(g, n, p + 1), Phase(g, n, p + 2);
    assert b == Survivors(g, n, a) && c == Survivors(g, n, b);
    if p == 0 {
      SurvivorsAntitone(g, n, b, a);
    } else {
      Nested(g, n, p - 1);
      var z := Phase(g, n, p - 1);
      assert a == Survivors(g, n, z);
      if p % 2 == 0 {
        SurvivorsAntitone(g, n, z, b);
        SurvivorsAntitone(g, n, b, a);
      } else {
        SurvivorsAntitone(g, n, b, z);
        SurvivorsAntitone(g, n, a, b);
      }
    }
  }

  /** Hence two consecutive phases of equal size are equal: the stop test is sound. */
  lemma EqualCountsMeanEqualSets(g: set<Edge>, n: nat, p: nat)
    requires |Phase(g, n, p)| == |Phase(g, n, p + 1)|
    ensures Phase(g, n, p) == Phase(g, n, p + 1)
  {
    Nested(g, n, p);
    var a, b := Phase(g, n, p), Phase(g, n, p + 1);
    if a <= b {
      SameSizeSubset(a, b);
    } else {
      SameSizeSubset(b, a);
    }
  }

  lemma SameSizeSubset(a: set<nat>, b: set<nat>)
    requires a <= b && |a| == |b|
    ensures a == b
  {
    assert b == a + (b - a);
  }

  // ---------- the greedy set ----------

  /** The greedy set by ascending id over the vertices below k: take a vertex unless a taken neighbour precedes it. */
  function Greedy(g: set<Edge>, k: nat): set<nat> {
    if k == 0 then {}
    else
      var before := Greedy(g, k - 1);
      if exists u :: u in before && Edge(u, k - 1) in g then before else before + {k - 1}
  }

  lemma {:induction false} GreedyBelow(g: set<Edge>, k: nat, n: nat, v: nat)
    requires v < k <= n
    ensures v in Greedy(g, k) <==> v in Greedy(g, n)
    decreases n
  {
    GreedyRange(g, n);
    if k < n {
      GreedyBelow(g, k, n - 1, v);
    }
  }

  lemma {:induction false} GreedyRange(g: set<Edge>, n: nat)
    ensures forall v :: v in Greedy(g, n) ==> v < n
  {
    if n > 0 {
      GreedyRange(g, n - 1);
    }
  }

  /** A vertex is in the greedy set exactly when no member precedes it along an edge. */
  lemma GreedyMember(g: set<Edge>, n: nat, v: nat)
    requires v < n
    ensures v in Greedy(g, n) <==> !VotedOut(g, Greedy(g, n), v)
  {
    GreedyBelow(g, v + 1, n, v);
    GreedyRange(g, v);
    forall u: nat | u < v
      ensures u in Greedy(g, v) <==> u in Greedy(g, n)
    {
      GreedyBelow(g, v, n, u);
    }
  }

  /** After p phases the vertices below p have settled. */
  lemma {:induction false} SettledBelow(g: set<Edge>, n: nat, p: nat, v: nat)
    requires v < n && v < p
    ensures v in Phase(g, n, p) <==> v in Greedy(g, n)
  {
    GreedyMember(g, n, v);
    forall u: nat | u < v
      ensures u in Phase(g, n, p - 1) <==> u in Greedy(g, n)
    {
      SettledBelow(g, n, p - 1, u);
    }
  }

  lemma PhaseInRange(g: set<Edge>, n: nat, p: nat)
    ensures Phase(g, n, p) <= Vertices(n)
  {
  }

  /** From phase n on the set is the greedy one. */
  lemma SettledAfter(g: set<Edge>, n: nat, p: nat)
    requires p >= n
    ensures Phase(g, n, p) == Greedy(g, n)
  {
    PhaseInRange(g, n, p);
    GreedyRange(g, n);
    forall v: nat | v < n
      ensures v in Phase(g, n, p) <==> v in Greedy(g, n)
    {
      SettledBelow(g, n, p, v);
    }
  }

  /** Two equal consecutive phases can only be the greedy set. */
  lemma StableIsGreedy(g: set<Edge>, n: nat, p: nat)
    requires Phase(g, n, p) == Phase(g, n, p + 1)
    ensures Phase(g, n, p) == Greedy(g, n)
  {
    StableForever(g, n, p, p + n);
    SettledAfter(g, n, p + n);
  }

  lemma {:induction false} StableForever(g: set<Edge>, n: nat, p: nat, q: nat)
    requires Phase(g, n, p) == Phase(g, n, p + 1) && p <= q
    ensures Phase(g, n, p) == Phase(g, n, q)
  {
    if p < q {
      StableForever(g, n, p, q - 1);
      assert Phase(g, n, q) == Survivors(g, n, Phase(g, n, q - 1));
    }
  }

  // ---------- what the greedy set is for ----------

  predicate Symmetric(g: set<Edge>) {
    forall e :: e in g ==> Flip(e) in g
  }

  predicate Independent(g: set<Edge>, s: set<nat>) {
    forall e :: e in g && e.src in s && e.dst in s ==> e.src == e.dst
  }

  predicate Maximal(g: set<Edge>, n: nat, s: set<nat>) {
    forall v :: v in Vertices(n) && v !in s ==> exists u :: u in s && Edge(u, v) in g
  }

  /** On a symmetric graph the greedy set is a maximal independent set. */
  lemma GreedyIsMaximalIndependent(g: set<Edge>, n: nat)
    requires Symmetric(g)
    ensures Independent(g, Greedy(g, n)) && Maximal(g, n, Greedy(g, n))
  {
    GreedyRange(g, n);
    forall v: nat | v < n
      ensures v in Greedy(g, n) <==> !VotedOut(g, Greedy(g, n), v)
    {
      GreedyMember(g, n, v);
    }
    forall e | e in g && e.src in Greedy(g, n) && e.dst in Greedy(g, n)
      ensures e.src == e.dst
    {
      assert Flip(e) in g;
      assert Edge(e.src, e.dst) in g;
    }
  }

  /** On a symmetric graph already every odd phase is independent (the invariant of the repository's own argument). */
  lemma OddPhasesIndependent(g: set<Edge>, n: nat, p: nat)
    requires Symmetric(g) && p % 2 == 1
    ensures Independent(g, Phase(g, n, p))
  {
    forall e | e in g && e.src in Phase(g, n, p) && e.dst in Phase(g, n, p)
      ensures e.src == e.dst
    {
      assert Flip(e) in g;
      if e.src < e.dst {
        OddPhaseEdge(g, n, p, e.src, e.dst);
      } else if e.dst < e.src {
        OddPhaseEdge(g, n, p, e.dst, e.src);
      }
    }
  }

  /** A member of an odd phase was one before, too, and voted. */
  lemma OddPhaseEdge(g: set<Edge>, n: nat, p: nat, u: nat, v: nat)
    requires p % 2 == 1 && u < v && Edge(u, v) in g && u in Phase(g, n, p)
    ensures v !in Phase(g, n, p)
  {
    Nested(g, n, p - 1);
    assert VotedOut(g, Phase(g, n, p - 1), v);
  }

  // ---------- the program ----------

  /** Updates reach the gather step in an order the partitioning decides. */
  method Stream(appended: seq<nat>) returns (delivered: seq<nat>)
    ensures forall x :: x in delivered <==> x in appended
    ensures |delivered| == |appended|
  {
    delivered :| multiset(delivered) == multiset(appended);
    forall x
      ensures x in delivered <==> x in appended
    {
      assert x in delivered <==> x in multiset(delivered);
      assert x in appended <==> x in multiset(appended);
    }
    assert |multiset(delivered)| == |delivered| && |multiset(appended)| == |appended|;
  }

  function Targets(updates: seq<nat>): set<nat> {
    set t | t in updates
  }

  lemma OneMoreTarget(updates: seq<nat>, t: nat)
    ensures |Targets(updates + [t])| == |Targets(updates)| + if t in updates then 0 else 1
  {
    assert Targets(updates + [t]) == Targets(updates) + {t};
  }

  function Members(inMis: seq<bool>): set<nat> {
    set v: nat | v < |inMis| && inMis[v]
  }

  class Voting {
    const inMis: array<bool>
    const edges: seq<Edge>
    var notInMis: nat
    var phase: nat

    constructor (n: nat, graph: seq<Edge>)
      ensures fresh(inMis) && inMis.Length == n && edges == graph && notInMis == 0 && phase == 0
    {
      inMis := new bool[n];
      edges := graph;
      notInMis, phase := 0, 0;
    }

    predicate EdgesInRange() {
      forall e :: e in edges ==> e.src < inMis.Length && e.dst < inMis.Length
    }

    /** `init`, run for every vertex in every phase. */
    method Init()
      modifies inMis
      ensures forall v :: 0 <= v < inMis.Length ==> inMis[v]
    {
      for v := 0 to inMis.Length
        invariant forall u :: 0 <= u < v ==> inMis[u]
      {
        inMis[v] := true;
      }
    }

    /** `apply_one_update` on every update: a vertex is counted the first time it is voted out. */
    method Gather(updates: seq<nat>) returns (votedOut: nat)
      requires forall t :: t in updates ==> t < inMis.Length
      requires forall v :: 0 <= v < inMis.Length ==> inMis[v]
      modifies inMis
      ensures forall v :: 0 <= v < inMis.Length ==> (inMis[v] <==> v !in updates)
      ensures votedOut == |Targets(updates)|
    {
      votedOut := 0;
      var i := 0;
      while i < |updates|
        invariant 0 <= i <= |updates|
        invariant forall v :: 0 <= v < inMis.Length ==> (inMis[v] <==> v !in updates[..i])
        invariant votedOut == |Targets(updates[..i])|
      {
        var t := updates[i];
        assert t in updates;
        assert updates[..i + 1] == updates[..i] + [t];
        OneMoreTarget(updates[..i], t);
        if inMis[t] {
          votedOut := votedOut + 1;
          inMis[t] := false;
        }
        i := i + 1;
      }
      assert updates[..i] == updates;
    }

    /** `generate_update` on every edge. */
    method Scatter() returns (updates: seq<nat>)
      requires EdgesInRange()
      ensures forall t :: t in updates ==> t < inMis.Length
      ensures forall t :: t in updates <==> VotedOut(EdgeSet(edges), Members(inMis[..]), t)
    {
      updates := [];
      var i := 0;
      while i < |edges|
        invariant 0 <= i <= |edges|
        invariant forall t :: t in updates ==> VotedOut(EdgeSet(edges), Members(inMis[..]), t)
        invariant forall j :: 0 <= j < i && inMis[edges[j].src] && edges[j].src < edges[j].dst ==>
          edges[j].dst in updates
      {
        var e := edges[i];
        assert e == Edge(e.src, e.dst) && e in EdgeSet(edges);
        if inMis[e.src] && e.src < e.dst {
          updates := updates + [e.dst];
        }
        i := i + 1;
      }
      forall t | VotedOut(EdgeSet(edges), Members(inMis[..]), t)
        ensures t in updates
      {
        var u :| u in Members(inMis[..]) && u < t && Edge(u, t) in EdgeSet(edges);
        var j :| 0 <= j < |edges| && edges[j] == Edge(u, t);
      }
      forall t | t in updates
        ensures t < inMis.Length
      {
        var u :| u in Members(inMis[..]) && u < t && Edge(u, t) in EdgeSet(edges);
      }
    }

    /** The updates in flight after phase p are the votes of its set, and the count is up to date. */
    ghost predicate After(p: nat, updates: seq<nat>)
      reads this, inMis
    {
      var g, n := EdgeSet(edges), inMis.Length;
      && phase == p + 1
      && Members(inMis[..]) == Phase(g, n, p)
      && notInMis + |Members(inMis[..])| == n
      && (forall t :: t in updates ==> t < n)
      && (forall t :: t in updates <==> VotedOut(g, Members(inMis[..]), t))
    }

    /**
     One superstep: init, gather, scatter, reduce. `stop` is what `reduce` returns, `voteToStop` the processors' vote.
     */
    method Superstep(updates: seq<nat>) returns (out: seq<nat>, stop: bool, voteToStop: bool)
      requires EdgesInRange()
      requires phase == 0 ==> updates == []
      requires phase > 0 ==> After(phase - 1, updates)
      modifies this, inMis
      ensures phase == old(phase) + 1 && After(phase - 1, out)
      ensures stop <==> notInMis == old(notInMis)
      ensures voteToStop <==> |updates| == 0
    {
      ghost var p := phase;
      Init();
      var delivered := Stream(updates);
      var votedOut := Gather(delivered);
      GatheredPhase(EdgeSet(edges), inMis[..], p, updates, delivered);
      voteToStop := |delivered| == 0;
      out := Scatter();
      stop := votedOut == notInMis;
      notInMis := votedOut;
      phase := phase + 1;
    }

    /** A superstep after the first, with the stop tests of the loop behind it. */
    method SuperstepAndTest(updates: seq<nat>) returns (out: seq<nat>, done: bool)
      requires EdgesInRange() && phase > 0 && After(phase - 1, updates)
      modifies this, inMis
      ensures phase == old(phase) + 1 && After(phase - 1, out)
      ensures done ==> Members(inMis[..]) == Greedy(EdgeSet(edges), inMis.Length)
      ensures !done ==> phase <= inMis.Length + 1
    {
      ghost var g, n, p := EdgeSet(edges), inMis.Length, phase - 1;
      var stop, voteToStop;
      out, stop, voteToStop := Superstep(updates);
      StopTest(g, n, p, updates);
      MustStop(g, n, p);
      done := stop || voteToStop;
    }

    /**
     The superstep loop with mis as its algorithm. It stops after at most n + 2 phases, on the greedy set, and
     reports the number of vertices outside it.
     */
    method Run()
      requires EdgesInRange() && notInMis == 0 && phase == 0
      modifies this, inMis
      ensures Members(inMis[..]) == Greedy(EdgeSet(edges), inMis.Length)
      ensures notInMis + |Members(inMis[..])| == inMis.Length
      ensures phase <= inMis.Length + 2
    {
      // phase 0 never stops: bsp_phase must exceed min_super_phases() == 1
      var updates, stop, voteToStop := Superstep([]);
      var done := false;
      while !done
        invariant phase > 0 && After(phase - 1, updates)
        invariant done ==> Members(inMis[..]) == Greedy(EdgeSet(edges), inMis.Length)
        invariant phase <= inMis.Length + if done then 2 else 1
        decreases inMis.Length + 2 - phase
      {
        updates, done := SuperstepAndTest(updates);
      }
    }
  }

  lemma GatheredPhase(g: set<Edge>, inMis: seq<bool>, p: nat, updates: seq<nat>, delivered: seq<nat>)
    requires forall x :: x in delivered <==> x in updates
    requires forall x :: x in updates ==> x < |inMis|
    requires p == 0 ==> updates == []
    requires p > 0 ==> forall t :: t in updates <==> VotedOut(g, Phase(g, |inMis|, p - 1), t)
    requires forall v :: 0 <= v < |inMis| ==> (inMis[v] <==> v !in delivered)
    ensures Members(inMis) == Phase(g, |inMis|, p)
    ensures |Targets(delivered)| + |Phase(g, |inMis|, p)| == |inMis|
  {
    var n := |inMis|;
    forall v: nat
      ensures v in Members(inMis) <==> v in Phase(g, n, p)
    {
      assert p > 0 ==> Phase(g, n, p) == Survivors(g, n, Phase(g, n, p - 1));
    }
    assert Vertices(n) == Members(inMis) + Targets(delivered);
    assert Members(inMis) !! Targets(delivered);
  }

  /** At phase n + 1 the counts have become equal at the latest. */
  lemma MustStop(g: set<Edge>, n: nat, p: nat)
    ensures p >= n ==> |Phase(g, n, p)| == |Phase(g, n, p + 1)|
  {
    if p >= n {
      SettledAfter(g, n, p);
      SettledAfter(g, n, p + 1);
    }
  }

  /** Both stop tests after phase p + 1: equal counts, or no vote at all. */
  lemma StopTest(g: set<Edge>, n: nat, p: nat, votes: seq<nat>)
    requires forall t :: t in votes <==> VotedOut(g, Phase(g, n, p), t)
    ensures |Phase(g, n, p)| == |Phase(g, n, p + 1)| || |votes| == 0 ==> Phase(g, n, p + 1) == Greedy(g, n)
  {
    var a, b := Phase(g, n, p), Phase(g, n, p + 1);
    if |a| == |b| {
      EqualCountsMeanEqualSets(g, n, p);
      StableIsGreedy(g, n, p);
    } else if |votes| == 0 {
      NoVotes(g, n, p);
      StableIsGreedy(g, n, p + 1);
    }
  }

  /** A phase in which nobody votes leaves everybody in, and so does the next. */
  lemma NoVotes(g: set<Edge>, n: nat, p: nat)
    requires forall t :: !VotedOut(g, Phase(g, n, p), t)
    ensures Phase(g, n, p + 1) == Phase(g, n, p + 2) == Vertices(n)
  {
    assert Survivors(g, n, Phase(g, n, p)) == Vertices(n);
    forall v: nat | v < n
      ensures !VotedOut(g, Vertices(n), v)
    {
      if u :| u in Vertices(n) && u < v && Edge(u, v) in g {
        LowestSourceStays(g, n, p, u, v);
        assert false;
      }
    }
    assert Survivors(g, n, Vertices(n)) == Vertices(n);
  }

  /** Wherever there is an ascending edge, the lowest source of one is in every phase and votes. */
  lemma {:induction false} LowestSourceStays(g: set<Edge>, n: nat, p: nat, u: nat, v: nat)
    requires u < v && u < n && Edge(u, v) in g
    ensures exists t :: VotedOut(g, Phase(g, n, p), t)
    decreases u
  {
    if u in Phase(g, n, p) {
      assert VotedOut(g, Phase(g, n, p), v);
    } else {
      var w :| w in Phase(g, n, p - 1) && w < u && Edge(w, u) in g;
      LowestSourceStays(g, n, p, w, u);
    }
  }
}
