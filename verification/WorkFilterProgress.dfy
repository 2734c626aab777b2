/**
 Progress of the filter of module WorkFilter: no processor is ever stuck, every phase ends after a bounded number of
 steps of any interleaving, and a `dq` left alone returns the head of the first queue that has one.
 */
module WorkFilterProgress {
  import opened Bits
  import opened WorkFilter

  // ---------- the queue of an item ----------

  /** The bits of the home of an id are those the id has in common with the number of queues less one. */
  lemma HomeBits(items: nat, processors: nat, id: nat, j: nat)
    requires processors > 0 && id < items
    ensures Shr(HomeQueues(items, processors)[id], j) % 2 == 1 <==>
            Shr(id, j) % 2 == 1 && Shr(processors - 1, j) % 2 == 1
  {
    AndBit(id, processors - 1, j);
  }

  /** With a power of two queues the home of an id is its residue. */
  lemma HomeIsResidue(items: nat, k: nat, id: nat)
    requires id < items
    ensures HomeQueues(items, Pow2(k))[id] == id % Pow2(k)
  {
    MaskIsRemainder(id, k);
  }

  // ---------- counting the self-linked items ----------

  /** How many items are self-linked, that is, not queued. */
  function SelfLinked(next: seq<int>): (c: nat)
    ensures c <= |next|
  {
    var n := |next|;
    if n == 0 then 0 else SelfLinked(next[..n - 1]) + if next[n - 1] == n - 1 then 1 else 0
  }

  lemma {:induction false} SelfLinkedUpdate(next: seq<int>, i: nat, v: int)
    requires i < |next|
    ensures SelfLinked(next[i := v])
         == SelfLinked(next) - (if next[i] == i then 1 else 0) + (if v == i then 1 else 0)
  {
    var n := |next|;
    if i == n - 1 {
      assert next[i := v][..n - 1] == next[..n - 1];
    } else {
      SelfLinkedUpdate(next[..n - 1], i, v);
      assert next[i := v][..n - 1] == next[..n - 1][i := v];
    }
  }

  /** What has been returned without repetition from a set is no more than the set holds. */
  lemma {:induction false} DistinctBound(r: seq<nat>, a: set<nat>)
    requires forall id: nat :: multiset(r)[id] <= 1
    requires forall id: nat :: id in r ==> id in a
    ensures |r| <= |a|
  {
    var n := |r|;
    if n > 0 {
      var x: nat, front: seq<nat> := r[n - 1], r[..n - 1];
      assert r == front + [x];
      assert multiset(r) == multiset(front) + multiset{x};
      assert multiset(r)[x] <= 1;
      forall id: nat
        ensures multiset(front)[id] <= 1 && (id in front ==> id in a - {x})
      {
        assert multiset(r)[id] <= 1 && (id in front ==> id in r);
        assert id in front <==> id in multiset(front);
      }
      DistinctBound(front, a - {x});
    }
  }

  lemma {:induction false} BoundedSet(a: set<nat>, n: nat)
    requires forall id :: id in a ==> id < n
    ensures |a| <= n
  {
    if n == 0 {
      assert a == {};
    } else {
      BoundedSet(a - {n - 1}, n - 1);
    }
  }

  // ---------- how much is left to do ----------

  /** The queues a scan that began at p and stands at q has still to look at, of n. */
  function Left(p: nat, q: nat, n: nat): (d: nat)
    requires p < n && q < n
    ensures 1 <= d <= n
  {
    if p <= q then n - (q - p) else p - q
  }

  /** The steps a failed compare-and-swap will cost: it fails when the head has moved since it was loaded. */
  function Retry(moved: bool): nat {
    if moved then 3 else 0
  }

  /** What processor p works on exists. */
  predicate InBounds(s: State, p: nat)
    requires Shape(s) && p < |s.pc|
  {
    match s.pc[p]
    case Claimed(id) => id < |s.next|
    case Loaded(id, _) => id < |s.next|
    case Linked(id, _) => id < |s.next|
    case Scanning(q) => q < |s.pc|
    case Found(q, _) => q < |s.pc|
    case FoundNext(q, _, _) => q < |s.pc|
    case _ => true
  }

  ghost predicate AllInBounds(s: State) {
    && Shape(s)
    && forall p: nat :: p < |s.pc| ==> InBounds(s, p)
  }

  lemma InvInBounds(s: State)
    requires Inv(s)
    ensures AllInBounds(s)
  {
    forall p: nat | p < |s.pc|
      ensures InBounds(s, p)
    {
      assert PcOk(s, p);
    }
  }

  /**
   The steps processor p has to do before its phase is over for it, unless a compare-and-swap of another one
   succeeds.
   */
  function Stage(s: State, p: nat): nat
    requires Shape(s) && p < |s.pc| && InBounds(s, p)
  {
    var n := |s.pc|;
    match s.pc[p]
    case Idle => (match s.phase case Queueing => 0 case Preparing => 1 case Draining => 4 * n + 1 case Resetting => 2)
    case Claimed(_) => 3 * n + 2
    case Loaded(id, prev) => 3 * n + 1 + Retry(s.workQ[s.home[id]] != prev)
    case Linked(id, prev) => 3 * n + Retry(s.workQ[s.home[id]] != prev)
    case Prepared => 0
    case Scanning(q) => 4 * Left(p, q, n)
    case Found(q, avail) => 4 * Left(p, q, n) - 1 + Retry(s.visible[q] != avail)
    case FoundNext(q, avail, _) => 4 * Left(p, q, n) - 2 + Retry(s.visible[q] != avail)
    case NoWork => 0
    case Walking(_) => 1
    case Cleared => 0
  }

  ghost function Stages(s: State): (stages: seq<nat>)
    requires AllInBounds(s)
    ensures |stages| == |s.pc| && forall p: nat :: p < |s.pc| ==> stages[p] == Stage(s, p)
  {
    seq(|s.pc|, p requires 0 <= p < |s.pc| && InBounds(s, p) => Stage(s, p))
  }

  function Sum(f: seq<nat>): nat {
    if f == [] then 0 else Sum(f[..|f| - 1]) + f[|f| - 1]
  }

  /** One entry changes as it may, every other one grows by at most `retry`. */
  lemma {:induction false} SumMoved(f: seq<nat>, g: seq<nat>, p: nat, retry: nat)
    requires |g| == |f|
    requires forall r :: 0 <= r < |f| && r != p ==> g[r] <= f[r] + retry
    ensures p < |f| ==> Sum(g) <= Sum(f) - f[p] + g[p] + retry * (|f| - 1)
    ensures p >= |f| ==> Sum(g) <= Sum(f) + retry * |f|
  {
    var n := |f|;
    if n > 0 {
      SumMoved(f[..n - 1], g[..n - 1], p, retry);
      assert retry * (n - 1) == retry * n - retry;
      if p == n - 1 {
      } else if n > 1 {
        assert retry * (n - 2) == retry * (n - 1) - retry;
      }
    }
  }

  lemma {:induction false} SumBound(f: seq<nat>, bound: nat)
    requires forall p :: 0 <= p < |f| ==> f[p] <= bound
    ensures Sum(f) <= bound * |f|
  {
    var n := |f|;
    if n > 0 {
      SumBound(f[..n - 1], bound);
      assert bound * n == bound * (n - 1) + bound;
    }
  }

  /** What a step of another processor can do to the stage of r. */
  lemma StageOfOther(s: State, s': State, r: nat)
    requires AllInBounds(s) && AllInBounds(s') && r < |s.pc| == |s'.pc| && s'.phase == s.phase && s'.home == s.home
    requires s'.pc[r] == s.pc[r]
    ensures Stage(s', r) <= Stage(s, r) + 3
    ensures s'.workQ == s.workQ && s'.visible == s.visible ==> Stage(s', r) == Stage(s, r)
  {
    assert InBounds(s, r) && InBounds(s', r);
  }

  /** A step of processor p within its phase, by what it does to its own stage. */
  lemma StepMoved(s: State, s': State, p: nat)
    requires AllInBounds(s) && AllInBounds(s') && p < |s.pc| == |s'.pc| && s'.phase == s.phase && s'.home == s.home
    requires s'.pc == s.pc[p := s'.pc[p]]
    ensures Sum(Stages(s')) <= Sum(Stages(s)) - Stage(s, p) + Stage(s', p) + 3 * (|s.pc| - 1)
    ensures s'.workQ == s.workQ && s'.visible == s.visible ==>
              Sum(Stages(s')) <= Sum(Stages(s)) - Stage(s, p) + Stage(s', p)
  {
    var retry := if s'.workQ == s.workQ && s'.visible == s.visible then 0 else 3;
    forall r: nat | r < |s.pc| && r != p
      ensures Stages(s')[r] <= Stages(s)[r] + retry
    {
      StageOfOther(s, s', r);
    }
    SumMoved(Stages(s), Stages(s'), p, retry);
  }

  /** The steps for what nobody has begun to handle: items to be queued, returned or unlinked. */
  function Ahead(s: State): int
    requires Shape(s)
  {
    var n := |s.pc|;
    match s.phase
    case Queueing => (3 * n + 3) * SelfLinked(s.next)
    case Preparing => 0
    case Draining => 7 * n * (|s.asked| - |s.returned|)
    case Resetting => |s.next| - SelfLinked(s.next)
  }

  /** The steps left in the phase, over all processors. */
  ghost function Work(s: State): int
    requires Inv(s)
  {
    InvInBounds(s);
    Sum(Stages(s)) + Ahead(s)
  }

  lemma AskedBound(s: State)
    requires Inv(s)
    ensures |s.asked| <= |s.next|
    ensures s.phase == Draining ==> |s.returned| <= |s.asked|
  {
    BoundedSet(s.asked, |s.next|);
    if s.phase == Draining {
      forall id: nat
        ensures multiset(s.returned)[id] <= 1 && (id in s.returned ==> id in s.asked)
      {
        ReturnedOnce(s, id);
      }
      DistinctBound(s.returned, s.asked);
    }
  }

  /** The most steps a phase can take. */
  function LongestPhase(phase: Phase, items: nat, asked: nat, processors: nat): nat {
    match phase
    case Queueing => (3 * processors + 3) * items + (3 * processors + 4) * processors
    case Preparing => processors
    case Draining => 7 * processors * asked + (4 * processors + 2) * processors
    case Resetting => items + 2 * processors
  }

  lemma WorkBound(s: State)
    requires Inv(s)
    ensures 0 <= Work(s) <= LongestPhase(s.phase, |s.next|, |s.asked|, |s.pc|)
  {
    var n := |s.pc|;
    AskedBound(s);
    InvInBounds(s);
    var bound := match s.phase
      case Queueing => 3 * n + 4 case Preparing => 1 case Draining => 4 * n + 2 case Resetting => 2;
    forall p: nat | p < n
      ensures Stage(s, p) <= bound
    {
      assert PcOk(s, p);
    }
    SumBound(Stages(s), bound);
    match s.phase
    case Queueing => Product(3 * n + 3, SelfLinked(s.next), |s.next|);
    case Draining => Product(7 * n, |s.asked| - |s.returned|, |s.asked|);
    case _ =>
  }

  lemma Product(k: nat, x: nat, y: nat)
    requires x <= y
    ensures 0 <= k * x <= k * y
  {
    assert k * y == k * x + k * (y - x);
  }

  lemma OneLess(k: nat, x: int)
    ensures k * (x - 1) == k * x - k
  {
  }

  // ---------- every step leaves less to do ----------

  /** A `q` on an item that is queued already; it changes nothing but the record of what was asked. */
  ghost predicate Repeat(s: State, s': State) {
    && s.phase == Queueing
    && exists id: nat :: id < |s.next| && s.next[id] != id && s' == s.(asked := s.asked + {id})
  }

  lemma ClaimWorks(s: State, s': State, p: nat, id: nat)
    requires AllInBounds(s) && AllInBounds(s') && p < |s.pc| && Claim(s, s', p, id) && s.next[id] == id
    ensures Sum(Stages(s')) + Ahead(s') < Sum(Stages(s)) + Ahead(s)
  {
    SelfLinkedUpdate(s.next, id, NULL);
    StepMoved(s, s', p);
    OneLess(3 * |s.pc| + 3, SelfLinked(s.next));
  }

  /** The steps of q between the two compare-and-swaps. */
  lemma LinkWorks(s: State, s': State, p: nat)
    requires AllInBounds(s) && AllInBounds(s') && p < |s.pc| && (LoadHead(s, s', p) || Link(s, s', p))
    requires s.pc[p].Loaded? ==> s.next[s.pc[p].id] != s.pc[p].id && s.pc[p].prev != s.pc[p].id
    ensures Sum(Stages(s')) + Ahead(s') < Sum(Stages(s)) + Ahead(s)
  {
    if Link(s, s', p) {
      SelfLinkedUpdate(s.next, s.pc[p].id, s.pc[p].prev);
    }
    assert InBounds(s, p) && InBounds(s', p);
    StepMoved(s, s', p);
  }

  lemma PushWorks(s: State, s': State, p: nat)
    requires AllInBounds(s) && AllInBounds(s') && p < |s.pc| && Push(s, s', p)
    ensures Sum(Stages(s')) + Ahead(s') < Sum(Stages(s)) + Ahead(s)
  {
    StepMoved(s, s', p);
  }

  lemma PrepWorks(s: State, s': State, p: nat)
    requires AllInBounds(s) && AllInBounds(s') && p < |s.pc| && Prep(s, s', p)
    requires forall r :: 0 <= r < |s.pc| ==> s.pc[r] == Idle || s.pc[r] == Prepared
    ensures Sum(Stages(s')) + Ahead(s') < Sum(Stages(s)) + Ahead(s)
  {
    SumMoved(Stages(s), Stages(s'), p, 0);
  }

  lemma ScanWorks(s: State, s': State, p: nat)
    requires AllInBounds(s) && AllInBounds(s') && p < |s.pc|
    requires StartDq(s, s', p) || Scan(s, s', p) || LoadNext(s, s', p)
    ensures Sum(Stages(s')) + Ahead(s') < Sum(Stages(s)) + Ahead(s)
  {
    assert InBounds(s, p) && InBounds(s', p);
    StepMoved(s, s', p);
  }

  lemma TakeWorks(s: State, s': State, p: nat)
    requires AllInBounds(s) && AllInBounds(s') && p < |s.pc| && Take(s, s', p)
    ensures Sum(Stages(s')) + Ahead(s') < Sum(Stages(s)) + Ahead(s)
  {
    StepMoved(s, s', p);
    if s.visible[s.pc[p].queue] == s.pc[p].avail {
      OneLess(7 * |s.pc|, |s.asked| - |s.returned|);
    }
  }

  lemma DoneWorks(s: State, s': State, p: nat)
    requires AllInBounds(s) && AllInBounds(s') && p < |s.pc| && (StartDone(s, s', p) || Walk(s, s', p))
    requires forall r :: 0 <= r < |s.pc| ==> s.pc[r] == Idle || s.pc[r].Walking? || s.pc[r] == Cleared
    requires s.pc[p].Walking? && s.pc[p].head >= 0 ==>
               s.pc[p].head < |s.next| && s.next[s.pc[p].head] != s.pc[p].head
    ensures Sum(Stages(s')) + Ahead(s') < Sum(Stages(s)) + Ahead(s)
  {
    SumMoved(Stages(s), Stages(s'), p, 0);
    if Walk(s, s', p) && s.pc[p].head >= 0 {
      SelfLinkedUpdate(s.next, s.pc[p].head, s.pc[p].head);
    }
  }

  /** Where the processors can be in each phase, and what the invariant says of the item at hand. */
  lemma AtHand(s: State, p: nat)
    requires Inv(s) && p < |s.pc|
    ensures s.phase == Preparing ==> forall r :: 0 <= r < |s.pc| ==> s.pc[r] == Idle || s.pc[r] == Prepared
    ensures s.phase == Resetting ==>
              forall r :: 0 <= r < |s.pc| ==> s.pc[r] == Idle || s.pc[r].Walking? || s.pc[r] == Cleared
    ensures s.pc[p].Loaded? ==>
              s.pc[p].id < |s.next| && s.next[s.pc[p].id] != s.pc[p].id && s.pc[p].prev != s.pc[p].id
    ensures s.pc[p].Walking? && s.pc[p].head >= 0 ==>
              s.pc[p].head < |s.next| && s.next[s.pc[p].head] != s.pc[p].head
  {
    forall r: nat | r < |s.pc|
      ensures s.phase == Preparing ==> s.pc[r] == Idle || s.pc[r] == Prepared
      ensures s.phase == Resetting ==> s.pc[r] == Idle || s.pc[r].Walking? || s.pc[r] == Cleared
    {
      assert PcOk(s, r);
    }
    assert PcOk(s, p);
    if s.pc[p].Loaded? {
      assert ItemOk(s, s.pc[p].id);
    } else if s.pc[p].Walking? && s.pc[p].head >= 0 {
      assert ListOk(s, p) && !Unlinked(s, p, s.taken[p]);
    }
  }

  lemma QueueingWorks(s: State, s': State, p: nat)
    requires Inv(s) && Inv(s') && ProcessorStep(s, s', p) && s.phase == Queueing && !Repeat(s, s')
    ensures s'.phase == Queueing && Work(s') < Work(s)
  {
    InvInBounds(s);
    InvInBounds(s');
    AtHand(s, p);
    if id: nat :| Claim(s, s', p, id) {
      ClaimWorks(s, s', p, id);
    } else if Push(s, s', p) {
      PushWorks(s, s', p);
    } else {
      LinkWorks(s, s', p);
    }
  }

  lemma DrainingWorks(s: State, s': State, p: nat)
    requires Inv(s) && Inv(s') && ProcessorStep(s, s', p) && s.phase == Draining
    ensures s'.phase == Draining && Work(s') < Work(s)
  {
    InvInBounds(s);
    InvInBounds(s');
    if Take(s, s', p) {
      TakeWorks(s, s', p);
    } else {
      ScanWorks(s, s', p);
    }
  }

  lemma RepeatWorks(s: State, s': State)
    requires Inv(s) && Inv(s') && Repeat(s, s')
    ensures Work(s') == Work(s)
  {
    InvInBounds(s);
    InvInBounds(s');
    forall p: nat | p < |s.pc|
      ensures Stages(s')[p] == Stages(s)[p]
    {
      StageOfOther(s, s', p);
    }
    assert Stages(s') == Stages(s);
  }

  lemma OtherWorks(s: State, s': State, p: nat)
    requires Inv(s) && Inv(s') && ProcessorStep(s, s', p) && (s.phase == Preparing || s.phase == Resetting)
    ensures s'.phase == s.phase && Work(s') < Work(s)
  {
    InvInBounds(s);
    InvInBounds(s');
    AtHand(s, p);
    if s.phase == Preparing {
      PrepWorks(s, s', p);
    } else {
      DoneWorks(s, s', p);
    }
  }

  /** Whatever the interleaving, each step of a processor is a repeated `q` or leaves less to do. */
  lemma StepWorks(s: State, s': State, p: nat)
    requires Inv(s) && ProcessorStep(s, s', p)
    ensures Inv(s') && |s'.pc| == |s.pc| && |s'.next| == |s.next| && s'.phase == s.phase
    ensures if Repeat(s, s') then Work(s') == Work(s) else Work(s') < Work(s)
  {
    assert Next(s, s');
    StepKeeps(s, s');
    InvInBounds(s);
    InvInBounds(s');
    if Repeat(s, s') {
      RepeatWorks(s, s');
    } else if s.phase == Queueing {
      QueueingWorks(s, s', p);
    } else if s.phase == Draining {
      DrainingWorks(s, s', p);
    } else {
      OtherWorks(s, s', p);
    }
  }

  // ---------- every phase ends ----------

  ghost predicate SomeStep(s: State, s': State) {
    exists p: nat :: ProcessorStep(s, s', p)
  }

  /** A stretch of a run within a phase. */
  ghost predicate Stretch(run: seq<State>) {
    var n := |run|;
    && n > 0
    && (n > 1 ==> Stretch(run[..n - 1]) && SomeStep(run[n - 2], run[n - 1]))
  }

  /** How many steps of a stretch are calls of `q` that find the item queued already. */
  ghost function Repeats(run: seq<State>): nat {
    var n := |run|;
    if n < 2 then 0 else Repeats(run[..n - 1]) + if Repeat(run[n - 2], run[n - 1]) then 1 else 0
  }

  lemma {:induction false} StretchWorks(run: seq<State>)
    requires Stretch(run) && Inv(run[0])
    ensures Inv(Last(run)) && |Last(run).pc| == |run[0].pc| && |Last(run).next| == |run[0].next|
    ensures Last(run).phase == run[0].phase
    ensures |run| - 1 <= Work(run[0]) - Work(Last(run)) + Repeats(run)
    ensures run[0].phase != Queueing ==> Repeats(run) == 0
  {
    var n := |run|;
    if n > 1 {
      StretchWorks(run[..n - 1]);
      assert Last(run[..n - 1]) == run[n - 2] && run[..n - 1][0] == run[0];
      var p: nat :| ProcessorStep(run[n - 2], run[n - 1], p);
      StepWorks(run[n - 2], run[n - 1], p);
    }
  }

  lemma NoBarrier(s: State, s': State)
    requires Next(s, s') && s'.phase == s.phase
    ensures SomeStep(s, s')
  {
    assert !BarrierStep(s, s');
  }

  /** What follows state i of a run without a barrier is a stretch: barriers change the phase. */
  lemma {:induction false} SamePhaseStretch(run: seq<State>, items: nat, processors: nat, i: nat)
    requires processors > 0 && Run(run, items, processors) && i < |run|
    requires forall k :: i <= k < |run| ==> run[k].phase == run[i].phase
    ensures Stretch(run[i..]) && Inv(run[i]) && |run[i].pc| == processors && |run[i].next| == items
    decreases |run|
  {
    var n := |run|;
    if i == n - 1 {
      RunInv(run, items, processors);
    } else {
      SamePhaseStretch(run[..n - 1], items, processors, i);
      assert run[..n - 1][i..] == run[i..][..n - 1 - i];
      assert run[n - 2].phase == run[i].phase && run[n - 1].phase == run[i].phase;
      NoBarrier(run[n - 2], run[n - 1]);
    }
  }

  /**
   In every interleaving each phase ends: apart from calls of `q` that find the item queued already, the number of
   steps a phase can last is bounded by the items and the processors.
   */
  lemma PhaseIsBounded(run: seq<State>, items: nat, processors: nat, i: nat)
    requires processors > 0 && Run(run, items, processors) && i < |run|
    requires forall k :: i <= k < |run| ==> run[k].phase == run[i].phase
    ensures |run| - 1 - i <= LongestPhase(run[i].phase, items, |run[i].asked|, processors) + Repeats(run[i..])
    ensures run[i].phase != Queueing ==> Repeats(run[i..]) == 0
  {
    SamePhaseStretch(run, items, processors, i);
    var stretch := run[i..];
    assert stretch[0] == run[i] && |stretch| == |run| - i;
    StretchWorks(stretch);
    WorkBound(run[i]);
    WorkBound(Last(stretch));
  }

  // ---------- nobody is ever stuck ----------

  /** Processor p has nothing more to do before the barrier of the phase (in `Queueing`: until the next call of q). */
  predicate Waiting(phase: Phase, pc: Pc) {
    match phase
    case Queueing => pc == Idle
    case Preparing => pc == Prepared
    case Draining => pc == NoWork
    case Resetting => pc == Cleared
  }

  predicate AllWaiting(s: State) {
    forall p :: 0 <= p < |s.pc| ==> Waiting(s.phase, s.pc[p])
  }

  /** Inside `q`: the load, the store or the compare-and-swap. */
  lemma QStep(s: State, p: nat) returns (s': State)
    requires Inv(s) && p < |s.pc| && (s.pc[p].Claimed? || s.pc[p].Loaded? || s.pc[p].Linked?)
    ensures ProcessorStep(s, s', p) && s'.asked == s.asked && s'.pc != s.pc
  {
    assert PcOk(s, p);
    var id := s.pc[p].id;
    var q := s.home[id];
    match s.pc[p]
    case Claimed(_) =>
      s' := SetPc(s, p, Loaded(id, s.workQ[q]));
      assert LoadHead(s, s', p);
    case Loaded(_, prev) =>
      s' := SetPc(s, p, Linked(id, prev)).(next := s.next[id := prev]);
      assert Link(s, s', p);
    case Linked(_, prev) =>
      s' := if s.workQ[q] == prev
            then SetPc(s, p, Idle).(
                   workQ := s.workQ[q := id], lists := s.lists[q := [id] + s.lists[q]], owner := s.owner[id := NULL])
            else SetPc(s, p, Claimed(id));
      assert Push(s, s', p);
  }

  /** Inside `dq`: the load of a head or of its successor, or the compare-and-swap. */
  lemma DqStep(s: State, p: nat) returns (s': State)
    requires Inv(s) && p < |s.pc| && (s.pc[p].Scanning? || s.pc[p].Found? || s.pc[p].FoundNext?)
    ensures ProcessorStep(s, s', p) && s'.asked == s.asked && s'.pc != s.pc
  {
    assert PcOk(s, p);
    var q := s.pc[p].queue;
    assert ListOk(s, q);
    match s.pc[p]
    case Scanning(_) =>
      var q' := if q + 1 == |s.pc| then 0 else q + 1;
      s' := SetPc(s, p, if s.visible[q] >= 0 then Found(q, s.visible[q]) else if q' != p then Scanning(q') else NoWork);
      assert Scan(s, s', p);
    case Found(_, avail) =>
      s' := SetPc(s, p, FoundNext(q, avail, s.next[avail]));
      assert LoadNext(s, s', p);
    case FoundNext(_, avail, after) =>
      s' := if s.visible[q] == avail
            then SetPc(s, p, Idle).(visible := s.visible[q := after], returned := s.returned + [avail],
                   taken := s.taken[q := s.taken[q] + 1])
            else SetPc(s, p, Scanning(q));
      assert Take(s, s', p);
  }

  /** Inside `done`: the unlinking of an item, or the reset of both heads. */
  lemma WalkStep(s: State, p: nat) returns (s': State)
    requires Inv(s) && p < |s.pc| && s.pc[p].Walking?
    ensures ProcessorStep(s, s', p) && s'.asked == s.asked
  {
    assert PcOk(s, p) && ListOk(s, p);
    var head := s.pc[p].head;
    if 0 <= head < |s.next| {
      s' := SetPc(s, p, Walking(s.next[head])).(
        next := s.next[head := head], taken := s.taken[p := s.taken[p] + 1]);
    } else {
      s' := SetPc(s, p, Cleared).(workQ := s.workQ[p := NULL], visible := s.visible[p := NULL],
        lists := s.lists[p := []], taken := s.taken[p := 0]);
    }
    assert Walk(s, s', p);
  }

  /** A processor that is not waiting can step, whatever the others do, and its step leaves less to do. */
  lemma NeverStuck(s: State, p: nat) returns (s': State)
    requires Inv(s) && p < |s.pc| && !Waiting(s.phase, s.pc[p])
    ensures ProcessorStep(s, s', p) && s'.asked == s.asked && Inv(s') && Work(s') < Work(s)
  {
    assert PcOk(s, p);
    match s.pc[p] {
      case Idle =>
        s' := if s.phase == Preparing
              then SetPc(s, p, Prepared).(visible := s.visible[p := s.workQ[p]], taken := s.taken[p := 0])
              else if s.phase == Draining then SetPc(s, p, Scanning(p))
              else SetPc(s, p, Walking(s.workQ[p])).(taken := s.taken[p := 0]);
        assert Prep(s, s', p) || StartDq(s, s', p) || StartDone(s, s', p);
      case Claimed(_) => s' := QStep(s, p);
      case Loaded(_, _) => s' := QStep(s, p);
      case Linked(_, _) => s' := QStep(s, p);
      case Scanning(_) => s' := DqStep(s, p);
      case Found(_, _) => s' := DqStep(s, p);
      case FoundNext(_, _, _) => s' := DqStep(s, p);
      case Walking(_) => s' := WalkStep(s, p);
      case _ => assert false;
    }
    StepWorks(s, s', p);
  }

  /** When all are waiting the barrier lets them through to the next phase of the caller's choice. */
  lemma BarrierOpens(s: State, phase: Phase) returns (s': State)
    requires Inv(s) && AllWaiting(s)
    requires match s.phase
             case Queueing => phase == Preparing || phase == Resetting
             case Preparing => phase == Draining
             case Draining => phase == Queueing
             case Resetting => phase == Queueing
    ensures BarrierStep(s, s') && s'.phase == phase && AllAt(s', Idle)
    ensures s.phase != Resetting ==> s'.asked == s.asked
  {
    s' := Released(s, phase);
    if s.phase == Preparing {
      s' := s'.(returned := []);
    } else if s.phase == Resetting {
      s' := s'.(asked := {}, returned := []);
    }
  }

  /** From every reachable state the phase can be completed, and is by any continuation without further calls of `q`. */
  lemma {:induction false} PhaseCompletes(run: seq<State>, items: nat, processors: nat) returns (whole: seq<State>)
    requires processors > 0 && Run(run, items, processors) && Inv(Last(run))
    ensures Run(whole, items, processors) && run <= whole && |whole| - |run| <= Work(Last(run))
    ensures Inv(Last(whole)) && AllWaiting(Last(whole))
    ensures Last(whole).phase == Last(run).phase && Last(whole).asked == Last(run).asked
    decreases Work(Last(run))
  {
    var s := Last(run);
    WorkBound(s);
    if AllWaiting(s) {
      whole := run;
    } else {
      var p: nat :| p < |s.pc| && !Waiting(s.phase, s.pc[p]);
      var s' := NeverStuck(s, p);
      var longer := run + [s'];
      assert longer[..|longer| - 1] == run;
      StepWorks(s, s', p);
      WorkBound(s');
      whole := PhaseCompletes(longer, items, processors);
    }
  }

  /** A drain that has begun can be completed and returns every id queued since the last `done` exactly once. */
  lemma RoundCompletes(run: seq<State>, items: nat, processors: nat) returns (whole: seq<State>)
    requires processors > 0 && Run(run, items, processors) && Last(run).phase == Draining
    ensures Run(whole, items, processors) && run <= whole
    ensures |whole| - |run| <= LongestPhase(Draining, items, |Last(run).asked|, processors)
    ensures AllAt(Last(whole), NoWork) && Last(whole).asked == Last(run).asked
    ensures multiset(Last(whole).returned) == multiset(Last(run).asked)
  {
    RunInv(run, items, processors);
    whole := PhaseCompletes(run, items, processors);
    WorkBound(Last(run));
    AskedReturned(Last(whole));
  }

  lemma AskedReturned(s: State)
    requires Inv(s) && s.phase == Draining && AllWaiting(s)
    ensures AllAt(s, NoWork) && multiset(s.returned) == multiset(s.asked)
  {
    forall id: nat
      ensures multiset(s.returned)[id] == multiset(s.asked)[id]
    {
      AllReturned(s, 0, id);
    }
  }

  // ---------- a whole round for any ids ----------

  /** One call of `q` by a processor with nothing else to do, and its completion. */
  lemma QueueOne(run: seq<State>, items: nat, processors: nat, id: nat) returns (whole: seq<State>)
    requires processors > 0 && Run(run, items, processors) && id < items
    requires Last(run).phase == Queueing && AllWaiting(Last(run))
    ensures Run(whole, items, processors)
    ensures Last(whole).phase == Queueing && AllWaiting(Last(whole)) && Last(whole).asked == Last(run).asked + {id}
  {
    RunInv(run, items, processors);
    var s := Last(run);
    var s' := if s.next[id] == id
              then SetPc(s, 0, Claimed(id)).(
                     next := s.next[id := NULL], asked := s.asked + {id}, owner := s.owner[id := 0])
              else s.(asked := s.asked + {id});
    assert Claim(s, s', 0, id);
    assert ProcessorStep(s, s', 0);
    StepKeeps(s, s');
    var longer := run + [s'];
    assert longer[..|longer| - 1] == run;
    whole := PhaseCompletes(longer, items, processors);
  }

  lemma {:induction false} QueueAll(run: seq<State>, items: nat, processors: nat, a: set<nat>)
    returns (whole: seq<State>)
    requires processors > 0 && Run(run, items, processors) && forall id :: id in a ==> id < items
    requires Last(run).phase == Queueing && AllWaiting(Last(run))
    ensures Run(whole, items, processors)
    ensures Last(whole).phase == Queueing && AllWaiting(Last(whole)) && Last(whole).asked == Last(run).asked + a
    decreases |a|
  {
    if a == {} {
      whole := run;
    } else {
      var id :| id in a;
      var one := QueueOne(run, items, processors, id);
      whole := QueueAll(one, items, processors, a - {id});
    }
  }

  lemma PassBarrier(run: seq<State>, items: nat, processors: nat, phase: Phase) returns (whole: seq<State>)
    requires processors > 0 && Run(run, items, processors) && AllWaiting(Last(run))
    requires (Last(run).phase == Queueing && phase == Preparing) || (Last(run).phase == Preparing && phase == Draining)
    ensures Run(whole, items, processors) && Last(whole).phase == phase && Last(whole).asked == Last(run).asked
    ensures Inv(Last(whole))
  {
    RunInv(run, items, processors);
    var s' := BarrierOpens(Last(run), phase);
    StepKeeps(Last(run), s');
    whole := run + [s'];
    assert whole[..|whole| - 1] == run;
  }

  /** When nobody is inside `q`, the barriers and `prep_dq` lead to a drain. */
  lemma DrainBegins(run: seq<State>, items: nat, processors: nat) returns (whole: seq<State>)
    requires processors > 0 && Run(run, items, processors) && AllWaiting(Last(run)) && Last(run).phase == Queueing
    ensures Run(whole, items, processors) && Last(whole).phase == Draining && Last(whole).asked == Last(run).asked
    ensures Inv(Last(whole))
  {
    var preparing := PassBarrier(run, items, processors, Preparing);
    var prepared := PhaseCompletes(preparing, items, processors);
    whole := PassBarrier(prepared, items, processors, Draining);
  }

  /** Whenever nobody is inside `q`, any ids can be queued and the round drained, and each is then returned once. */
  lemma WholeRound(run: seq<State>, items: nat, processors: nat, a: set<nat>) returns (whole: seq<State>)
    requires processors > 0 && Run(run, items, processors) && forall id :: id in a ==> id < items
    requires Last(run).phase == Queueing && AllWaiting(Last(run))
    ensures Run(whole, items, processors) && Last(whole).phase == Draining && AllAt(Last(whole), NoWork)
    ensures multiset(Last(whole).returned) == multiset(Last(run).asked + a)
  {
    var queued := QueueAll(run, items, processors, a);
    var draining := DrainBegins(queued, items, processors);
    whole := PhaseCompletes(draining, items, processors);
    AskedReturned(Last(whole));
  }

  lemma RunBegins(s: State, items: nat, processors: nat)
    requires processors > 0 && Init(s, items, processors)
    ensures Run([s], items, processors) && Last([s]).phase == Queueing && AllWaiting(Last([s])) && Last([s]).asked == {}
  {
  }

  // ---------- a `dq` left alone ----------

  /** A stretch in which only processor p steps. */
  ghost predicate Alone(run: seq<State>, p: nat) {
    var n := |run|;
    && n > 0
    && (n > 1 ==> Alone(run[..n - 1], p) && ProcessorStep(run[n - 2], run[n - 1], p))
  }

  lemma Longer(run: seq<State>, s': State, p: nat) returns (longer: seq<State>)
    requires Alone(run, p) && ProcessorStep(Last(run), s', p)
    ensures longer == run + [s'] && Alone(longer, p) && longer[0] == run[0] && Last(longer) == s'
  {
    longer := run + [s'];
    assert longer[..|longer| - 1] == run;
  }

  /** The queue k places after p, going round. */
  function Around(p: nat, k: nat, n: nat): (q: nat)
    requires p < n && k < n
    ensures q < n
  {
    if p + k < n then p + k else p + k - n
  }

  /** While only p steps and the first k queues from its own on are empty, it comes to look at the next one. */
  lemma {:induction false} ScanReaches(s: State, p: nat, k: nat) returns (run: seq<State>)
    requires Shape(s) && s.phase == Draining && p < |s.pc| && s.pc[p] == Idle && k < |s.pc|
    requires forall j: nat :: j < k ==> s.visible[Around(p, j, |s.pc|)] == NULL
    ensures Alone(run, p) && run[0] == s && |run| == k + 2
    ensures Last(run) == SetPc(s, p, Scanning(Around(p, k, |s.pc|)))
  {
    var next := SetPc(s, p, Scanning(Around(p, k, |s.pc|)));
    if k == 0 {
      assert StartDq(s, next, p);
      run := Longer([s], next, p);
    } else {
      run := ScanReaches(s, p, k - 1);
      ScanOn(s, p, k);
      run := Longer(run, next, p);
    }
  }

  lemma ScanOn(s: State, p: nat, k: nat)
    requires Shape(s) && s.phase == Draining && p < |s.pc| && 0 < k < |s.pc|
    requires s.visible[Around(p, k - 1, |s.pc|)] == NULL
    ensures ProcessorStep(
      SetPc(s, p, Scanning(Around(p, k - 1, |s.pc|))), SetPc(s, p, Scanning(Around(p, k, |s.pc|))), p)
  {
    var here, there := Around(p, k - 1, |s.pc|), Around(p, k, |s.pc|);
    var s0, s1 := SetPc(s, p, Scanning(here)), SetPc(s, p, Scanning(there));
    assert s0.pc[p := Scanning(there)] == s1.pc;
    assert Scan(s0, s1, p);
  }

  /** What the `dq` of an idle processor p makes of the state if nobody else steps. */
  ghost predicate Returns(s: State, s': State, p: nat, k: nat)
    requires Shape(s) && p < |s.pc| && k < |s.pc|
  {
    var q := Around(p, k, |s.pc|);
    && s'.pc == s.pc && s'.next == s.next && s'.asked == s.asked
    && 0 <= s.visible[q] < |s.next|
    && s'.returned == s.returned + [s.visible[q]]
    && s'.visible == s.visible[q := s.next[s.visible[q]]]
  }

  /** The last three steps of a `dq` left alone. */
  lemma TakeReaches(run: seq<State>, s: State, p: nat, q: nat) returns (longer: seq<State>)
    requires Shape(s) && s.phase == Draining && p < |s.pc| && s.pc[p] == Idle && q < |s.pc|
    requires 0 <= s.visible[q] < |s.next| && Alone(run, p) && Last(run) == SetPc(s, p, Scanning(q))
    ensures Alone(longer, p) && longer[0] == run[0] && |longer| == |run| + 3
    ensures Last(longer) == s.(visible := s.visible[q := s.next[s.visible[q]]],
                             returned := s.returned + [s.visible[q]], taken := s.taken[q := s.taken[q] + 1])
  {
    var id := s.visible[q];
    var found := SetPc(s, p, Found(q, id));
    assert Scan(Last(run), found, p);
    longer := Longer(run, found, p);
    var loaded := SetPc(s, p, FoundNext(q, id, s.next[id]));
    assert LoadNext(found, loaded, p);
    longer := Longer(longer, loaded, p);
    var taken := s.(visible := s.visible[q := s.next[id]], returned := s.returned + [id],
      taken := s.taken[q := s.taken[q] + 1]);
    assert s.pc[p := Idle] == s.pc;
    assert Take(loaded, taken, p);
    longer := Longer(longer, taken, p);
  }

  /** A `dq` left alone returns the head of the first non-empty queue from its own on, in k + 4 steps. */
  lemma DqAlone(s: State, p: nat, k: nat) returns (run: seq<State>)
    requires Inv(s) && s.phase == Draining && p < |s.pc| && s.pc[p] == Idle && k < |s.pc|
    requires forall j: nat :: j < k ==> s.visible[Around(p, j, |s.pc|)] == NULL
    requires s.visible[Around(p, k, |s.pc|)] != NULL
    ensures Alone(run, p) && run[0] == s && |run| == k + 5 && Returns(s, Last(run), p, k)
  {
    var q := Around(p, k, |s.pc|);
    VisibleExists(s, q);
    run := ScanReaches(s, p, k);
    run := TakeReaches(run, s, p, q);
  }

  lemma VisibleExists(s: State, q: nat)
    requires Inv(s) && s.phase == Draining && q < |s.pc| && s.visible[q] != NULL
    ensures 0 <= s.visible[q] < |s.next|
  {
    assert ListOk(s, q);
  }

  /** With every queue empty it finds no work, and nothing else has changed. */
  lemma DqAloneNoWork(s: State, p: nat) returns (run: seq<State>)
    requires Inv(s) && s.phase == Draining && p < |s.pc| && s.pc[p] == Idle && AllEmpty(s)
    ensures Alone(run, p) && run[0] == s && |run| == |s.pc| + 2 && Last(run) == SetPc(s, p, NoWork)
  {
    run := ScanReaches(s, p, |s.pc| - 1);
    assert Scan(Last(run), SetPc(s, p, NoWork), p);
    run := Longer(run, SetPc(s, p, NoWork), p);
  }

  lemma DrainingStepUnique(s: State, s1: State, s2: State, p: nat)
    requires s.phase == Draining && ProcessorStep(s, s1, p) && ProcessorStep(s, s2, p)
    ensures s1 == s2 && s1.phase == Draining
  {
  }

  /** A processor of its own has no choice while a round drains. */
  lemma {:induction false} AloneUnique(run: seq<State>, other: seq<State>, p: nat)
    requires Alone(run, p) && Alone(other, p) && |run| == |other| && run[0] == other[0] && run[0].phase == Draining
    ensures run == other && Last(run).phase == Draining
  {
    var n := |run|;
    if n > 1 {
      var front, front', s1, s2 := run[..n - 1], other[..n - 1], run[n - 1], other[n - 1];
      AloneUnique(front, front', p);
      assert Last(front) == run[n - 2] && Last(front') == other[n - 2];
      DrainingStepUnique(Last(front), s1, s2, p);
      assert run == front + [s1] && other == front' + [s2];
    }
  }

  /** So in every run of p alone from there the id has been returned after k + 4 steps. */
  lemma DqAloneAlways(run: seq<State>, p: nat, k: nat)
    requires Alone(run, p) && |run| == k + 5 && Inv(run[0]) && run[0].phase == Draining
    requires p < |run[0].pc| && run[0].pc[p] == Idle && k < |run[0].pc|
    requires forall j: nat :: j < k ==> run[0].visible[Around(p, j, |run[0].pc|)] == NULL
    requires run[0].visible[Around(p, k, |run[0].pc|)] != NULL
    ensures Returns(run[0], Last(run), p, k)
  {
    var only := DqAlone(run[0], p, k);
    AloneUnique(run, only, p);
  }
}
