/**
 The lock-free work-stealing `filter` of core/x-splitter.hpp as a state machine. Each step of a
 processor is one access to a shared word (a load, a store or a compare-and-swap); steps of different
 processors interleave freely within a phase, and the callers' barriers separate the phases.
 */
module WorkFilter {
  import opened Bits

  const NULL: int := -1

  datatype Phase = Queueing | Preparing | Draining | Resetting

  /** Program counters; the arguments are the local variables of `q`, `dq` and `done`. */
  datatype Pc =
    | Idle
    // q(id)
    | Claimed(id: nat)
    | Loaded(id: nat, prev: int)
    | Linked(id: nat, prev: int)
    // prep_dq
    | Prepared
    // dq
    | Scanning(queue: nat)
    | Found(queue: nat, avail: nat)
    | FoundNext(queue: nat, avail: nat, after: int)
    | NoWork                     // dq returned ULONG_MAX
    // done
    | Walking(head: int)
    | Cleared

  datatype State = State(
    phase: Phase,
    home: seq<nat>,              // the queue of each item, never changed
    next: seq<int>,              // work_items[i].next: NULL, another item, or i itself when not queued
    workQ: seq<int>,             // heads of work_q
    visible: seq<int>,           // heads of work_q_visible
    pc: seq<Pc>,                 // one per processor
    // history
    asked: set<nat>,             // ids passed to q since the last done
    returned: seq<nat>,          // ids returned by dq since the last prep_dq round, over all processors
    lists: seq<seq<nat>>,        // the items reachable from each head
    taken: seq<nat>,             // how many of them dq has removed (or done has unlinked)
    owner: seq<int>)             // the processor inside q(id) that claimed the item, or NULL

  predicate Shape(s: State) {
    && |s.pc| > 0 && |s.workQ| == |s.pc| && |s.visible| == |s.pc|
    && |s.lists| == |s.pc| && |s.taken| == |s.pc|
    && |s.owner| == |s.next| && |s.home| == |s.next|
    && forall id :: 0 <= id < |s.home| ==> s.home[id] < |s.pc|
  }

  /** The queue `q` computes for each id: `id & (num_queues - 1)`. */
  function HomeQueues(items: nat, processors: nat): (home: seq<nat>)
    requires processors > 0
    ensures |home| == items && forall id :: 0 <= id < items ==> home[id] < processors
  {
    seq(items, id requires 0 <= id => And(id, processors - 1))
  }

  /** The fields the constructor sets up. */
  predicate Fresh(s: State, items: nat, processors: nat)
    requires processors > 0
  {
    && Shape(s) && |s.pc| == processors && |s.next| == items
    && s.phase == Queueing && s.home == HomeQueues(items, processors)
    && (forall i :: 0 <= i < items ==> s.next[i] == i)
    && (forall p :: 0 <= p < processors ==> s.workQ[p] == NULL && s.visible[p] == NULL && s.pc[p] == Idle)
  }

  predicate Init(s: State, items: nat, processors: nat)
    requires processors > 0
  {
    && Fresh(s, items, processors)
    && s.asked == {} && s.returned == []
    && (forall i :: 0 <= i < items ==> s.owner[i] == NULL)
    && (forall p :: 0 <= p < processors ==> s.lists[p] == [] && s.taken[p] == 0)
  }

  function SetPc(s: State, p: nat, pc: Pc): State
    requires p < |s.pc|
  {
    s.(pc := s.pc[p := pc])
  }

  // ---------- the atomic steps of processor p ----------

  /** q(id): CAS(&itm->next, itm, NULL). */
  ghost predicate Claim(s: State, s': State, p: nat, id: nat)
    requires Shape(s) && p < |s.pc|
  {
    && s.phase == Queueing && s.pc[p] == Idle && id < |s.next|
    && if s.next[id] == id
       then s' == SetPc(s, p, Claimed(id)).(
              next := s.next[id := NULL], asked := s.asked + {id}, owner := s.owner[id := p])
       else s' == s.(asked := s.asked + {id})
  }

  /** q: load the head ... */
  ghost predicate LoadHead(s: State, s': State, p: nat)
    requires Shape(s) && p < |s.pc|
  {
    && s.phase == Queueing && s.pc[p].Claimed? && s.pc[p].id < |s.next|
    && s' == SetPc(s, p, Loaded(s.pc[p].id, s.workQ[s.home[s.pc[p].id]]))
  }

  /** ... store it in the item ... */
  ghost predicate Link(s: State, s': State, p: nat)
    requires Shape(s) && p < |s.pc|
  {
    && s.phase == Queueing && s.pc[p].Loaded? && s.pc[p].id < |s.next|
    && s' == SetPc(s, p, Linked(s.pc[p].id, s.pc[p].prev)).(next := s.next[s.pc[p].id := s.pc[p].prev])
  }

  /** ... and CAS the head from the loaded value to the item, starting over when it has moved. */
  ghost predicate Push(s: State, s': State, p: nat)
    requires Shape(s) && p < |s.pc|
  {
    && s.phase == Queueing && s.pc[p].Linked? && s.pc[p].id < |s.next|
    && var id, q := s.pc[p].id, s.home[s.pc[p].id];
       if s.workQ[q] == s.pc[p].prev
       then s' == SetPc(s, p, Idle).(
              workQ := s.workQ[q := id], lists := s.lists[q := [id] + s.lists[q]], owner := s.owner[id := NULL])
       else s' == SetPc(s, p, Claimed(id))
  }

  /** prep_dq(p): copy the own head. */
  ghost predicate Prep(s: State, s': State, p: nat)
    requires Shape(s) && p < |s.pc|
  {
    && s.phase == Preparing && s.pc[p] == Idle
    && s' == SetPc(s, p, Prepared).(visible := s.visible[p := s.workQ[p]], taken := s.taken[p := 0])
  }

  /** dq(p): begin at the own queue. */
  ghost predicate StartDq(s: State, s': State, p: nat)
    requires Shape(s) && p < |s.pc|
  {
    && s.phase == Draining && s.pc[p] == Idle
    && s' == SetPc(s, p, Scanning(p))
  }

  /** dq: load a visible head; an empty queue sends the scan to the next one, all the way round. */
  ghost predicate Scan(s: State, s': State, p: nat)
    requires Shape(s) && p < |s.pc|
  {
    && s.phase == Draining && s.pc[p].Scanning? && s.pc[p].queue < |s.pc|
    && var q := s.pc[p].queue;
       var q' := if q + 1 == |s.pc| then 0 else q + 1;
       if s.visible[q] >= 0 then s' == SetPc(s, p, Found(q, s.visible[q]))
       else if q' != p then s' == SetPc(s, p, Scanning(q'))
       else s' == SetPc(s, p, NoWork)
  }

  /** dq: load avail->next. */
  ghost predicate LoadNext(s: State, s': State, p: nat)
    requires Shape(s) && p < |s.pc|
  {
    && s.phase == Draining && s.pc[p].Found? && s.pc[p].avail < |s.next|
    && s' == SetPc(s, p, FoundNext(s.pc[p].queue, s.pc[p].avail, s.next[s.pc[p].avail]))
  }

  /** dq: CAS the visible head from avail to its successor; on success avail is returned. */
  ghost predicate Take(s: State, s': State, p: nat)
    requires Shape(s) && p < |s.pc|
  {
    && s.phase == Draining && s.pc[p].FoundNext? && s.pc[p].queue < |s.pc|
    && var q := s.pc[p].queue;
       if s.visible[q] == s.pc[p].avail
       then s' == SetPc(s, p, Idle).(
              visible := s.visible[q := s.pc[p].after],
              returned := s.returned + [s.pc[p].avail],
              taken := s.taken[q := s.taken[q] + 1])
       else s' == SetPc(s, p, Scanning(q))
  }

  /** done(p): load the own head. */
  ghost predicate StartDone(s: State, s': State, p: nat)
    requires Shape(s) && p < |s.pc|
  {
    && s.phase == Resetting && s.pc[p] == Idle
    && s' == SetPc(s, p, Walking(s.workQ[p])).(taken := s.taken[p := 0])
  }

  /** done: unlink one item, or clear both heads at the end of the list. */
  ghost predicate Walk(s: State, s': State, p: nat)
    requires Shape(s) && p < |s.pc|
  {
    && s.phase == Resetting && s.pc[p].Walking?
    && var head := s.pc[p].head;
       if 0 <= head < |s.next|
       then s' ==
         SetPc(s, p, Walking(s.next[head])).(next := s.next[head := head], taken := s.taken[p := s.taken[p] + 1])
       else head == NULL &&
            s' == SetPc(s, p, Cleared).(
              workQ := s.workQ[p := NULL], visible := s.visible[p := NULL],
              lists := s.lists[p := []], taken := s.taken[p := 0])
  }

  ghost predicate ProcessorStep(s: State, s': State, p: nat) {
    && Shape(s) && p < |s.pc|
    && (|| (exists id: nat :: Claim(s, s', p, id))
        || LoadHead(s, s', p) || Link(s, s', p) || Push(s, s', p)
        || Prep(s, s', p)
        || StartDq(s, s', p) || Scan(s, s', p) || LoadNext(s, s', p) || Take(s, s', p)
        || StartDone(s, s', p) || Walk(s, s', p))
  }

  // ---------- the barriers between phases ----------

  predicate AllAt(s: State, pc: Pc) {
    forall p :: 0 <= p < |s.pc| ==> s.pc[p] == pc
  }

  function Released(s: State, phase: Phase): State {
    s.(phase := phase, pc := seq(|s.pc|, _ => Idle))
  }

  ghost predicate BarrierStep(s: State, s': State) {
    && Shape(s)
    && (|| (s.phase == Queueing && AllAt(s, Idle) && s' == Released(s, Preparing))
        || (s.phase == Preparing && AllAt(s, Prepared) && s' == Released(s, Draining).(returned := []))
        || (s.phase == Draining && AllAt(s, NoWork) && s' == Released(s, Queueing)) // another round
        || (s.phase == Queueing && AllAt(s, Idle) && s' == Released(s, Resetting))
        || (s.phase == Resetting && AllAt(s, Cleared) && s' == Released(s, Queueing).(asked := {}, returned := [])))
  }

  ghost predicate Next(s: State, s': State) {
    BarrierStep(s, s') || exists p: nat :: ProcessorStep(s, s', p)
  }

  /** A run, state by state: every prefix of a run is a run. */
  ghost predicate Run(run: seq<State>, items: nat, processors: nat)
    requires processors > 0
  {
    var n := |run|;
    && n > 0
    && if n == 1 then Init(run[0], items, processors)
       else Run(run[..n - 1], items, processors) && Next(run[n - 2], run[n - 1])
  }

  /** The state a run has reached. */
  function Last(run: seq<State>): State
    requires |run| > 0
  {
    run[|run| - 1]
  }

  // ---------- the inductive invariant ----------

  /** What the pointer before position k of a list holds. */
  function At(list: seq<nat>, k: nat): int {
    if k < |list| then list[k] else NULL
  }

  /** Item k of queue q's list has been unlinked by a `done` in progress. */
  predicate Unlinked(s: State, q: nat, k: nat)
    requires Shape(s) && q < |s.pc|
  {
    s.phase == Resetting && s.pc[q].Walking? && k < s.taken[q]
  }

  predicate ListOk(s: State, q: nat)
    requires Shape(s) && q < |s.pc|
  {
    && s.workQ[q] == At(s.lists[q], 0)
    && (forall k :: 0 <= k < |s.lists[q]| ==> s.lists[q][k] < |s.next|)
    && (forall k :: 0 <= k < |s.lists[q]| ==> s.home[s.lists[q][k]] == q)
    && (forall k, l :: 0 <= k < l < |s.lists[q]| ==> s.lists[q][k] != s.lists[q][l])
    && (forall k :: 0 <= k < |s.lists[q]| ==>
          s.next[s.lists[q][k]] == if Unlinked(s, q, k) then s.lists[q][k] else At(s.lists[q], k + 1))
    && s.taken[q] <= |s.lists[q]|
  }

  predicate InLists(s: State, id: nat)
    requires Shape(s) && id < |s.next|
  {
    id in s.lists[s.home[id]]
  }

  /** Every item is free (self-linked), owned by one processor inside q, or in its home list. */
  predicate ItemOk(s: State, id: nat)
    requires Shape(s) && id < |s.next|
  {
    && (s.phase != Resetting ==> (id in s.asked <==> InLists(s, id) || s.owner[id] != NULL))
    && (!InLists(s, id) && s.owner[id] == NULL ==> s.next[id] == id)
    && (s.owner[id] != NULL ==> s.next[id] != id && !InLists(s, id))
    && (s.owner[id] != NULL ==> 0 <= s.owner[id] < |s.pc| && InsideQ(s.pc[s.owner[id]], id))
  }

  predicate InsideQ(pc: Pc, id: nat) {
    (pc.Claimed? || pc.Loaded? || pc.Linked?) && pc.id == id
  }

  predicate PcOk(s: State, p: nat)
    requires Shape(s) && p < |s.pc|
  {
    match s.pc[p]
    case Idle => true
    case Claimed(id) => s.phase == Queueing && id < |s.next| && s.owner[id] == p
    case Loaded(id, prev) => s.phase == Queueing && id < |s.next| && s.owner[id] == p && prev != id
    case Linked(id, prev) => s.phase == Queueing && id < |s.next| && s.owner[id] == p && prev != id &&
      s.next[id] == prev
    case Prepared => s.phase == Preparing && s.visible[p] == s.workQ[p] && s.taken[p] == 0
    case Scanning(q) => s.phase == Draining && q < |s.pc| && ScannedEmpty(s, p, q)
    case Found(q, avail) => s.phase == Draining && q < |s.pc| && avail in s.lists[q] && ScannedEmpty(s, p, q)
    case FoundNext(q, avail, after) =>
      && s.phase == Draining && q < |s.pc| && avail in s.lists[q] && avail < |s.next| && after == s.next[avail]
      && ScannedEmpty(s, p, q)
    case NoWork => s.phase == Draining && AllEmpty(s)
    case Walking(head) => s.phase == Resetting && head == At(s.lists[p], s.taken[p])
    case Cleared => s.phase == Resetting && s.lists[p] == [] && s.visible[p] == NULL
  }

  /** Is queue j between p and q in the cyclic order of the scan that started at p and stands at q? */
  predicate Passed(j: nat, p: nat, q: nat) {
    if p <= q then p <= j < q else p <= j || j < q
  }

  predicate ScannedEmpty(s: State, p: nat, q: nat)
    requires Shape(s)
  {
    forall j :: 0 <= j < |s.pc| && Passed(j, p, q) ==> s.visible[j] == NULL
  }

  predicate AllEmpty(s: State)
    requires Shape(s)
  {
    forall j :: 0 <= j < |s.pc| ==> s.visible[j] == NULL
  }

  /** How often id was returned this round: once if it is among the taken items of its home list. */
  ghost predicate ReturnedOk(s: State, id: nat)
    requires Shape(s) && id < |s.next|
  {
    var q := s.home[id];
    multiset(s.returned)[id] == if s.taken[q] <= |s.lists[q]| && id in s.lists[q][..s.taken[q]] then 1 else 0
  }

  ghost predicate Inv(s: State) {
    && Shape(s)
    && (forall q: nat :: q < |s.pc| ==> ListOk(s, q))
    && (forall id: nat :: id < |s.next| ==> ItemOk(s, id))
    && (forall id: nat :: id in s.asked ==> id < |s.next|)
    && (forall p: nat :: p < |s.pc| ==> PcOk(s, p))
    && (s.phase == Draining ==>
          && (forall q: nat :: q < |s.pc| ==> s.visible[q] == At(s.lists[q], s.taken[q]))
          && (forall id: nat :: id < |s.next| ==> ReturnedOk(s, id))
          && (forall i :: 0 <= i < |s.returned| ==> s.returned[i] < |s.next|))
  }

  lemma InitInv(s: State, items: nat, processors: nat)
    requires processors > 0 && Init(s, items, processors)
    ensures Inv(s)
  {
  }

  // ---------- every step keeps it ----------

  /** A step of processor p that leaves queue q's list, and the links of its items, alone. */
  lemma ListKept(s: State, s': State, q: nat)
    requires Shape(s) && Shape(s') && q < |s.pc| == |s'.pc| && |s'.next| == |s.next| && s'.home == s.home
    requires ListOk(s, q)
    requires s'.lists[q] == s.lists[q] && s'.workQ[q] == s.workQ[q] && s'.taken[q] <= |s.lists[q]|
    requires forall k :: 0 <= k < |s.lists[q]| ==> Unlinked(s', q, k) == Unlinked(s, q, k)
    requires forall k :: 0 <= k < |s.lists[q]| ==> s'.next[s.lists[q][k]] == s.next[s.lists[q][k]]
    ensures ListOk(s', q)
  {
  }

  /** Items outside the lists: owned ones, and free ones. */
  lemma NotListed(s: State, id: nat, q: nat)
    requires Shape(s) && id < |s.next| && q < |s.pc|
    requires ListOk(s, q) && ItemOk(s, id)
    requires s.owner[id] != NULL || (s.next[id] == id && s.phase != Resetting)
    ensures forall k :: 0 <= k < |s.lists[q]| ==> s.lists[q][k] != id
  {
    if k :| 0 <= k < |s.lists[q]| && s.lists[q][k] == id {
      assert false;
    }
  }

  lemma ClaimKeeps(s: State, s': State, p: nat, id: nat)
    requires Inv(s) && p < |s.pc| && Claim(s, s', p, id)
    ensures Inv(s')
  {
    assert ItemOk(s, id);
    forall q: nat | q < |s.pc|
      ensures ListOk(s', q)
    {
      if s.next[id] == id {
        NotListed(s, id, q);
      }
      ListKept(s, s', q);
    }
    forall i: nat | i < |s.next|
      ensures ItemOk(s', i)
    {
      assert ItemOk(s, i);
      if s.next[id] == id {
        NotListed(s, id, s.home[id]);
      }
    }
    forall r: nat | r < |s.pc|
      ensures PcOk(s', r)
    {
      assert PcOk(s, r);
    }
  }

  lemma LoadHeadKeeps(s: State, s': State, p: nat)
    requires Inv(s) && p < |s.pc| && LoadHead(s, s', p)
    ensures Inv(s')
  {
    assert PcOk(s, p);
    var id, q := s.pc[p].id, s.home[s.pc[p].id];
    assert ItemOk(s, id);
    assert ListOk(s, q);
    NotListed(s, id, q);
    forall q: nat | q < |s.pc|
      ensures ListOk(s', q)
    {
      ListKept(s, s', q);
    }
    forall i: nat | i < |s.next|
      ensures ItemOk(s', i)
    {
      assert ItemOk(s, i);
    }
    forall r: nat | r < |s.pc|
      ensures PcOk(s', r)
    {
      assert PcOk(s, r);
    }
  }

  lemma LinkKeeps(s: State, s': State, p: nat)
    requires Inv(s) && p < |s.pc| && Link(s, s', p)
    ensures Inv(s')
  {
    var id := s.pc[p].id;
    assert PcOk(s, p) && ItemOk(s, id);
    forall q: nat | q < |s.pc|
      ensures ListOk(s', q)
    {
      NotListed(s, id, q);
      ListKept(s, s', q);
    }
    forall i: nat | i < |s.next|
      ensures ItemOk(s', i)
    {
      assert ItemOk(s, i);
    }
    forall r: nat | r < |s.pc|
      ensures PcOk(s', r)
    {
      assert PcOk(s, r);
    }
  }

  /** The list of the pushed item's home queue after a successful CAS: the item in front of the old list. */
  lemma PushedList(s: State, s': State, q: nat, id: nat)
    requires Shape(s) && Shape(s') && q < |s.pc| == |s'.pc| && s'.next == s.next && s'.home == s.home
    requires s.phase == Queueing && s'.phase == Queueing && id < |s.next| && s.home[id] == q
    requires ListOk(s, q) && forall k :: 0 <= k < |s.lists[q]| ==> s.lists[q][k] != id
    requires s.next[id] == s.workQ[q]
    requires s'.lists[q] == [id] + s.lists[q] && s'.workQ[q] == id && s'.taken[q] == s.taken[q]
    ensures ListOk(s', q)
  {
    forall k | 0 <= k < |s'.lists[q]|
      ensures s'.next[s'.lists[q][k]] == At(s'.lists[q], k + 1)
    {
      if k > 0 {
        assert s'.lists[q][k] == s.lists[q][k - 1];
      }
    }
  }

  lemma PushKeeps(s: State, s': State, p: nat)
    requires Inv(s) && p < |s.pc| && Push(s, s', p)
    ensures Inv(s')
  {
    var id := s.pc[p].id;
    var q := s.home[id];
    assert PcOk(s, p) && ItemOk(s, id);
    NotListed(s, id, q);
    forall r: nat | r < |s.pc|
      ensures ListOk(s', r)
    {
      if r == q && s.workQ[q] == s.pc[p].prev {
        PushedList(s, s', q, id);
      } else {
        ListKept(s, s', r);
      }
    }
    forall i: nat | i < |s.next|
      ensures ItemOk(s', i)
    {
      assert ItemOk(s, i);
      if s.workQ[q] == s.pc[p].prev {
        PushMembers(s, s', q, id, i);
      }
    }
    forall r: nat | r < |s.pc|
      ensures PcOk(s', r)
    {
      assert PcOk(s, r);
    }
  }

  lemma PushMembers(s: State, s': State, q: nat, id: nat, i: nat)
    requires Shape(s) && Shape(s') && s'.home == s.home && q < |s.pc| == |s'.pc| && id < |s.next| == |s'.next| &&
      i < |s.next|
    requires s.home[id] == q && s'.lists == s.lists[q := [id] + s.lists[q]]
    ensures InLists(s', i) <==> InLists(s, i) || i == id
  {
    assert [id][0] == id;
    assert forall x: nat :: x in [id] + s.lists[q] <==> x == id || x in s.lists[q];
  }

  lemma PrepKeeps(s: State, s': State, p: nat)
    requires Inv(s) && p < |s.pc| && Prep(s, s', p)
    ensures Inv(s')
  {
    forall q: nat | q < |s.pc|
      ensures ListOk(s', q)
    {
      ListKept(s, s', q);
    }
    forall i: nat | i < |s.next|
      ensures ItemOk(s', i)
    {
      assert ItemOk(s, i);
    }
    forall r: nat | r < |s.pc|
      ensures PcOk(s', r)
    {
      assert PcOk(s, r);
    }
  }

  /** A step of dq that only moves the scan along. */
  lemma ScanMoved(s: State, s': State, p: nat)
    requires Inv(s) && p < |s.pc| == |s'.pc| && s.phase == Draining
    requires s' == SetPc(s, p, s'.pc[p]) && PcOk(s', p)
    ensures Inv(s')
  {
    forall q: nat | q < |s.pc|
      ensures ListOk(s', q)
    {
      ListKept(s, s', q);
    }
    forall i: nat | i < |s.next|
      ensures ItemOk(s', i) && ReturnedOk(s', i)
    {
      assert ItemOk(s, i) && ReturnedOk(s, i);
      assert s.owner[i] != NULL ==> PcOk(s, s.owner[i]);
    }
    forall r: nat | r < |s.pc|
      ensures PcOk(s', r)
    {
      assert PcOk(s, r);
    }
  }

  lemma ScanStepKeeps(s: State, s': State, p: nat)
    requires Inv(s) && p < |s.pc| && (StartDq(s, s', p) || Scan(s, s', p) || LoadNext(s, s', p))
    ensures Inv(s')
  {
    assert PcOk(s, p);
    if Scan(s, s', p) && s.visible[s.pc[p].queue] >= 0 {
      assert ListOk(s, s.pc[p].queue);
    }
    ScanMoved(s, s', p);
  }

  /** What a successful CAS of dq returns, and what it leaves behind. */
  lemma TakeFacts(s: State, p: nat)
    requires Inv(s) && p < |s.pc| && s.phase == Draining && s.pc[p].FoundNext? && s.pc[p].queue < |s.pc|
    requires s.visible[s.pc[p].queue] == s.pc[p].avail
    ensures var q := s.pc[p].queue;
      && s.taken[q] < |s.lists[q]| && s.lists[q][s.taken[q]] == s.pc[p].avail < |s.next| && s.home[s.pc[p].avail] == q
      && s.pc[p].after == At(s.lists[q], s.taken[q] + 1)
  {
    assert PcOk(s, p) && ListOk(s, s.pc[p].queue);
  }

  lemma TakeKeeps(s: State, s': State, p: nat)
    requires Inv(s) && p < |s.pc| && Take(s, s', p)
    ensures Inv(s')
  {
    assert PcOk(s, p);
    var q := s.pc[p].queue;
    var won := s.visible[q] == s.pc[p].avail;
    if won {
      TakeFacts(s, p);
    }
    forall q: nat | q < |s.pc|
      ensures ListOk(s', q)
    {
      ListKept(s, s', q);
    }
    forall i: nat | i < |s.next|
      ensures ItemOk(s', i) && ReturnedOk(s', i)
    {
      assert ItemOk(s, i) && ReturnedOk(s, i);
      if won {
        TakeCounts(s, s', q, i);
      }
    }
    forall r: nat | r < |s.pc|
      ensures PcOk(s', r)
    {
      assert PcOk(s, r);
    }
  }

  lemma TakeCounts(s: State, s': State, q: nat, i: nat)
    requires Shape(s) && Shape(s') && s'.home == s.home && q < |s.pc| == |s'.pc| && |s'.next| == |s.next|
    requires i < |s.next| && ReturnedOk(s, i) && s'.lists == s.lists && ListOk(s, q)
    requires s.taken[q] < |s.lists[q]| && s'.taken == s.taken[q := s.taken[q] + 1]
    requires s'.returned == s.returned + [s.lists[q][s.taken[q]]]
    ensures ReturnedOk(s', i)
  {
    var k := s.taken[q];
    var x := s.lists[q][k];
    assert multiset(s'.returned) == multiset(s.returned) + multiset{x};
    assert s.lists[q][..k + 1] == s.lists[q][..k] + [x];
    assert x !in s.lists[q][..k];
  }

  lemma StartDoneKeeps(s: State, s': State, p: nat)
    requires Inv(s) && p < |s.pc| && StartDone(s, s', p)
    ensures Inv(s')
  {
    assert ListOk(s, p);
    forall q: nat | q < |s.pc|
      ensures ListOk(s', q)
    {
      assert ListOk(s, q);
      ListKept(s, s', q);
    }
    forall i: nat | i < |s.next|
      ensures ItemOk(s', i)
    {
      assert ItemOk(s, i);
    }
    forall r: nat | r < |s.pc|
      ensures PcOk(s', r)
    {
      assert PcOk(s, r);
    }
  }

  /** The list of a `done` after it has unlinked the next item. */
  lemma UnlinkedList(s: State, s': State, p: nat)
    requires Shape(s) && Shape(s') && p < |s.pc| && ListOk(s, p) && s.phase == Resetting && s.pc[p].Walking?
    requires s.taken[p] < |s.lists[p]|
    requires var h := s.lists[p][s.taken[p]];
      s' == SetPc(s, p, Walking(At(s.lists[p], s.taken[p] + 1))).(next := s.next[h := h],
        taken := s.taken[p := s.taken[p] + 1])
    ensures ListOk(s', p)
  {
  }

  lemma UnlinkKeeps(s: State, s': State, p: nat)
    requires Inv(s) && p < |s.pc| && Walk(s, s', p) && s.pc[p].head != NULL
    ensures Inv(s')
  {
    assert PcOk(s, p) && ListOk(s, p);
    assert !Unlinked(s, p, s.taken[p]);
    UnlinkedList(s, s', p);
    ListedAt(s, p, s.taken[p]);
    forall q: nat | q < |s.pc|
      ensures ListOk(s', q)
    {
      if q != p {
        assert ListOk(s, q) && ListOk(s, p);
        ListKept(s, s', q);
      }
    }
    forall i: nat | i < |s.next|
      ensures ItemOk(s', i)
    {
      assert ItemOk(s, i);
    }
    forall r: nat | r < |s.pc|
      ensures PcOk(s', r)
    {
      assert PcOk(s, r);
    }
  }

  /** At the end of its list a `done` has made every item of the list self-linked. */
  lemma AllUnlinked(s: State, p: nat, i: nat)
    requires Inv(s) && p < |s.pc| && s.phase == Resetting && s.pc[p].Walking? && s.pc[p].head == NULL
    requires i < |s.next| && s.home[i] == p && InLists(s, i)
    ensures s.next[i] == i
  {
    assert PcOk(s, p) && ListOk(s, p);
    var k :| 0 <= k < |s.lists[p]| && s.lists[p][k] == i;
    assert Unlinked(s, p, k);
  }

  lemma ClearKeeps(s: State, s': State, p: nat)
    requires Inv(s) && p < |s.pc| && Walk(s, s', p) && s.pc[p].head == NULL
    ensures Inv(s')
  {
    forall q: nat | q < |s.pc|
      ensures ListOk(s', q)
    {
      if q != p {
        assert ListOk(s, q);
        ListKept(s, s', q);
      }
    }
    forall i: nat | i < |s.next|
      ensures ItemOk(s', i)
    {
      assert ItemOk(s, i);
      if s.home[i] == p && InLists(s, i) {
        AllUnlinked(s, p, i);
      }
    }
    forall r: nat | r < |s.pc|
      ensures PcOk(s', r)
    {
      assert PcOk(s, r);
    }
  }

  lemma ListedAt(s: State, q: nat, k: nat)
    requires Inv(s) && q < |s.pc| && k < |s.lists[q]|
    ensures s.lists[q][k] < |s.next| && InLists(s, s.lists[q][k])
    ensures s.owner[s.lists[q][k]] == NULL
  {
    assert ListOk(s, q);
    assert s.lists[q][k] in s.lists[q];
    assert ItemOk(s, s.lists[q][k]);
  }

  lemma BarrierKeeps(s: State, s': State)
    requires Inv(s) && BarrierStep(s, s')
    ensures Inv(s')
  {
    forall q: nat | q < |s.pc|
      ensures ListOk(s', q)
    {
      assert PcOk(s, q);
      ListKept(s, s', q);
    }
    forall i: nat | i < |s.next|
      ensures ItemOk(s', i)
    {
      assert ItemOk(s, i);
      assert PcOk(s, s.home[i]);
    }
    if s.phase == Preparing {
      forall q: nat | q < |s.pc|
        ensures s'.visible[q] == At(s'.lists[q], s'.taken[q])
      {
        assert PcOk(s, q) && ListOk(s, q);
      }
      forall i: nat | i < |s.next|
        ensures ReturnedOk(s', i)
      {
        assert PcOk(s, s.home[i]);
      }
    }
  }

  lemma StepKeeps(s: State, s': State)
    requires Inv(s) && Next(s, s')
    ensures Inv(s') && |s'.next| == |s.next| && |s'.pc| == |s.pc| && s'.home == s.home
  {
    if BarrierStep(s, s') {
      BarrierKeeps(s, s');
    } else {
      var p: nat :| ProcessorStep(s, s', p);
      if id: nat :| Claim(s, s', p, id) {
        ClaimKeeps(s, s', p, id);
      } else if LoadHead(s, s', p) {
        LoadHeadKeeps(s, s', p);
      } else if Link(s, s', p) {
        LinkKeeps(s, s', p);
      } else if Push(s, s', p) {
        PushKeeps(s, s', p);
      } else if Prep(s, s', p) {
        PrepKeeps(s, s', p);
      } else if Take(s, s', p) {
        TakeKeeps(s, s', p);
      } else if StartDone(s, s', p) {
        StartDoneKeeps(s, s', p);
      } else if Walk(s, s', p) {
        if s.pc[p].head == NULL {
          ClearKeeps(s, s', p);
        } else {
          UnlinkKeeps(s, s', p);
        }
      } else {
        ScanStepKeeps(s, s', p);
      }
    }
  }

  lemma {:induction false} RunInv(run: seq<State>, items: nat, processors: nat)
    requires processors > 0 && Run(run, items, processors)
    ensures Inv(Last(run)) && |Last(run).next| == items && |Last(run).pc| == processors
    ensures Last(run).home == HomeQueues(items, processors)
  {
    var n := |run|;
    if n == 1 {
      InitInv(run[0], items, processors);
    } else {
      RunInv(run[..n - 1], items, processors);
      assert Last(run[..n - 1]) == run[n - 2];
      StepKeeps(run[n - 2], run[n - 1]);
    }
  }

  // ---------- main results, for every state of every run ----------

  /** While a round drains, no id is returned twice and none that was not queued since the last `done`. */
  lemma ReturnedAtMostOnce(run: seq<State>, items: nat, processors: nat, id: nat)
    requires processors > 0 && Run(run, items, processors) && Last(run).phase == Draining
    ensures multiset(Last(run).returned)[id] <= 1
    ensures id in Last(run).returned ==> id in Last(run).asked
  {
    RunInv(run, items, processors);
    ReturnedOnce(Last(run), id);
  }

  lemma ReturnedOnce(s: State, id: nat)
    requires Inv(s) && s.phase == Draining
    ensures multiset(s.returned)[id] <= 1
    ensures id in s.returned ==> id in s.asked
  {
    if id in s.returned {
      assert ItemOk(s, id) && ReturnedOk(s, id);
      assert multiset(s.returned)[id] > 0;
    }
  }

  /**
   Once any processor's `dq` has returned ULONG_MAX the round is over for everybody: all visible queues
   are empty, and every id queued since the last `done` has been returned exactly once, over all processors.
   */
  lemma NoWorkMeansAllReturned(run: seq<State>, items: nat, processors: nat, p: nat, id: nat)
    requires processors > 0 && Run(run, items, processors)
    requires p < |Last(run).pc| && Last(run).pc[p] == NoWork
    ensures |Last(run).visible| == processors && forall q :: 0 <= q < processors ==> Last(run).visible[q] == NULL
    ensures multiset(Last(run).returned)[id] == if id in Last(run).asked then 1 else 0
  {
    RunInv(run, items, processors);
    AllReturned(Last(run), p, id);
  }

  lemma AllReturned(s: State, p: nat, id: nat)
    requires Inv(s) && p < |s.pc| && s.pc[p] == NoWork
    ensures forall q :: 0 <= q < |s.pc| ==> s.visible[q] == NULL
    ensures multiset(s.returned)[id] == if id in s.asked then 1 else 0
  {
    assert PcOk(s, p);
    if id < |s.next| {
      var q := s.home[id];
      assert ItemOk(s, id) && ReturnedOk(s, id) && ListOk(s, q);
      assert s.owner[id] != NULL ==> PcOk(s, s.owner[id]);
      assert s.visible[q] == NULL && s.taken[q] == |s.lists[q]|;
      assert s.lists[q][..s.taken[q]] == s.lists[q];
    } else {
      assert id !in s.returned;
    }
  }

  /** After every processor's `done` the filter is as the constructor left it. */
  lemma DoneRestores(run: seq<State>, items: nat, processors: nat, s': State)
    requires processors > 0 && Run(run, items, processors)
    requires Last(run).phase == Resetting && s'.phase == Queueing && Next(Last(run), s')
    ensures Fresh(s', items, processors) && s'.asked == {}
  {
    RunInv(run, items, processors);
    ResetToFresh(Last(run), s');
  }

  lemma ResetToFresh(s: State, s': State)
    requires Inv(s) && s.phase == Resetting && s'.phase == Queueing && Next(s, s')
    requires s.home == HomeQueues(|s.next|, |s.pc|)
    ensures Fresh(s', |s.next|, |s.pc|) && s'.asked == {}
  {
    assert BarrierStep(s, s');
    StepKeeps(s, s');
    forall q: nat | q < |s.pc|
      ensures s'.workQ[q] == NULL && s'.visible[q] == NULL && s'.lists[q] == []
    {
      assert PcOk(s, q) && ListOk(s, q);
    }
    forall id: nat | id < |s.next|
      ensures s'.next[id] == id
    {
      assert ItemOk(s', id);
    }
  }
}
