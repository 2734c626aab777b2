/**
 The sense-reversing barrier of utils/barrier.h as a state machine: one step is one access to the
 shared words `count[0]`, `count[1]`, `sense`, and steps of different threads interleave freely.
 */
module Barrier {

  /** Where a thread stands. The argument is its local `sense_used`. */
  datatype Pc =
    | Outside                  // not inside `wait`
    | SenseRead(used: nat)     // `sense_used = sense` done
    | LastArrived(used: nat)   // fetched `expected - 1`: about to reverse the sense
    | Reversed(used: nat)      // sense reversed: about to clear its count
    | Spinning(used: nat)      // in the `while` loop

  datatype State = State(
    count: seq<nat>,           // the two arrival counters
    sense: nat,
    pc: seq<Pc>,               // one per expected thread
    entered: seq<nat>,         // calls to `wait` each thread has begun
    left: seq<nat>)            // calls to `wait` each thread has returned from

  predicate Init(s: State, expected: nat) {
    && expected > 0
    && s.count == [0, 0] && s.sense == 0
    && s.pc == seq(expected, _ => Outside)
    && s.entered == seq(expected, _ => 0) && s.left == seq(expected, _ => 0)
  }

  predicate WellFormed(s: State) {
    && |s.count| == 2 && s.sense < 2 && |s.pc| > 0
    && |s.entered| == |s.pc| && |s.left| == |s.pc|
    && forall t :: 0 <= t < |s.pc| && !s.pc[t].Outside? ==> s.pc[t].used < 2
  }

  // ---------- the atomic steps of thread t ----------

  ghost predicate ReadSense(s: State, s': State, t: nat)
    requires WellFormed(s) && t < |s.pc|
  {
    && s.pc[t].Outside?
    && s' == s.(pc := s.pc[t := SenseRead(s.sense)], entered := s.entered[t := s.entered[t] + 1])
  }

  ghost predicate Arrive(s: State, s': State, t: nat)
    requires WellFormed(s) && t < |s.pc|
  {
    && s.pc[t].SenseRead?
    && var used := s.pc[t].used;
       var next := if s.count[used] == |s.pc| - 1 then LastArrived(used) else Spinning(used);
       s' == s.(count := s.count[used := s.count[used] + 1], pc := s.pc[t := next])
  }

  ghost predicate Reverse(s: State, s': State, t: nat)
    requires WellFormed(s) && t < |s.pc|
  {
    && s.pc[t].LastArrived?
    && s' == s.(sense := 1 - s.pc[t].used, pc := s.pc[t := Reversed(s.pc[t].used)])
  }

  ghost predicate Clear(s: State, s': State, t: nat)
    requires WellFormed(s) && t < |s.pc|
  {
    && s.pc[t].Reversed?
    && s' == s.(count := s.count[s.pc[t].used := 0], pc := s.pc[t := Spinning(s.pc[t].used)])
  }

  ghost predicate Leave(s: State, s': State, t: nat)
    requires WellFormed(s) && t < |s.pc|
  {
    && s.pc[t].Spinning? && s.count[s.pc[t].used] == 0
    && s' == s.(pc := s.pc[t := Outside], left := s.left[t := s.left[t] + 1])
  }

  /** A step that changes the state; re-reading a non-zero count in the spin loop changes nothing. */
  ghost predicate Step(s: State, s': State, t: nat) {
    && WellFormed(s) && t < |s.pc|
    && (ReadSense(s, s', t) || Arrive(s, s', t) || Reverse(s, s', t) || Clear(s, s', t) || Leave(s, s', t))
  }

  ghost predicate Next(s: State, s': State) {
    exists t: nat :: Step(s, s', t)
  }

  /** A run: any interleaving of the threads' steps from the initial state. */
  ghost predicate Run(run: seq<State>, expected: nat) {
    && |run| > 0 && Init(run[0], expected)
    && forall i, j :: 0 <= i < j < |run| && j == i + 1 ==> Next(run[i], run[j])
  }

  // ---------- the inductive invariant ----------

  /** Threads counted in `count[used]` of episode e. */
  function Arrived(s: State, e: nat): set<nat>
    requires WellFormed(s)
  {
    set t: nat | t < |s.pc| && s.left[t] == e && (s.pc[t].Spinning? || s.pc[t].LastArrived?)
  }

  /** Thread t in a state where episodes 0 .. e-1 are over (their sense has been reversed). */
  predicate ThreadOk(s: State, t: nat, e: nat)
    requires WellFormed(s) && t < |s.pc|
  {
    && s.entered[t] == s.left[t] + (if s.pc[t].Outside? then 0 else 1)
    && match s.pc[t]
       case Outside => s.left[t] == e
       case SenseRead(u) => s.left[t] == e && u == e % 2
       case LastArrived(u) => s.left[t] == e && u == e % 2
       case Reversed(u) => s.left[t] + 1 == e && u != e % 2
       case Spinning(u) => (s.left[t] == e && u == e % 2) || (s.left[t] + 1 == e && u != e % 2)
  }

  ghost predicate Inv(s: State, e: nat) {
    && WellFormed(s)
    && s.sense == e % 2
    && (forall t: nat :: t < |s.pc| ==> ThreadOk(s, t, e))
    && s.count[e % 2] == |Arrived(s, e)|
    // the last arrival of the running episode has been fetched: everyone has arrived
    && (forall t: nat :: t < |s.pc| && s.pc[t].LastArrived? ==> |Arrived(s, e)| == |s.pc|)
    && (forall t: nat, u: nat :: t < |s.pc| && u < |s.pc| && s.pc[t].LastArrived? && s.pc[u].LastArrived? ==> t == u)
    && (|Arrived(s, e)| == |s.pc| ==> exists t: nat :: t < |s.pc| && s.pc[t].LastArrived?)
    // the previous counter is non-zero exactly while its last arriver has yet to clear it
    && (s.count[1 - e % 2] != 0 <==> exists t: nat :: t < |s.pc| && s.pc[t].Reversed?)
    && (forall t: nat :: t < |s.pc| && s.pc[t].Reversed? ==> forall u: nat :: u < |s.pc| ==> s.left[u] + 1 == e)
    && (forall t: nat, u: nat :: t < |s.pc| && u < |s.pc| && s.pc[t].Reversed? && s.pc[u].Reversed? ==> t == u)
  }

  /** All thread numbers. */
  function Threads(n: nat): (r: set<nat>)
    ensures |r| == n && forall t: nat :: t in r <==> t < n
  {
    if n == 0 then {} else Threads(n - 1) + {n - 1}
  }

  lemma SubsetSize(a: set<nat>, b: set<nat>)
    requires a <= b
    ensures |a| <= |b| && (|a| == |b| ==> a == b)
  {
    assert b == a + (b - a);
  }

  lemma ArrivedBound(s: State, e: nat)
    requires WellFormed(s)
    ensures |Arrived(s, e)| <= |s.pc|
    ensures |Arrived(s, e)| == |s.pc| ==> forall t: nat :: t < |s.pc| ==> t in Arrived(s, e)
  {
    SubsetSize(Arrived(s, e), Threads(|s.pc|));
  }

  lemma InitInv(s: State, expected: nat)
    requires Init(s, expected)
    ensures Inv(s, 0)
  {
    assert Arrived(s, 0) == {};
  }

  lemma ReadSenseKeeps(s: State, s': State, t: nat, e: nat)
    requires Inv(s, e) && t < |s.pc| && ReadSense(s, s', t)
    ensures Inv(s', e)
  {
    assert Arrived(s', e) == Arrived(s, e);
    forall u: nat | u < |s.pc|
      ensures ThreadOk(s', u, e)
    {
      assert ThreadOk(s, u, e);
    }
    if s.count[1 - e % 2] != 0 {
      var r: nat :| r < |s.pc| && s.pc[r].Reversed?;
      assert s'.pc[r].Reversed?;
    }
    if |Arrived(s, e)| == |s.pc| {
      var r: nat :| r < |s.pc| && s.pc[r].LastArrived?;
      assert s'.pc[r].LastArrived?;
    }
  }

  lemma ArriveKeeps(s: State, s': State, t: nat, e: nat)
    requires Inv(s, e) && t < |s.pc| && Arrive(s, s', t)
    ensures Inv(s', e)
  {
    assert ThreadOk(s, t, e);
    assert Arrived(s', e) == Arrived(s, e) + {t};
    assert t !in Arrived(s, e);
    ArrivedBound(s, e);
    ArrivedBound(s', e);
    forall u: nat | u < |s.pc|
      ensures ThreadOk(s', u, e)
    {
      assert ThreadOk(s, u, e);
    }
    assert forall r: nat :: r < |s.pc| ==> !s.pc[r].Reversed?;
    if |Arrived(s', e)| == |s.pc| {
      assert s'.pc[t].LastArrived?;
    }
  }

  lemma ReverseKeeps(s: State, s': State, t: nat, e: nat)
    requires Inv(s, e) && t < |s.pc| && Reverse(s, s', t)
    ensures Inv(s', e + 1)
  {
    ArrivedBound(s, e);
    assert |Arrived(s, e)| == |s.pc|;
    forall u: nat | u < |s.pc|
      ensures ThreadOk(s', u, e + 1) && s'.left[u] == e
    {
      assert ThreadOk(s, u, e) && u in Arrived(s, e);
    }
    assert Arrived(s', e + 1) == {};
    assert forall r: nat :: r < |s.pc| ==> r in Arrived(s, e);
    assert ThreadOk(s, t, e) && s'.pc[t].Reversed?;
  }

  lemma ClearKeeps(s: State, s': State, t: nat, e: nat)
    requires Inv(s, e) && t < |s.pc| && Clear(s, s', t)
    ensures Inv(s', e)
  {
    assert ThreadOk(s, t, e);
    assert Arrived(s', e) == Arrived(s, e);
    forall u: nat | u < |s.pc|
      ensures ThreadOk(s', u, e)
    {
      assert ThreadOk(s, u, e);
    }
    ArrivedBound(s, e);
    assert s.left[t] != e ==> t !in Arrived(s, e);
  }

  lemma LeaveKeeps(s: State, s': State, t: nat, e: nat)
    requires Inv(s, e) && t < |s.pc| && Leave(s, s', t)
    ensures Inv(s', e)
  {
    assert ThreadOk(s, t, e);
    assert s.left[t] + 1 == e by {
      var counted := Arrived(s, e);
      assert t in counted || s.left[t] != e;
    }
    assert Arrived(s', e) == Arrived(s, e);
    forall u: nat | u < |s.pc|
      ensures ThreadOk(s', u, e)
    {
      assert ThreadOk(s, u, e);
    }
    ArrivedBound(s, e);
    assert s.left[t] != e ==> t !in Arrived(s, e);
  }

  lemma StepKeeps(s: State, s': State, t: nat, e: nat) returns (e': nat)
    requires Inv(s, e) && Step(s, s', t)
    ensures Inv(s', e')
  {
    e' := e;
    if ReadSense(s, s', t) {
      ReadSenseKeeps(s, s', t, e);
    } else if Arrive(s, s', t) {
      ArriveKeeps(s, s', t, e);
    } else if Reverse(s, s', t) {
      ReverseKeeps(s, s', t, e);
      e' := e + 1;
    } else if Clear(s, s', t) {
      ClearKeeps(s, s', t, e);
    } else {
      LeaveKeeps(s, s', t, e);
    }
  }

  lemma {:induction false} RunInv(run: seq<State>, expected: nat, i: nat) returns (e: nat)
    requires Run(run, expected) && i < |run|
    ensures Inv(run[i], e)
  {
    if i == 0 {
      InitInv(run[0], expected);
      e := 0;
    } else {
      var e0 := RunInv(run, expected, i - 1);
      assert Next(run[i - 1], run[i]);
      var t: nat :| Step(run[i - 1], run[i], t);
      e := StepKeeps(run[i - 1], run[i], t, e0);
    }
  }

  // ---------- main results ----------

  /**
   Safety, in every state of every run: a thread that has left its k-th `wait` did so after every
   thread entered its own k-th, and no thread is ever more than one episode ahead of another.
   */
  lemma BarrierSafe(run: seq<State>, expected: nat, i: nat, t: nat, u: nat)
    requires Run(run, expected) && i < |run|
    ensures WellFormed(run[i])
    ensures t < |run[i].pc| && u < |run[i].pc| ==>
      run[i].left[t] <= run[i].entered[u] && run[i].left[t] <= run[i].left[u] + 1
  {
    var e := RunInv(run, expected, i);
    if t < |run[i].pc| && u < |run[i].pc| {
      assert ThreadOk(run[i], t, e) && ThreadOk(run[i], u, e);
    }
  }

  /** In any invariant state some thread has a step that changes the state. */
  lemma SomeStep(s: State, e: nat) returns (t: nat, s': State)
    requires Inv(s, e)
    ensures Step(s, s', t)
  {
    if exists u: nat :: u < |s.pc| && !s.pc[u].Spinning? {
      t :| t < |s.pc| && !s.pc[t].Spinning?;
      s' := match s.pc[t]
        case Outside => s.(pc := s.pc[t := SenseRead(s.sense)], entered := s.entered[t := s.entered[t] + 1])
        case SenseRead(used) =>
          s.(count := s.count[used := s.count[used] + 1],
             pc := s.pc[t := if s.count[used] == |s.pc| - 1 then LastArrived(used) else Spinning(used)])
        case LastArrived(used) => s.(sense := 1 - used, pc := s.pc[t := Reversed(used)])
        case Reversed(used) => s.(count := s.count[used := 0], pc := s.pc[t := Spinning(used)])
        case Spinning(_) => s;
    } else {
      t := Straggler(s, e);
      s' := s.(pc := s.pc[t := Outside], left := s.left[t := s.left[t] + 1]);
    }
  }

  /**
   If everybody spins, somebody still has to leave the previous episode: were all counted in this one, one would be its
   last arriver.
   */
  lemma Straggler(s: State, e: nat) returns (t: nat)
    requires Inv(s, e)
    requires forall u: nat :: u < |s.pc| ==> s.pc[u].Spinning?
    ensures t < |s.pc| && Leave(s, s.(pc := s.pc[t := Outside], left := s.left[t := s.left[t] + 1]), t)
  {
    var counted, everyone := Arrived(s, e), Threads(|s.pc|);
    assert counted != everyone;
    SubsetSize(counted, everyone);
    assert exists u: nat :: u < |s.pc| && s.left[u] != e;
    t :| t < |s.pc| && s.left[t] != e;
    assert ThreadOk(s, t, e);
  }

  /** No reachable state is stuck: as long as the threads keep calling `wait`, some thread can make progress. */
  lemma BarrierNeverStuck(run: seq<State>, expected: nat, i: nat) returns (t: nat, s': State)
    requires Run(run, expected) && i < |run|
    ensures Step(run[i], s', t)
  {
    var e := RunInv(run, expected, i);
    t, s' := SomeStep(run[i], e);
  }

  // ---------- progress: every run of enough steps lets every thread through ----------

  /** How far thread t has come, counting at most five steps for each call. */
  function Stage(pc: Pc, left: nat): nat {
    5 * left + match pc
      case Outside => 0
      case SenseRead(_) => 1
      case LastArrived(_) => 2
      case Reversed(_) => 3
      case Spinning(_) => 4
  }

  function TotalStage(pc: seq<Pc>, left: seq<nat>): nat
    requires |pc| == |left|
  {
    if pc == [] then 0
    else Stage(pc[|pc| - 1], left[|pc| - 1]) + TotalStage(pc[..|pc| - 1], left[..|pc| - 1])
  }

  lemma {:induction false} TotalStageUpdate(pc: seq<Pc>, left: seq<nat>, t: nat, pc': Pc, left': nat)
    requires |pc| == |left| && t < |pc|
    ensures TotalStage(pc[t := pc'], left[t := left'])
         == TotalStage(pc, left) - Stage(pc[t], left[t]) + Stage(pc', left')
  {
    var n := |pc| - 1;
    if t == n {
      assert pc[t := pc'][..n] == pc[..n] && left[t := left'][..n] == left[..n];
    } else {
      TotalStageUpdate(pc[..n], left[..n], t, pc', left');
      assert pc[t := pc'][..n] == pc[..n][t := pc'] && left[t := left'][..n] == left[..n][t := left'];
    }
  }

  lemma {:induction false} TotalStageBound(pc: seq<Pc>, left: seq<nat>, bound: nat)
    requires |pc| == |left|
    requires forall t :: 0 <= t < |pc| ==> left[t] <= bound
    ensures TotalStage(pc, left) <= |pc| * (5 * bound + 4)
  {
    if pc != [] {
      TotalStageBound(pc[..|pc| - 1], left[..|pc| - 1], bound);
      assert |pc| * (5 * bound + 4) == (|pc| - 1) * (5 * bound + 4) + (5 * bound + 4);
    }
  }

  lemma StepAdvances(s: State, s': State, t: nat)
    requires Step(s, s', t) && WellFormed(s')
    ensures |s'.pc| == |s.pc| && TotalStage(s'.pc, s'.left) > TotalStage(s.pc, s.left)
  {
    var pc', left' := s'.pc[t], s'.left[t];
    TotalStageUpdate(s.pc, s.left, t, pc', left');
    assert s'.pc == s.pc[t := pc'] && s'.left == s.left[t := left'];
  }

  lemma {:induction false} RunAdvances(run: seq<State>, expected: nat, i: nat)
    requires Run(run, expected) && i < |run|
    ensures WellFormed(run[i]) && |run[i].pc| == expected
    ensures TotalStage(run[i].pc, run[i].left) >= i
  {
    var e := RunInv(run, expected, i);
    if i > 0 {
      RunAdvances(run, expected, i - 1);
      assert Next(run[i - 1], run[i]);
      var t: nat :| Step(run[i - 1], run[i], t);
      StepAdvances(run[i - 1], run[i], t);
    }
  }

  /**
   Nobody is left behind: after i steps of any interleaving every thread u has completed at least (i / expected - 9) /
   5 calls.
   */
  lemma BarrierProgress(run: seq<State>, expected: nat, i: nat, u: nat)
    requires Run(run, expected) && i < |run| && u < expected
    ensures |run[i].left| == expected && i <= expected * (5 * run[i].left[u] + 9)
  {
    RunAdvances(run, expected, i);
    forall t: nat | t < expected
      ensures run[i].left[t] <= run[i].left[u] + 1
    {
      BarrierSafe(run, expected, i, t, u);
    }
    TotalStageBound(run[i].pc, run[i].left, run[i].left[u] + 1);
  }
}
