/**
 The multi-pass radix split of core/x-splitter.hpp 105-222 and its quicksort form 243-276: a stable grouping by
 partition, the index that delimits the groups, and the queue of partitions that have items. Positions count items.
 */
module Splitter {
  import opened Bits
  import opened BitshufflePasses

  // ---------- grouping by an id ----------

  /** The items with id g, in order. */
  ghost function Filter<T>(s: seq<T>, id: T -> nat, g: nat): seq<T> {
    if s == [] then []
    else Filter(s[..|s| - 1], id, g) + if id(s[|s| - 1]) == g then [s[|s| - 1]] else []
  }

  ghost function Count<T>(s: seq<T>, id: T -> nat, g: nat): nat {
    |Filter(s, id, g)|
  }

  /** The number of items with an id from `from` up to but not including g: where group g starts. */
  ghost function Before<T>(s: seq<T>, id: T -> nat, from: nat, g: nat): nat {
    if g <= from then 0 else Before(s, id, from, g - 1) + Count(s, id, g - 1)
  }

  ghost predicate IdsWithin<T>(s: seq<T>, id: T -> nat, from: nat, upTo: nat) {
    forall k: nat :: k < |s| ==> from <= id(s[k]) < upTo
  }

  lemma {:induction false} BeforeSplit<T>(s: seq<T>, id: T -> nat, from: nat, mid: nat, g: nat)
    requires from <= mid <= g
    ensures Before(s, id, from, g) == Before(s, id, from, mid) + Before(s, id, mid, g)
    decreases g
  {
    if mid < g {
      BeforeSplit(s, id, from, mid, g - 1);
    }
  }

  lemma BeforeMonotone<T>(s: seq<T>, id: T -> nat, from: nat, g: nat, h: nat)
    requires from <= g <= h
    ensures Before(s, id, from, g) <= Before(s, id, from, h)
  {
    BeforeSplit(s, id, from, g, h);
  }

  /** One more item counts for the groups behind its own. */
  lemma {:induction false} BeforeOfLonger<T>(s: seq<T>, id: T -> nat, x: T, from: nat, g: nat)
    ensures Before(s + [x], id, from, g) == Before(s, id, from, g) + if from <= id(x) < g then 1 else 0
    decreases g
  {
    if g > from {
      BeforeOfLonger(s, id, x, from, g - 1);
      FilterOfLonger(s, id, x, g - 1);
    }
  }

  lemma FilterOfLonger<T>(s: seq<T>, id: T -> nat, x: T, g: nat)
    ensures Filter(s + [x], id, g) == Filter(s, id, g) + if id(x) == g then [x] else []
  {
    assert (s + [x])[..|s + [x]| - 1] == s;
  }

  lemma {:induction false} NothingBefore<T>(s: seq<T>, id: T -> nat, from: nat, g: nat)
    requires s == []
    ensures Before(s, id, from, g) == 0
    decreases g
  {
    if g > from {
      NothingBefore(s, id, from, g - 1);
    }
  }

  /** All groups together are all items. */
  lemma {:induction false} AllCounted<T>(s: seq<T>, id: T -> nat, from: nat, upTo: nat)
    requires IdsWithin(s, id, from, upTo)
    ensures Before(s, id, from, upTo) == |s|
  {
    if s == [] {
      NothingBefore(s, id, from, upTo);
    } else {
      var rest, x := s[..|s| - 1], s[|s| - 1];
      assert s == rest + [x];
      AllCounted(rest, id, from, upTo);
      BeforeOfLonger(rest, id, x, from, upTo);
    }
  }

  /** A prefix has no more items of a group than the whole. */
  lemma {:induction false} CountOfPrefix<T>(s: seq<T>, id: T -> nat, k: nat, g: nat)
    requires k <= |s|
    ensures Count(s[..k], id, g) <= Count(s, id, g)
    ensures k < |s| && id(s[k]) == g ==> Count(s[..k], id, g) < Count(s, id, g)
    decreases |s|
  {
    if k < |s| {
      var rest := s[..|s| - 1];
      assert s == rest + [s[|s| - 1]] && rest[..k] == s[..k];
      FilterOfLonger(rest, id, s[|s| - 1], g);
      CountOfPrefix(rest, id, k, g);
    } else {
      assert s[..k] == s;
    }
  }

  // ---------- the result of a pass ----------

  /** The items of f lie in the buffer from `at` on. */
  ghost predicate Holds<T>(buf: seq<T>, at: nat, f: seq<T>) {
    at + |f| <= |buf| && forall r: nat {:trigger f[r]} :: r < |f| ==> buf[at + r] == f[r]
  }

  lemma HoldsIsSlice<T>(buf: seq<T>, at: nat, f: seq<T>)
    requires Holds(buf, at, f)
    ensures buf[at..at + |f|] == f
  {
  }

  /** Group g lies at its place in the buffer, and the index says where. */
  ghost predicate GroupAt<T>(s: seq<T>, id: T -> nat, from: nat, base: nat, buf: seq<T>, index: seq<nat>, g: nat) {
    && g < |index| && index[g] == base + Before(s, id, from, g)
    && Holds(buf, index[g], Filter(s, id, g))
  }

  ghost predicate GroupsAt<T>(s: seq<T>, id: T -> nat, from: nat, upTo: nat, base: nat, buf: seq<T>, index: seq<nat>) {
    forall g: nat :: from <= g < upTo ==> GroupAt(s, id, from, base, buf, index, g)
  }

  /** The groups from i on, positions counted from group 0. */
  ghost predicate GroupsLeft<T>(s: seq<T>, id: T -> nat, i: nat, upTo: nat, base: nat, buf: seq<T>, index: seq<nat>) {
    forall g: nat :: i <= g < upTo ==> GroupAt(s, id, 0, base, buf, index, g)
  }

  // ---------- one input group: count, prefix sums, copy ----------

  ghost predicate Nondecreasing<T>(s: seq<T>, key: T -> nat) {
    forall i: nat, j: nat :: i < j < |s| ==> key(s[i]) <= key(s[j])
  }

  /** The first loop: histogram, and whether the items are in key order already. */
  method CountItems<T>(s: seq<T>, key: T -> nat, id: T -> nat, index: array<nat>, from: nat, upTo: nat)
    returns (sorted: bool)
    requires IdsWithin(s, id, from, upTo) && upTo <= index.Length
    requires forall g: nat {:trigger index[g]} :: from <= g < upTo ==> index[g] == 0
    modifies index
    ensures forall g: nat {:trigger index[g]} :: from <= g < upTo ==> index[g] == Count(s, id, g)
    ensures forall g: nat {:trigger index[g]} :: g < index.Length && !(from <= g < upTo) ==> index[g] == old(index[g])
    ensures sorted ==> Nondecreasing(s, key)
  {
    sorted := true;
    var oldKey := 0;
    var j := 0;
    while j < |s|
      invariant 0 <= j <= |s|
      invariant forall g: nat {:trigger index[g]} :: from <= g < upTo ==> index[g] == Count(s[..j], id, g)
      invariant forall g: nat {:trigger index[g]} :: g < index.Length && !(from <= g < upTo) ==>
        index[g] == old(index[g])
      invariant sorted ==> Nondecreasing(s[..j], key) && forall i: nat :: i < j ==> key(s[i]) <= oldKey
    {
      sorted := sorted && key(s[j]) >= oldKey;
      oldKey := key(s[j]);
      index[id(s[j])] := index[id(s[j])] + 1;
      assert s[..j + 1] == s[..j] + [s[j]];
      forall g: nat | from <= g < upTo
        ensures index[g] == Count(s[..j + 1], id, g)
      {
        FilterOfLonger(s[..j], id, s[j], g);
      }
      j := j + 1;
    }
    assert s[..j] == s;
  }

  /** The groups that have items. */
  ghost function NonEmpty<T>(s: seq<T>, id: T -> nat, from: nat, upTo: nat): set<nat> {
    if upTo <= from then {} else NonEmpty(s, id, from, upTo - 1) + if Count(s, id, upTo - 1) != 0 then {upTo - 1}
      else {}
  }

  lemma {:induction false} NonEmptyMember<T>(s: seq<T>, id: T -> nat, from: nat, upTo: nat, g: nat)
    ensures g in NonEmpty(s, id, from, upTo) <==> from <= g < upTo && Count(s, id, g) != 0
    decreases upTo
  {
    if upTo > from {
      NonEmptyMember(s, id, from, upTo - 1, g);
    }
  }

  lemma {:induction false} NonEmptyJoin<T>(s: seq<T>, id: T -> nat, from: nat, mid: nat, upTo: nat)
    requires from <= mid <= upTo
    ensures NonEmpty(s, id, from, upTo) == NonEmpty(s, id, from, mid) + NonEmpty(s, id, mid, upTo)
    decreases upTo
  {
    if upTo > mid {
      NonEmptyJoin(s, id, from, mid, upTo - 1);
    }
  }

  /** The second loop: counts become start positions, and in the last pass non-empty groups are queued. */
  method PrefixSums<T>(ghost s: seq<T>, ghost id: T -> nat, index: array<nat>, from: nat, upTo: nat, base: nat,
                       last: bool, queue: set<nat>)
    returns (end: nat, queue': set<nat>)
    requires from <= upTo <= index.Length
    requires forall g: nat {:trigger index[g]} :: from <= g < upTo ==> index[g] == Count(s, id, g)
    modifies index
    ensures end == base + Before(s, id, from, upTo)
    ensures forall g: nat {:trigger index[g]} :: from <= g < upTo ==> index[g] == base + Before(s, id, from, g)
    ensures forall g: nat {:trigger index[g]} :: g < index.Length && !(from <= g < upTo) ==> index[g] == old(index[g])
    ensures Queued(s, id, from, upTo, last, queue, queue')
  {
    end, queue' := base, queue;
    var j := from;
    while j < upTo
      invariant from <= j <= upTo
      invariant Summing(s, id, index[..], from, upTo, base, j, end)
      invariant forall g: nat {:trigger index[g]} :: g < index.Length && !(from <= g < upTo) ==>
        index[g] == old(index[g])
      invariant Queued(s, id, from, j, last, queue, queue')
    {
      queue' := QueueIfItems(s, id, from, j, last, index[j], queue, queue');
      end := StartInsteadOfCount(s, id, index, from, upTo, base, j, end);
      j := j + 1;
    }
  }

  /** Starts before j, counts from j on. */
  ghost predicate Summing<T>(s: seq<T>, id: T -> nat, index: seq<nat>, from: nat, upTo: nat, base: nat, j: nat,
                             end: nat) {
    && upTo <= |index| && end == base + Before(s, id, from, j)
    && (forall g: nat {:trigger index[g]} :: from <= g < j ==> g < |index| && index[g] == base + Before(s, id, from, g))
    && forall g: nat {:trigger index[g]} :: j <= g < upTo ==> index[g] == Count(s, id, g)
  }

  method StartInsteadOfCount<T>(ghost s: seq<T>, ghost id: T -> nat, index: array<nat>, ghost from: nat,
                                ghost upTo: nat, ghost base: nat,
                                j: nat, end: nat) returns (end': nat)
    requires from <= j < upTo <= index.Length && Summing(s, id, index[..], from, upTo, base, j, end)
    modifies index
    ensures Summing(s, id, index[..], from, upTo, base, j + 1, end')
    ensures forall g: nat {:trigger index[g]} :: g < index.Length && !(from <= g < upTo) ==> index[g] == old(index[g])
  {
    end' := end + index[j];
    index[j] := end;
  }

  /** In the last pass the groups with items have been added to the queue. */
  ghost predicate Queued<T>(s: seq<T>, id: T -> nat, from: nat, upTo: nat, last: bool, queue: set<nat>,
                            queue': set<nat>) {
    queue' == queue + if last then NonEmpty(s, id, from, upTo) else {}
  }

  /** `if (index[j] != 0) workq->q(j)`. */
  method QueueIfItems<T>(ghost s: seq<T>, ghost id: T -> nat, ghost from: nat, j: nat, last: bool, items: nat,
                         ghost before: set<nat>,
                         queue: set<nat>) returns (queue': set<nat>)
    requires from <= j && items == Count(s, id, j) && Queued(s, id, from, j, last, before, queue)
    ensures Queued(s, id, from, j + 1, last, before, queue')
  {
    queue' := if last && items != 0 then queue + {j} else queue;
  }

  /** Where the next item of each group goes, and that the items placed so far are there. */
  ghost predicate Placing<T>(s: seq<T>, id: T -> nat, from: nat, base: nat, placed: seq<T>, buf: seq<T>,
                             index: seq<nat>, g: nat) {
    var start := base + Before(s, id, from, g);
    && g < |index| && index[g] == start + Count(placed, id, g)
    && Holds(buf, start, Filter(placed, id, g))
  }

  ghost predicate PlacingAll<T>(s: seq<T>, id: T -> nat, from: nat, upTo: nat, base: nat, placed: seq<T>, buf: seq<T>,
                                index: seq<nat>) {
    forall g: nat :: from <= g < upTo ==> Placing(s, id, from, base, placed, buf, index, g)
  }

  /** The place for an item of group h lies behind all of an earlier group and before all of a later one. */
  lemma PlacesApart<T>(s: seq<T>, id: T -> nat, from: nat, placed: seq<T>, g: nat, h: nat)
    requires from <= g && from <= h && Count(placed, id, g) <= Count(s, id, g) && Count(placed, id, h) < Count(s, id, h)
    ensures g < h ==> Before(s, id, from, g) + Count(placed, id, g) <= Before(s, id, from, h) + Count(placed, id, h)
    ensures h < g ==> Before(s, id, from, h) + Count(placed, id, h) < Before(s, id, from, g)
  {
    if g < h {
      BeforeMonotone(s, id, from, g + 1, h);
    } else if h < g {
      BeforeMonotone(s, id, from, h + 1, g);
    }
  }

  /** Placing an item behind its group's earlier items disturbs no other group. */
  lemma PlaceOne<T>(s: seq<T>, id: T -> nat, from: nat, base: nat, placed: seq<T>, x: T, at: nat, buf: seq<T>,
                    index: seq<nat>,
                    buf': seq<T>, index': seq<nat>, g: nat)
    requires from <= g && from <= id(x) && Count(placed, id, g) <= Count(s, id, g) &&
      Count(placed, id, id(x)) < Count(s, id, id(x))
    requires Placing(s, id, from, base, placed, buf, index, g) && Placing(s, id, from, base, placed, buf, index, id(x))
    requires at == index[id(x)] < |buf| && buf' == buf[at := x] && index' == index[id(x) := at + 1]
    ensures Placing(s, id, from, base, placed + [x], buf', index', g)
  {
    FilterOfLonger(placed, id, x, g);
    PlacesApart(s, id, from, placed, g, id(x));
  }

  /** The copy loop of a group that is not in order. */
  method PlaceItems<T>(s: seq<T>, id: T -> nat, index: array<nat>, from: nat, upTo: nat, base: nat, dst: array<T>)
    requires IdsWithin(s, id, from, upTo) && upTo <= index.Length && base + |s| <= dst.Length
    requires index as object != dst
    requires forall g: nat {:trigger index[g]} :: from <= g < upTo ==> index[g] == base + Before(s, id, from, g)
    modifies index, dst
    ensures PlacingAll(s, id, from, upTo, base, s, dst[..], index[..])
    ensures forall g: nat {:trigger index[g]} :: g < index.Length && !(from <= g < upTo) ==> index[g] == old(index[g])
    ensures forall i: nat :: i < dst.Length && !(base <= i < base + |s|) ==> dst[i] == old(dst[i])
  {
    AllCounted(s, id, from, upTo);
    var k := 0;
    forall g: nat | from <= g < upTo
      ensures Placing(s, id, from, base, [], dst[..], index[..], g)
    {
      BeforeMonotone(s, id, from, g, upTo);
    }
    assert s[..0] == [];
    while k < |s|
      invariant 0 <= k <= |s|
      invariant PlacingAll(s, id, from, upTo, base, s[..k], dst[..], index[..])
      invariant forall g: nat {:trigger index[g]} :: g < index.Length && !(from <= g < upTo) ==>
        index[g] == old(index[g])
      invariant forall i: nat :: i < dst.Length && !(base <= i < base + |s|) ==> dst[i] == old(dst[i])
    {
      PlaceItem(s, id, index, from, upTo, base, dst, k);
      assert s[..k + 1] == s[..k] + [s[k]];
      k := k + 1;
    }
    assert s[..k] == s;
  }

  method PlaceItem<T>(s: seq<T>, id: T -> nat, index: array<nat>, from: nat, upTo: nat, base: nat, dst: array<T>,
                      k: nat)
    requires k < |s| && from <= id(s[k]) < upTo <= index.Length && base + |s| <= dst.Length &&
      Before(s, id, from, upTo) == |s|
    requires index as object != dst
    requires PlacingAll(s, id, from, upTo, base, s[..k], dst[..], index[..])
    modifies index, dst
    ensures PlacingAll(s, id, from, upTo, base, s[..k] + [s[k]], dst[..], index[..])
    ensures forall g: nat {:trigger index[g]} :: g < index.Length && !(from <= g < upTo) ==> index[g] == old(index[g])
    ensures forall i: nat :: i < dst.Length && !(base <= i < base + |s|) ==> dst[i] == old(dst[i])
  {
    ghost var buf, before := dst[..], index[..];
    var outputId := id(s[k]);
    CountOfPrefix(s, id, k, outputId);
    BeforeMonotone(s, id, from, outputId + 1, upTo);
    assert Placing(s, id, from, base, s[..k], buf, before, outputId);
    var at := index[outputId];
    dst[at] := s[k];
    index[outputId] := at + 1;
    forall g: nat | from <= g < upTo
      ensures Placing(s, id, from, base, s[..k] + [s[k]], dst[..], index[..], g)
    {
      CountOfPrefix(s, id, k, g);
      PlaceOne(s, id, from, base, s[..k], s[k], at, buf, before, dst[..], index[..], g);
    }
  }

  /** The positions, now behind each group, are moved back to its start. */
  method Readjust<T>(ghost s: seq<T>, ghost id: T -> nat, index: array<nat>, from: nat, upTo: nat, base: nat)
    requires from < upTo <= index.Length
    requires forall g: nat {:trigger index[g]} :: from <= g < upTo ==>
      index[g] == base + Before(s, id, from, g) + Count(s, id, g)
    modifies index
    ensures forall g: nat {:trigger index[g]} :: from <= g < upTo ==> index[g] == base + Before(s, id, from, g)
    ensures forall g: nat {:trigger index[g]} :: g < index.Length && !(from <= g < upTo) ==> index[g] == old(index[g])
  {
    var j := upTo - 1;
    while j > from
      invariant from <= j < upTo
      invariant forall g: nat {:trigger index[g]} :: from <= g <= j ==>
        index[g] == base + Before(s, id, from, g) + Count(s, id, g)
      invariant forall g: nat {:trigger index[g]} :: j < g < upTo ==> index[g] == base + Before(s, id, from, g)
      invariant forall g: nat {:trigger index[g]} :: g < index.Length && !(from <= g < upTo) ==>
        index[g] == old(index[g])
    {
      index[j] := index[j - 1];
      j := j - 1;
    }
    index[from] := base;
  }

  /** Items in id order are grouped already. */
  lemma {:induction false} OrderedIsGrouped<T>(s: seq<T>, id: T -> nat, from: nat, upTo: nat, g: nat)
    requires IdsWithin(s, id, from, upTo) && Nondecreasing(s, id) && from <= g < upTo
    ensures Holds(s, Before(s, id, from, g), Filter(s, id, g))
    decreases |s|
  {
    if s == [] || id(s[|s| - 1]) < g {
      NoGroup(s, id, from, upTo, g);
    } else {
      var rest, x := s[..|s| - 1], s[|s| - 1];
      OrderedIsGrouped(rest, id, from, upTo, g);
      if id(x) == g {
        NoneBehind(rest, id, from, upTo, g);
      }
      LastItem(rest, x, id, from, g, Before(rest, id, from, g), Filter(rest, id, g));
      assert s == rest + [x];
    }
  }

  lemma NoGroup<T>(s: seq<T>, id: T -> nat, from: nat, upTo: nat, g: nat)
    requires IdsWithin(s, id, from, upTo) && from <= g < upTo && forall k: nat :: k < |s| ==> id(s[k]) < g
    ensures Holds(s, Before(s, id, from, g), Filter(s, id, g))
  {
    AllCounted(s, id, from, upTo);
    BeforeMonotone(s, id, from, g, upTo);
    NoneAt(s, id, g);
  }

  lemma LastItem<T>(rest: seq<T>, x: T, id: T -> nat, from: nat, g: nat, b: nat, f: seq<T>)
    requires id(x) >= g && b == Before(rest, id, from, g) && f == Filter(rest, id, g) && Holds(rest, b, f)
    requires id(x) == g ==> b + |f| == |rest|
    ensures Holds(rest + [x], Before(rest + [x], id, from, g), Filter(rest + [x], id, g))
  {
    BeforeOfLonger(rest, id, x, from, g);
    FilterOfLonger(rest, id, x, g);
  }

  /** No item has an id above g. */
  lemma NoneBehind<T>(s: seq<T>, id: T -> nat, from: nat, upTo: nat, g: nat)
    requires IdsWithin(s, id, from, upTo) && from <= g < upTo && forall k: nat :: k < |s| ==> id(s[k]) <= g
    ensures Before(s, id, from, g) + Count(s, id, g) == |s|
  {
    AllCounted(s, id, from, g + 1);
  }

  lemma {:induction false} NoneAt<T>(s: seq<T>, id: T -> nat, g: nat)
    requires forall k: nat :: k < |s| ==> id(s[k]) < g
    ensures Filter(s, id, g) == []
  {
    if s != [] {
      NoneAt(s[..|s| - 1], id, g);
    }
  }

  /** Items in key order are in id order. */
  ghost predicate KeyOrderIsIdOrder<T>(s: seq<T>, key: T -> nat, id: T -> nat) {
    forall i: nat, j: nat :: i < |s| && j < |s| && key(s[i]) <= key(s[j]) ==> id(s[i]) <= id(s[j])
  }

  /** A group that is in order is copied as it is. */
  method CopyGroup<T>(s: seq<T>, ghost id: T -> nat, ghost index: seq<nat>, ghost from: nat, ghost upTo: nat,
                      base: nat, dst: array<T>)
    requires IdsWithin(s, id, from, upTo) && upTo <= |index| && base + |s| <= dst.Length && Nondecreasing(s, id)
    requires forall g: nat {:trigger index[g]} :: from <= g < upTo ==> index[g] == base + Before(s, id, from, g)
    modifies dst
    ensures GroupsAt(s, id, from, upTo, base, dst[..], index)
    ensures forall i: nat :: i < dst.Length && !(base <= i < base + |s|) ==> dst[i] == old(dst[i])
  {
    forall i | 0 <= i < |s| {
      dst[base + i] := s[i];
    }
    assert Holds(dst[..], base, s);
    forall g: nat | from <= g < upTo
      ensures GroupAt(s, id, from, base, dst[..], index, g)
    {
      CopiedGroup(s, id, index, from, upTo, base, dst[..], g);
    }
  }

  lemma CopiedGroup<T>(s: seq<T>, id: T -> nat, index: seq<nat>, from: nat, upTo: nat, base: nat, buf: seq<T>, g: nat)
    requires IdsWithin(s, id, from, upTo) && from <= g < upTo <= |index| && Nondecreasing(s, id)
    requires Holds(buf, base, s) && index[g] == base + Before(s, id, from, g)
    ensures GroupAt(s, id, from, base, buf, index, g)
  {
    OrderedIsGrouped(s, id, from, upTo, g);
    HoldsWithin(buf, base, s, Before(s, id, from, g), Filter(s, id, g));
  }

  lemma HoldsWithin<T>(buf: seq<T>, base: nat, s: seq<T>, b: nat, f: seq<T>)
    requires Holds(buf, base, s) && Holds(s, b, f)
    ensures Holds(buf, base + b, f)
  {
    forall r: nat | r < |f|
      ensures buf[base + b + r] == f[r]
    {
      assert buf[base + (b + r)] == s[b + r];
    }
  }

  /** A group that is not in order is dealt out item by item. */
  method DealGroup<T>(s: seq<T>, id: T -> nat, index: array<nat>, from: nat, upTo: nat, base: nat, dst: array<T>)
    requires IdsWithin(s, id, from, upTo) && from < upTo <= index.Length && base + |s| <= dst.Length &&
      index as object != dst
    requires forall g: nat {:trigger index[g]} :: from <= g < upTo ==> index[g] == base + Before(s, id, from, g)
    modifies index, dst
    ensures GroupsAt(s, id, from, upTo, base, dst[..], index[..])
    ensures forall g: nat {:trigger index[g]} :: g < index.Length && !(from <= g < upTo) ==> index[g] == old(index[g])
    ensures forall i: nat :: i < dst.Length && !(base <= i < base + |s|) ==> dst[i] == old(dst[i])
  {
    PlaceItems(s, id, index, from, upTo, base, dst);
    ghost var placed := index[..];
    forall g: nat | from <= g < upTo
      ensures index[g] == base + Before(s, id, from, g) + Count(s, id, g)
    {
      assert Placing(s, id, from, base, s, dst[..], placed, g);
    }
    Readjust(s, id, index, from, upTo, base);
    forall g: nat | from <= g < upTo
      ensures GroupAt(s, id, from, base, dst[..], index[..], g)
    {
      assert Placing(s, id, from, base, s, dst[..], placed, g);
    }
  }

  /** One input group of a pass. */
  method SplitGroup<T>(s: seq<T>, key: T -> nat, id: T -> nat, index: array<nat>, from: nat, upTo: nat, base: nat,
                       last: bool, queue: set<nat>,
                       dst: array<T>) returns (end: nat, queue': set<nat>)
    requires IdsWithin(s, id, from, upTo) && KeyOrderIsIdOrder(s, key, id)
    requires from < upTo <= index.Length && base + |s| <= dst.Length && index as object != dst
    requires forall g: nat {:trigger index[g]} :: from <= g < upTo ==> index[g] == 0
    modifies index, dst
    ensures end == base + |s| && GroupsAt(s, id, from, upTo, base, dst[..], index[..])
    ensures forall g: nat {:trigger index[g]} :: g < index.Length && !(from <= g < upTo) ==> index[g] == old(index[g])
    ensures forall i: nat :: i < dst.Length && !(base <= i < base + |s|) ==> dst[i] == old(dst[i])
    ensures Queued(s, id, from, upTo, last, queue, queue')
  {
    if |s| == 0 {
      EmptyGroup(s, id, index, from, upTo, base, dst[..]);
      EmptyNotQueued(s, id, from, upTo);
      return base, queue;
    }
    var sorted := CountItems(s, key, id, index, from, upTo);
    end, queue' := PrefixSums(s, id, index, from, upTo, base, last, queue);
    AllCounted(s, id, from, upTo);
    if sorted {
      CopyGroup(s, id, index[..], from, upTo, base, dst);
    } else {
      DealGroup(s, id, index, from, upTo, base, dst);
    }
  }

  method EmptyGroup<T>(ghost s: seq<T>, ghost id: T -> nat, index: array<nat>, from: nat, upTo: nat, base: nat,
                       ghost buf: seq<T>)
    requires s == [] && from <= upTo <= index.Length && base <= |buf|
    modifies index
    ensures GroupsAt(s, id, from, upTo, base, buf, index[..])
    ensures forall g: nat {:trigger index[g]} :: g < index.Length && !(from <= g < upTo) ==> index[g] == old(index[g])
  {
    var j := from;
    while j < upTo
      invariant from <= j <= upTo
      invariant forall g: nat {:trigger index[g]} :: from <= g < j ==> index[g] == base
      invariant forall g: nat {:trigger index[g]} :: g < index.Length && !(from <= g < upTo) ==>
        index[g] == old(index[g])
    {
      index[j] := base;
      j := j + 1;
    }
    forall g: nat | from <= g < upTo
      ensures GroupAt(s, id, from, base, buf, index[..], g)
    {
      NothingBefore(s, id, from, g);
    }
  }

  lemma {:induction false} EmptyNotQueued<T>(s: seq<T>, id: T -> nat, from: nat, upTo: nat)
    requires s == []
    ensures NonEmpty(s, id, from, upTo) == {}
    decreases upTo
  {
    if upTo > from {
      EmptyNotQueued(s, id, from, upTo - 1);
    }
  }

  // ---------- from the groups of one pass to those of the next ----------

  /** The ids of the next pass subdivide those of this one. */
  ghost predicate Subdivides<T>(items: seq<T>, idIn: T -> nat, idOut: T -> nat, fanout: nat) {
    forall k: nat :: k < |items| ==>
      At(idIn(items[k]), fanout, 0) <= idOut(items[k]) < At(idIn(items[k]), fanout, fanout)
  }

  /** An output group of an input group is an output group of the whole. */
  lemma {:induction false} FilterOfFilter<T>(items: seq<T>, idIn: T -> nat, idOut: T -> nat, fanout: nat, i: nat,
                                             g: nat)
    requires Subdivides(items, idIn, idOut, fanout) && At(i, fanout, 0) <= g < At(i, fanout, fanout)
    ensures Filter(Filter(items, idIn, i), idOut, g) == Filter(items, idOut, g)
  {
    if items != [] {
      var rest, x := items[..|items| - 1], items[|items| - 1];
      FilterOfFilter(rest, idIn, idOut, fanout, i, g);
      if idOut(x) == g {
        AtInjective(idIn(x), g - At(idIn(x), fanout, 0), i, g - At(i, fanout, 0), fanout);
      }
      if idIn(x) == i {
        FilterOfLonger(Filter(rest, idIn, i), idOut, x, g);
        assert Filter(items, idIn, i) == Filter(rest, idIn, i) + [x];
      } else {
        assert Filter(items, idIn, i) == Filter(rest, idIn, i);
      }
    }
  }

  lemma {:induction false} FilterIds<T>(items: seq<T>, idIn: T -> nat, idOut: T -> nat, fanout: nat, i: nat)
    requires Subdivides(items, idIn, idOut, fanout)
    ensures IdsWithin(Filter(items, idIn, i), idOut, At(i, fanout, 0), At(i, fanout, fanout))
  {
    if items != [] {
      FilterIds(items[..|items| - 1], idIn, idOut, fanout, i);
    }
  }

  lemma {:induction false} FilterIsPart<T>(items: seq<T>, id: T -> nat, i: nat)
    ensures forall x :: x in Filter(items, id, i) ==> x in items && id(x) == i
  {
    if items != [] {
      FilterIsPart(items[..|items| - 1], id, i);
    }
  }

  lemma {:induction false} BeforeInGroup<T>(items: seq<T>, idIn: T -> nat, idOut: T -> nat, fanout: nat, i: nat, g: nat)
    requires Subdivides(items, idIn, idOut, fanout) && At(i, fanout, 0) <= g <= At(i, fanout, fanout)
    ensures Before(items, idOut, At(i, fanout, 0), g) == Before(Filter(items, idIn, i), idOut, At(i, fanout, 0), g)
    decreases g
  {
    if g > At(i, fanout, 0) {
      BeforeInGroup(items, idIn, idOut, fanout, i, g - 1);
      FilterOfFilter(items, idIn, idOut, fanout, i, g - 1);
    }
  }

  /** Output groups start where their input group started. */
  lemma {:induction false} GroupStarts<T>(items: seq<T>, idIn: T -> nat, idOut: T -> nat, fanout: nat, i: nat)
    requires Subdivides(items, idIn, idOut, fanout)
    ensures Before(items, idOut, 0, At(i, fanout, 0)) == Before(items, idIn, 0, i)
  {
    if i > 0 {
      GroupStarts(items, idIn, idOut, fanout, i - 1);
      assert At(i - 1, fanout, fanout) == At(i, fanout, 0);
      BeforeSplit(items, idOut, 0, At(i - 1, fanout, 0), At(i, fanout, 0));
      BeforeInGroup(items, idIn, idOut, fanout, i - 1, At(i, fanout, 0));
      FilterIds(items, idIn, idOut, fanout, i - 1);
      AllCounted(Filter(items, idIn, i - 1), idOut, At(i - 1, fanout, 0), At(i, fanout, 0));
    }
  }

  /** The groups found within input group i are groups of the whole. */
  lemma LiftGroup<T>(items: seq<T>, idIn: T -> nat, idOut: T -> nat, fanout: nat, i: nat, base: nat, buf: seq<T>,
                     index: seq<nat>, g: nat)
    requires Subdivides(items, idIn, idOut, fanout) && At(i, fanout, 0) <= g < At(i, fanout, fanout)
    requires GroupAt(Filter(items, idIn, i), idOut, At(i, fanout, 0), base + Before(items, idIn, 0, i), buf, index, g)
    ensures GroupAt(items, idOut, 0, base, buf, index, g)
  {
    FilterOfFilter(items, idIn, idOut, fanout, i, g);
    BeforeSplit(items, idOut, 0, At(i, fanout, 0), g);
    BeforeInGroup(items, idIn, idOut, fanout, i, g);
    GroupStarts(items, idIn, idOut, fanout, i);
  }

  lemma {:induction false} NonEmptyOfFilter<T>(items: seq<T>, idIn: T -> nat, idOut: T -> nat, fanout: nat, i: nat,
                                               upTo: nat)
    requires Subdivides(items, idIn, idOut, fanout) && At(i, fanout, 0) <= upTo <= At(i, fanout, fanout)
    ensures NonEmpty(Filter(items, idIn, i), idOut, At(i, fanout, 0), upTo) ==
      NonEmpty(items, idOut, At(i, fanout, 0), upTo)
    decreases upTo
  {
    if upTo > At(i, fanout, 0) {
      NonEmptyOfFilter(items, idIn, idOut, fanout, i, upTo - 1);
      FilterOfFilter(items, idIn, idOut, fanout, i, upTo - 1);
    }
  }

  /** Groups stay where they are when the buffer changes only behind them. */
  lemma KeepGroups<T>(items: seq<T>, id: T -> nat, upTo: nat, base: nat, buf: seq<T>, index: seq<nat>, buf': seq<T>,
                      index': seq<nat>, limit: nat)
    requires GroupsAt(items, id, 0, upTo, base, buf, index) &&
      base + Before(items, id, 0, upTo) <= limit <= |buf| == |buf'|
    requires |index| == |index'| && forall g: nat :: g < upTo && g < |index| ==> index'[g] == index[g]
    requires forall k: nat :: k < limit ==> buf'[k] == buf[k]
    ensures GroupsAt(items, id, 0, upTo, base, buf', index')
  {
    forall g: nat | 0 <= g < upTo
      ensures GroupAt(items, id, 0, base, buf', index', g)
    {
      assert GroupAt(items, id, 0, base, buf, index, g);
      BeforeMonotone(items, id, 0, g + 1, upTo);
    }
  }

  // ---------- one pass ----------

  /** Midway through a pass: input groups from i on are still in place, output groups of the others are done. */
  ghost predicate Midway<T>(items: seq<T>, idIn: T -> nat, idOut: T -> nat, numIn: nat, fanout: nat, base: nat, i: nat,
                            last: bool,
                            src: seq<T>, srcIndex: seq<nat>, dst: seq<T>, dstIndex: seq<nat>, end: nat,
                              queue: set<nat>, queue': set<nat>) {
    && end == base + Before(items, idIn, 0, i)
    && GroupsLeft(items, idIn, i, numIn, base, src, srcIndex)
    && (forall g: nat :: g < |srcIndex| && !(i <= g < numIn) ==> srcIndex[g] == 0)
    && GroupsAt(items, idOut, 0, At(i, fanout, 0), base, dst, dstIndex)
    && (forall g: nat :: At(i, fanout, 0) <= g < |dstIndex| ==> dstIndex[g] == 0)
    && Queued(items, idOut, 0, At(i, fanout, 0), last, queue, queue')
  }

  /** What a pass is called with: the items, their ids before and after, and room for them in both buffers. */
  ghost predicate PassReady<T>(items: seq<T>, key: T -> nat, idIn: T -> nat, idOut: T -> nat, numIn: nat, fanout: nat,
                               base: nat,
                               src: array<T>, srcIndex: array<nat>, dst: array<T>, dstIndex: array<nat>) {
    && IdsWithin(items, idIn, 0, numIn) && Subdivides(items, idIn, idOut, fanout) &&
      KeyOrderIsIdOrder(items, key, idOut)
    && fanout > 0 && numIn <= srcIndex.Length && At(numIn, fanout, 0) <= dstIndex.Length
    && base + |items| <= src.Length && base + |items| <= dst.Length
    && src != dst && srcIndex != dstIndex
    && srcIndex as object != src && srcIndex as object != dst && dstIndex as object != src && dstIndex as object != dst
  }

  /** The size of input group i, from its start and the next one's. */
  lemma InputSize<T>(items: seq<T>, idIn: T -> nat, numIn: nat, base: nat, src: seq<T>, srcIndex: seq<nat>, i: nat,
                     size: int)
    requires IdsWithin(items, idIn, 0, numIn) && i < numIn <= |srcIndex| &&
      GroupsLeft(items, idIn, i, numIn, base, src, srcIndex)
    requires size == (if i == numIn - 1 then base + |items| else srcIndex[i + 1]) - srcIndex[i]
    ensures size == Count(items, idIn, i) && srcIndex[i] + size <= |src| &&
      src[srcIndex[i]..srcIndex[i] + size] == Filter(items, idIn, i)
    ensures srcIndex[i] == base + Before(items, idIn, 0, i)
  {
    assert GroupAt(items, idIn, 0, base, src, srcIndex, i);
    HoldsIsSlice(src, srcIndex[i], Filter(items, idIn, i));
    if i == numIn - 1 {
      AllCounted(items, idIn, 0, numIn);
    } else {
      assert GroupAt(items, idIn, 0, base, src, srcIndex, i + 1);
    }
  }

  lemma OrderInGroup<T>(items: seq<T>, key: T -> nat, idIn: T -> nat, idOut: T -> nat, i: nat)
    requires KeyOrderIsIdOrder(items, key, idOut)
    ensures KeyOrderIsIdOrder(Filter(items, idIn, i), key, idOut)
  {
    var s := Filter(items, idIn, i);
    FilterIsPart(items, idIn, i);
    forall a: nat, b: nat | a < |s| && b < |s| && key(s[a]) <= key(s[b])
      ensures idOut(s[a]) <= idOut(s[b])
    {
      assert s[a] in items && s[b] in items;
    }
  }

  /** One iteration of a pass. */
  method PassGroup<T>(ghost items: seq<T>, key: T -> nat, ghost idIn: T -> nat, idOut: T -> nat, numIn: nat,
                      fanout: nat, base: nat, n: nat,
                      i: nat, last: bool, src: array<T>, srcIndex: array<nat>, dst: array<T>, dstIndex: array<nat>,
                        end: nat,
                      ghost before: set<nat>, queue: set<nat>) returns (end': nat, queue': set<nat>)
    requires PassReady(items, key, idIn, idOut, numIn, fanout, base, src, srcIndex, dst, dstIndex) && n == |items| &&
      i < numIn
    requires Midway(items, idIn, idOut, numIn, fanout, base, i, last, src[..], srcIndex[..], dst[..], dstIndex[..],
      end, before, queue)
    modifies srcIndex, dst, dstIndex
    ensures Midway(items, idIn, idOut, numIn, fanout, base, i + 1, last, src[..], srcIndex[..], dst[..], dstIndex[..],
      end', before, queue')
    ensures forall k: nat :: k < dst.Length && !(base <= k < base + n) ==> dst[k] == old(dst[k])
  {
    Bounds(items, idIn, numIn, fanout, i);
    var s := TakeGroup(items, idIn, numIn, base, n, i, src, srcIndex);
    FilterIds(items, idIn, idOut, fanout, i);
    OrderInGroup(items, key, idIn, idOut, i);
    ghost var buf, index := dst[..], dstIndex[..];
    end', queue' := SplitGroup(s, key, idOut, dstIndex, fanout * i, fanout * (i + 1), end, last, queue, dst);
    GroupDone(items, idIn, idOut, fanout, base, i, last, buf, index, dst[..], dstIndex[..], s, before, queue, queue');
  }

  /** The items of input group i, whose index entry is zeroed. */
  method TakeGroup<T>(ghost items: seq<T>, ghost idIn: T -> nat, numIn: nat, base: nat, n: nat, i: nat, src: array<T>,
                      srcIndex: array<nat>)
    returns (s: seq<T>)
    requires IdsWithin(items, idIn, 0, numIn) && n == |items| && i < numIn <= srcIndex.Length &&
      srcIndex as object != src
    requires GroupsLeft(items, idIn, i, numIn, base, src[..], srcIndex[..])
    modifies srcIndex
    ensures s == Filter(items, idIn, i) && srcIndex[..] == old(srcIndex[..])[i := 0]
    ensures GroupsLeft(items, idIn, i + 1, numIn, base, src[..], srcIndex[..])
  {
    var inputSize := (if i == numIn - 1 then base + n else srcIndex[i + 1]) - srcIndex[i];
    InputSize(items, idIn, numIn, base, src[..], srcIndex[..], i, inputSize);
    s := src[srcIndex[i]..srcIndex[i] + inputSize];
    ghost var before := srcIndex[..];
    srcIndex[i] := 0;
    forall g: nat | i + 1 <= g < numIn
      ensures GroupAt(items, idIn, 0, base, src[..], srcIndex[..], g)
    {
      assert GroupAt(items, idIn, 0, base, src[..], before, g);
    }
  }

  lemma Bounds<T>(items: seq<T>, idIn: T -> nat, numIn: nat, fanout: nat, i: nat)
    requires IdsWithin(items, idIn, 0, numIn) && i < numIn
    ensures At(i, fanout, 0) == fanout * i &&
      At(i, fanout, fanout) == fanout * (i + 1) == At(i + 1, fanout, 0) <= At(numIn, fanout, 0)
    ensures Before(items, idIn, 0, i) + Count(items, idIn, i) == Before(items, idIn, 0, i + 1) <= |items|
  {
    MulMonotone(i + 1, numIn, fanout);
    assert (i + 1) * fanout == i * fanout + fanout;
    AllCounted(items, idIn, 0, numIn);
    BeforeMonotone(items, idIn, 0, i + 1, numIn);
  }

  /** The output groups of input group i join those done before. */
  lemma GroupDone<T>(items: seq<T>, idIn: T -> nat, idOut: T -> nat, fanout: nat, base: nat, i: nat, last: bool,
                     buf: seq<T>, index: seq<nat>,
                     buf': seq<T>, index': seq<nat>, s: seq<T>, before: set<nat>, queue: set<nat>, queue': set<nat>)
    requires Subdivides(items, idIn, idOut, fanout) && s == Filter(items, idIn, i)
    requires At(i, fanout, fanout) == At(i + 1, fanout, 0) && |index| == |index'| && |buf| == |buf'|
    requires base + Before(items, idIn, 0, i) <= |buf|
    requires GroupsAt(items, idOut, 0, At(i, fanout, 0), base, buf, index) &&
      Queued(items, idOut, 0, At(i, fanout, 0), last, before, queue)
    requires GroupsAt(s, idOut, At(i, fanout, 0), At(i, fanout, fanout), base + Before(items, idIn, 0, i), buf', index')
    requires Queued(s, idOut, At(i, fanout, 0), At(i, fanout, fanout), last, queue, queue')
    requires forall g: nat :: g < |index| && g < At(i, fanout, 0) ==> index'[g] == index[g]
    requires forall k: nat :: k < |buf| && k < base + Before(items, idIn, 0, i) ==> buf'[k] == buf[k]
    ensures GroupsAt(items, idOut, 0, At(i + 1, fanout, 0), base, buf', index')
    ensures Queued(items, idOut, 0, At(i + 1, fanout, 0), last, before, queue')
  {
    var start, limit := At(i, fanout, 0), base + Before(items, idIn, 0, i);
    GroupStarts(items, idIn, idOut, fanout, i);
    KeepGroups(items, idOut, start, base, buf, index, buf', index', limit);
    forall g: nat | 0 <= g < At(i + 1, fanout, 0)
      ensures GroupAt(items, idOut, 0, base, buf', index', g)
    {
      if g >= start {
        LiftGroup(items, idIn, idOut, fanout, i, base, buf', index', g);
      }
    }
    NonEmptyOfFilter(items, idIn, idOut, fanout, i, At(i, fanout, fanout));
    NonEmptyJoin(items, idOut, 0, start, At(i + 1, fanout, 0));
  }

  /** One pass: every input group is split `fanout` ways, and the index it came with is zeroed. */
  method Pass<T>(ghost items: seq<T>, key: T -> nat, ghost idIn: T -> nat, idOut: T -> nat, numIn: nat, fanout: nat,
                 ghost base: nat, n: nat, last: bool,
                 src: array<T>, srcIndex: array<nat>, dst: array<T>, dstIndex: array<nat>, queue: set<nat>)
                   returns (queue': set<nat>)
    requires PassReady(items, key, idIn, idOut, numIn, fanout, base, src, srcIndex, dst, dstIndex) && n == |items| &&
      numIn > 0
    requires GroupsAt(items, idIn, 0, numIn, base, src[..], srcIndex[..])
    requires forall g: nat :: numIn <= g < srcIndex.Length ==> srcIndex[g] == 0
    requires forall g: nat :: g < dstIndex.Length ==> dstIndex[g] == 0
    modifies srcIndex, dst, dstIndex
    ensures GroupsAt(items, idOut, 0, At(numIn, fanout, 0), base, dst[..], dstIndex[..])
    ensures forall g: nat :: g < srcIndex.Length ==> srcIndex[g] == 0
    ensures forall g: nat :: At(numIn, fanout, 0) <= g < dstIndex.Length ==> dstIndex[g] == 0
    ensures Queued(items, idOut, 0, At(numIn, fanout, 0), last, queue, queue')
    ensures forall k: nat :: k < dst.Length && !(base <= k < base + n) ==> dst[k] == old(dst[k])
  {
    assert GroupAt(items, idIn, 0, base, src[..], srcIndex[..], 0);
    var inputBase := srcIndex[0];
    var end := inputBase;
    queue' := queue;
    var i := 0;
    while i < numIn
      invariant 0 <= i <= numIn
      invariant Midway(items, idIn, idOut, numIn, fanout, base, i, last, src[..], srcIndex[..], dst[..], dstIndex[..],
        end, queue, queue')
      invariant forall k: nat :: k < dst.Length && !(base <= k < base + n) ==> dst[k] == old(dst[k])
    {
      end, queue' := PassGroup(items, key, idIn, idOut, numIn, fanout, inputBase, n, i, last, src, srcIndex, dst,
        dstIndex, end, queue, queue');
      i := i + 1;
    }
  }

  // ---------- all passes ----------

  /** `(key >> shift) & (num_out - 1)`. */
  function OutputId(key: nat, shift: nat, num: nat): nat
    requires num > 0
  {
    And(Shr(key, shift), num - 1)
  }

  function Ids<T>(key: T -> nat, shift: nat, num: nat): T -> nat
    requires num > 0
  {
    (x: T) => OutputId(key(x), shift, num)
  }

  /** A shifted key in range is below the number of groups, and the mask changes nothing. */
  lemma OutputIdIsShr(key: nat, e: nat, m: nat, shift: nat)
    requires key < Pow2(e) && m + shift == e
    ensures OutputId(key, shift, Pow2(m)) == Shr(key, shift) < Pow2(m)
  {
    ShrBelow(key, m, shift);
    MaskKeeps(Shr(key, shift), m);
  }

  lemma ShrBelow(key: nat, m: nat, shift: nat)
    requires key < Pow2(m + shift)
    ensures Shr(key, shift) < Pow2(m)
  {
    var r := ShrRest(key, shift);
    ShlTimes(Shr(key, shift), shift);
    Pow2Add(m, shift);
    if Shr(key, shift) >= Pow2(m) {
      MulMonotone(Pow2(m), Shr(key, shift), Pow2(shift));
    }
  }

  lemma MaskKeeps(y: nat, m: nat)
    requires y < Pow2(m)
    ensures And(y, Pow2(m) - 1) == y
  {
    ShlTimes(0, m);
    AndMask(y, m, 0, y);
  }

  /** Splitting finer by d bits subdivides. */
  lemma OutputIdSubdivides(key: nat, e: nat, m: nat, shift: nat, d: nat)
    requires key < Pow2(e) && m + d + shift == e
    ensures At(OutputId(key, shift + d, Pow2(m)), Pow2(d), 0) <= OutputId(key, shift,
      Pow2(m + d)) < At(OutputId(key, shift + d, Pow2(m)), Pow2(d), Pow2(d))
  {
    OutputIdIsShr(key, e, m, shift + d);
    OutputIdIsShr(key, e, m + d, shift);
    var y := Shr(key, shift);
    ShrShr(key, shift, d);
    var r := ShrRest(y, d);
    ShlTimes(Shr(y, d), d);
  }

  ghost predicate KeysBelow<T>(items: seq<T>, key: T -> nat, e: nat) {
    forall k: nat :: k < |items| ==> key(items[k]) < Pow2(e)
  }

  lemma IdsReady<T>(items: seq<T>, key: T -> nat, e: nat, m: nat, shift: nat, d: nat)
    requires KeysBelow(items, key, e) && m + d + shift == e
    ensures IdsWithin(items, Ids(key, shift + d, Pow2(m)), 0, Pow2(m))
    ensures Subdivides(items, Ids(key, shift + d, Pow2(m)), Ids(key, shift, Pow2(m + d)), Pow2(d))
    ensures KeyOrderIsIdOrder(items, key, Ids(key, shift, Pow2(m + d)))
  {
    forall k: nat | k < |items|
      ensures Ids(key, shift + d, Pow2(m))(items[k]) < Pow2(m)
    {
      OutputIdIsShr(key(items[k]), e, m, shift + d);
    }
    forall k: nat | k < |items|
      ensures var i := Ids(key, shift + d, Pow2(m))(items[k]);
        At(i, Pow2(d), 0) <= Ids(key, shift, Pow2(m + d))(items[k]) < At(i, Pow2(d), Pow2(d))
    {
      OutputIdSubdivides(key(items[k]), e, m, shift, d);
    }
    forall i: nat, j: nat | i < |items| && j < |items| && key(items[i]) <= key(items[j])
      ensures Ids(key, shift, Pow2(m + d))(items[i]) <= Ids(key, shift, Pow2(m + d))(items[j])
    {
      OutputIdIsShr(key(items[i]), e, m + d, shift);
      OutputIdIsShr(key(items[j]), e, m + d, shift);
      ShrMonotone(key(items[i]), key(items[j]), shift);
    }
  }

  /** Ids that agree on the items group them alike. */
  lemma {:induction false} SameFilter<T>(items: seq<T>, id: T -> nat, id': T -> nat, g: nat)
    requires forall k: nat :: k < |items| ==> id(items[k]) == id'(items[k])
    ensures Filter(items, id, g) == Filter(items, id', g)
  {
    if items != [] {
      SameFilter(items[..|items| - 1], id, id', g);
    }
  }

  lemma {:induction false} SameBefore<T>(items: seq<T>, id: T -> nat, id': T -> nat, g: nat)
    requires forall k: nat :: k < |items| ==> id(items[k]) == id'(items[k])
    ensures Before(items, id, 0, g) == Before(items, id', 0, g)
  {
    if g > 0 {
      SameBefore(items, id, id', g - 1);
      SameFilter(items, id, id', g - 1);
    }
  }

  lemma {:induction false} SameNonEmpty<T>(items: seq<T>, id: T -> nat, id': T -> nat, g: nat)
    requires forall k: nat :: k < |items| ==> id(items[k]) == id'(items[k])
    ensures NonEmpty(items, id, 0, g) == NonEmpty(items, id', 0, g)
  {
    if g > 0 {
      SameNonEmpty(items, id, id', g - 1);
      SameFilter(items, id, id', g - 1);
    }
  }

  lemma SameGroups<T>(items: seq<T>, id: T -> nat, id': T -> nat, upTo: nat, base: nat, buf: seq<T>, index: seq<nat>)
    requires forall k: nat :: k < |items| ==> id(items[k]) == id'(items[k])
    requires GroupsAt(items, id, 0, upTo, base, buf, index)
    ensures GroupsAt(items, id', 0, upTo, base, buf, index)
  {
    forall g: nat | 0 <= g < upTo
      ensures GroupAt(items, id', 0, base, buf, index, g)
    {
      assert GroupAt(items, id, 0, base, buf, index, g);
      SameFilter(items, id, id', g);
      SameBefore(items, id, id', g);
    }
  }

  /** A single group is the whole. */
  lemma {:induction false} OneGroup<T>(items: seq<T>, id: T -> nat)
    requires IdsWithin(items, id, 0, 1)
    ensures Filter(items, id, 0) == items
  {
    if items != [] {
      var rest, x := items[..|items| - 1], items[|items| - 1];
      assert items == rest + [x] && id(x) == 0;
      OneGroup(rest, id);
      FilterOfLonger(rest, id, x, 0);
    }
  }

  /** The number of times `n` can be halved until it is 1. */
  method CountShift(n: nat, ghost e: nat) returns (shift: nat)
    requires n == Pow2(e)
    ensures shift == e
  {
    shift := 0;
    var num := n;
    while num != 1
      invariant shift <= e && num == Pow2(e - shift)
      decreases e - shift
    {
      shift := shift + 1;
      num := num / 2;
    }
  }

  /** The result in either pair of buffer and index: the groups by partition, and the queue of the non-empty ones. */
  ghost predicate IsSplit<T>(items: seq<T>, key: T -> nat, parts: nat, base: nat, buf: seq<T>, index: seq<nat>,
                             queue: set<nat>, queue': set<nat>) {
    GroupsAt(items, key, 0, parts, base, buf, index) && queue' == queue + NonEmpty(items, key, 0, parts)
  }

  ghost predicate AllZero(index: seq<nat>) {
    forall g: nat :: g < |index| ==> index[g] == 0
  }

  /** Between two passes: groups of 2^m ids, the rest of the index zero, and the other index zero. */
  ghost predicate BetweenPasses<T>(items: seq<T>, key: T -> nat, m: nat, shift: nat, base: nat, buf: seq<T>,
                                   index: seq<nat>, other: seq<nat>) {
    && GroupsAt(items, Ids(key, shift, Pow2(m)), 0, Pow2(m), base, buf, index)
    && (forall g: nat {:trigger index[g]} :: Pow2(m) <= g < |index| ==> index[g] == 0) && AllZero(other)
  }

  /** Buffers of equal extent and indexes large enough, none of them the same array as another. */
  ghost predicate Buffers<T>(n: nat, base: nat, parts: nat, src: array<T>, srcIndex: array<nat>, dst: array<T>,
                             dstIndex: array<nat>) {
    && base + n <= src.Length && base + n <= dst.Length && parts <= srcIndex.Length && parts <= dstIndex.Length
    && src != dst && srcIndex != dstIndex
    && srcIndex as object != src && srcIndex as object != dst && dstIndex as object != src && dstIndex as object != dst
  }

  /** One pass of the loop, with the shift and fanout it uses. */
  method RunPass<T>(ghost items: seq<T>, key: T -> nat, ghost e: nat, ghost m: nat, shift: nat, d: nat, fanout: nat,
                    numIn: nat, ghost base: nat, n: nat,
                    parts: nat, src: array<T>, srcIndex: array<nat>, dst: array<T>, dstIndex: array<nat>,
                      queue: set<nat>) returns (queue': set<nat>)
    requires KeysBelow(items, key, e) && n == |items| && m + d + shift == e && d > 0
    requires parts == Pow2(e) && numIn == Pow2(m) && fanout == Pow2(d)
    requires Buffers(n, base, parts, src, srcIndex, dst, dstIndex)
    requires BetweenPasses(items, key, m, shift + d, base, src[..], srcIndex[..], dstIndex[..])
    modifies srcIndex, dst, dstIndex
    ensures BetweenPasses(items, key, m + d, shift, base, dst[..], dstIndex[..], srcIndex[..])
    ensures Queued(items, Ids(key, shift, Pow2(m + d)), 0, Pow2(m + d), shift == 0, queue, queue')
    ensures forall k: nat :: k < dst.Length && !(base <= k < base + n) ==> dst[k] == old(dst[k])
  {
    Pow2Add(m, d);
    if shift > 0 {
      Pow2Monotone(m + d, e);
    }
    Pow2Monotone(m, m + d);
    IdsReady(items, key, e, m, shift, d);
    var numOut := numIn * fanout;
    OnlyLastPass(m + d, e, shift);
    queue' := Pass(items, key, Ids(key, shift + d, Pow2(m)), Ids(key, shift, numOut), numIn, fanout, base, n, numOut ==
      parts,
                   src, srcIndex, dst, dstIndex, queue);
  }

  /** `num_out == final_split_cnt` in the last pass only. */
  lemma OnlyLastPass(m: nat, e: nat, shift: nat)
    requires m + shift == e
    ensures Pow2(m) == Pow2(e) <==> shift == 0
    ensures Pow2(m) < Pow2(e) <==> shift > 0
  {
    if shift > 0 {
      Pow2Monotone(m, e);
    }
  }

  /** Before the first pass everything is one group. */
  lemma FirstGroup<T>(items: seq<T>, key: T -> nat, e: nat, base: nat, buf: seq<T>, index: seq<nat>, other: seq<nat>)
    requires KeysBelow(items, key, e) && |index| > 0 && index[0] == base && base + |items| <= |buf| &&
      buf[base..base + |items|] == items
    requires (forall g: nat :: 0 < g < |index| ==> index[g] == 0) && AllZero(other)
    ensures BetweenPasses(items, key, 0, e, base, buf, index, other)
  {
    IdsReady(items, key, e, 0, e, 0);
    assert Pow2(0) == 1;
    OneGroup(items, Ids(key, e, 1));
  }

  /** After the last pass the ids are the keys. */
  lemma LastGroups<T>(items: seq<T>, key: T -> nat, e: nat, base: nat, buf: seq<T>, index: seq<nat>, other: seq<nat>,
                      queue: set<nat>, queue': set<nat>)
    requires KeysBelow(items, key, e) && BetweenPasses(items, key, e, 0, base, buf, index, other)
    requires Queued(items, Ids(key, 0, Pow2(e)), 0, Pow2(e), true, queue, queue')
    ensures IsSplit(items, key, Pow2(e), base, buf, index, queue, queue')
  {
    var id := Ids(key, 0, Pow2(e));
    forall k: nat | k < |items|
      ensures id(items[k]) == key(items[k])
    {
      OutputIdIsShr(key(items[k]), e, e, 0);
    }
    SameGroups(items, id, key, Pow2(e), base, buf, index);
    SameNonEmpty(items, id, key, Pow2(e));
  }

  /** Outside the processor's own stretch both buffers are untouched. */
  twostate predicate OnlyStretch<T>(buffer: array<T>, base: nat, n: nat)
    reads buffer
  {
    forall k: nat :: k < buffer.Length && !(base <= k < base + n) ==> buffer[k] == old(buffer[k])
  }

  /** The state of the loop: which buffer holds the groups, and how far they have been split. */
  ghost predicate Loop<T>(items: seq<T>, key: T -> nat, e: nat, m: nat, shift: nat, base: nat, buf: seq<T>,
                          index: seq<nat>, other: seq<nat>,
                          queue: set<nat>, queue': set<nat>) {
    && m + shift == e && BetweenPasses(items, key, m, shift, base, buf, index, other)
    && (if shift == 0 then Queued(items, Ids(key, 0, Pow2(e)), 0, Pow2(e), true, queue, queue') else queue' == queue)
  }

  /** How many passes it takes to use up `shift` bits, `d` of them at a time. */
  ghost function Passes(shift: nat, d: nat): nat
    requires d > 0
  {
    if shift == 0 then 0 else 1 + Passes(if shift < d then 0 else shift - d, d)
  }

  /** The passes still to come and the buffer in use tell where the result will be. */
  ghost predicate SidesAgree(inAux: bool, shift: nat, d: nat, endsInAux: bool)
    requires d > 0
  {
    endsInAux == (inAux == (Passes(shift, d) % 2 == 0))
  }

  lemma NextSide(inAux: bool, shift: nat, d: nat, endsInAux: bool)
    requires shift > 0 && d > 0 && SidesAgree(inAux, shift, d, endsInAux)
    ensures var d' := if shift < d then shift else d;
      d' > 0 && SidesAgree(!inAux, shift - d', d', endsInAux)
  {
    var d' := if shift < d then shift else d;
    assert Passes(shift, d) == 1 + Passes(shift - d', d');
  }

  /** Where the result of a split ends up: it depends on the configuration, not on the items. */
  ghost predicate EndsInAux(e: nat, d: nat)
    requires d > 0
  {
    Passes(e, d) % 2 == 1
  }

  /** `x_split`: split by key into `parts` groups, at most `fanout` ways a pass. */
  method XSplit<T>(key: T -> nat, indexIn: array<nat>, bufferIn: array<T>, indexAux: array<nat>, bufferAux: array<T>,
                   n: nat, fanout: nat,
                   parts: nat, queue: set<nat>, ghost base: nat, ghost e: nat, ghost d: nat)
                     returns (inAux: bool, queue': set<nat>)
    requires parts == Pow2(e) && fanout == Pow2(d) && fanout >= 2
    requires Buffers(n, base, parts, bufferIn, indexIn, bufferAux, indexAux)
    requires indexIn.Length > 0 && indexIn[0] == base &&
      (forall g: nat :: 0 < g < indexIn.Length ==> indexIn[g] == 0) && AllZero(indexAux[..])
    requires KeysBelow(bufferIn[base..base + n], key, e)
    modifies indexIn, bufferIn, indexAux, bufferAux
    ensures var items := old(bufferIn[base..base + n]);
      if inAux then IsSplit(items, key, parts, base, bufferAux[..], indexAux[..], queue, queue') && AllZero(indexIn[..])
      else IsSplit(items, key, parts, base, bufferIn[..], indexIn[..], queue, queue') && AllZero(indexAux[..])
    ensures OnlyStretch(bufferIn, base, n) && OnlyStretch(bufferAux, base, n) && d > 0 && inAux == EndsInAux(e, d)
  {
    ghost var items := bufferIn[base..base + n];
    FirstGroup(items, key, e, base, bufferIn[..], indexIn[..], indexAux[..]);
    var ways := if fanout > parts then parts else fanout;
    ghost var wayBits := Ways(fanout, parts, d, e);
    if parts == 1 {
      queue' := if n > 0 then queue + {0} else queue;
      OnePartition(items, key, e, base, bufferIn[..], indexIn[..], indexAux[..], queue, queue');
      return false, queue';
    }
    var shift := CountShift(parts, e);
    var shiftDelta := CountShift(ways, wayBits);
    var numIn := 1;
    ghost var m: nat := 0;
    inAux, queue' := false, queue;
    ghost var endsInAux := EndsInAux(e, d);
    while numIn < parts
      invariant numIn == Pow2(m) && ways == Pow2(shiftDelta) && shiftDelta > 0
      invariant if inAux then Loop(items, key, e, m, shift, base, bufferAux[..], indexAux[..], indexIn[..], queue,
        queue')
                else Loop(items, key, e, m, shift, base, bufferIn[..], indexIn[..], indexAux[..], queue, queue')
      invariant OnlyStretch(bufferIn, base, n) && OnlyStretch(bufferAux, base, n) &&
        SidesAgree(inAux, shift, shiftDelta, endsInAux)
      decreases shift
    {
      OnlyLastPass(m, e, shift);
      NextSide(inAux, shift, shiftDelta, endsInAux);
      if shift < shiftDelta {
        shiftDelta := shift;
        ways := Shl(1, shiftDelta);
        ShlTimes(1, shiftDelta);
      }
      shift := shift - shiftDelta;
      if inAux {
        queue' := RunPass(items, key, e, m, shift, shiftDelta, ways, numIn, base, n, parts, bufferAux, indexAux,
          bufferIn, indexIn, queue');
      } else {
        queue' := RunPass(items, key, e, m, shift, shiftDelta, ways, numIn, base, n, parts, bufferIn, indexIn,
          bufferAux, indexAux, queue');
      }
      Pow2Add(m, shiftDelta);
      numIn := numIn * ways;
      m := m + shiftDelta;
      inAux := !inAux;
    }
    OnlyLastPass(m, e, shift);
    if inAux {
      LastGroups(items, key, e, base, bufferAux[..], indexAux[..], indexIn[..], queue, queue');
    } else {
      LastGroups(items, key, e, base, bufferIn[..], indexIn[..], indexAux[..], queue, queue');
    }
  }

  lemma Ways(fanout: nat, parts: nat, d: nat, e: nat) returns (w: nat)
    requires parts == Pow2(e) && fanout == Pow2(d) && fanout >= 2
    ensures (if fanout > parts then parts else fanout) == Pow2(w) && d > 0 && (e == 0 ==> !EndsInAux(e, d))
    ensures parts > 1 ==> w > 0 && SidesAgree(false, e, w, EndsInAux(e, d))
  {
    w := if fanout > parts then e else d;
    if fanout > parts {
      if d < e {
        Pow2Monotone(d, e);
      }
      assert Passes(e, d) == Passes(e, if e == 0 then d else e);
    }
  }

  /** With a single partition nothing moves. */
  lemma OnePartition<T>(items: seq<T>, key: T -> nat, e: nat, base: nat, buf: seq<T>, index: seq<nat>, other: seq<nat>,
                        queue: set<nat>, queue': set<nat>)
    requires Pow2(e) == 1 && KeysBelow(items, key, e) && BetweenPasses(items, key, 0, e, base, buf, index, other)
    requires queue' == if |items| > 0 then queue + {0} else queue
    ensures IsSplit(items, key, 1, base, buf, index, queue, queue')
  {
    assert e == 0;
    OneGroup(items, key);
    var id := Ids(key, 0, 1);
    forall k: nat | k < |items|
      ensures id(items[k]) == key(items[k])
    {
      OutputIdIsShr(key(items[k]), 0, 0, 0);
    }
    SameGroups(items, id, key, 1, base, buf, index);
    assert NonEmpty(items, key, 0, 0) == {};
  }

  /** How often x occurs: `multiset(s)[x]`, counted from the end. */
  ghost function Occurrences<T>(s: seq<T>, x: T): nat {
    if s == [] then 0 else Occurrences(s[..|s| - 1], x) + if s[|s| - 1] == x then 1 else 0
  }

  /** How often x occurs in a stretch of the buffer. */
  ghost function OccurrencesIn<T>(buf: seq<T>, a: nat, b: nat, x: T): nat
    requires b <= |buf|
  {
    if b <= a then 0 else OccurrencesIn(buf, a, b - 1, x) + if buf[b - 1] == x then 1 else 0
  }

  lemma {:induction false} OccurrencesJoin<T>(buf: seq<T>, a: nat, mid: nat, b: nat, x: T)
    requires a <= mid <= b <= |buf|
    ensures OccurrencesIn(buf, a, b, x) == OccurrencesIn(buf, a, mid, x) + OccurrencesIn(buf, mid, b, x)
    decreases b
  {
    if b > mid {
      OccurrencesJoin(buf, a, mid, b - 1, x);
    }
  }

  lemma {:induction false} OccurrencesHeld<T>(buf: seq<T>, at: nat, f: seq<T>, x: T)
    requires Holds(buf, at, f)
    ensures OccurrencesIn(buf, at, at + |f|, x) == Occurrences(f, x)
    decreases |f|
  {
    if f != [] {
      OccurrencesHeld(buf, at, f[..|f| - 1], x);
    }
  }

  lemma {:induction false} OccurrencesIsMultiplicity<T>(s: seq<T>, x: T)
    ensures Occurrences(s, x) == multiset(s)[x]
  {
    if s != [] {
      OccurrencesIsMultiplicity(s[..|s| - 1], x);
      assert s == s[..|s| - 1] + [s[|s| - 1]];
    }
  }

  lemma {:induction false} OccurrencesInGroup<T>(items: seq<T>, id: T -> nat, g: nat, x: T)
    ensures Occurrences(Filter(items, id, g), x) == if id(x) == g then Occurrences(items, x) else 0
  {
    if items != [] {
      var rest, y := items[..|items| - 1], items[|items| - 1];
      OccurrencesInGroup(rest, id, g, x);
      if id(y) == g {
        assert Filter(items, id, g)[..|Filter(items, id, g)| - 1] == Filter(rest, id, g);
      } else {
        assert Filter(items, id, g) == Filter(rest, id, g);
      }
    }
  }

  lemma {:induction false} OccurrencesWithin<T>(items: seq<T>, id: T -> nat, upTo: nat, x: T)
    requires IdsWithin(items, id, 0, upTo) && id(x) >= upTo
    ensures Occurrences(items, x) == 0
  {
    if items != [] {
      OccurrencesWithin(items[..|items| - 1], id, upTo, x);
    }
  }

  /** The first groups hold the items with the first ids. */
  lemma {:induction false} GroupsTogether<T>(items: seq<T>, id: T -> nat, upTo: nat, base: nat, buf: seq<T>,
                                             index: seq<nat>, x: T)
    requires GroupsAt(items, id, 0, upTo, base, buf, index) && base <= |buf|
    ensures base + Before(items, id, 0, upTo) <= |buf|
    ensures OccurrencesIn(buf, base, base + Before(items, id, 0, upTo), x) == if id(x) < upTo then Occurrences(items, x)
      else 0
  {
    if upTo > 0 {
      GroupsTogether(items, id, upTo - 1, base, buf, index, x);
      assert GroupAt(items, id, 0, base, buf, index, upTo - 1);
      OccurrencesInGroup(items, id, upTo - 1, x);
      OccurrencesHeld(buf, index[upTo - 1], Filter(items, id, upTo - 1), x);
      OccurrencesJoin(buf, base, index[upTo - 1], index[upTo - 1] + Count(items, id, upTo - 1), x);
    }
  }

  lemma EqualBags<T>(a: seq<T>, b: seq<T>)
    requires forall x: T :: Occurrences(a, x) == Occurrences(b, x)
    ensures multiset(a) == multiset(b) && |a| == |b|
  {
    forall x: T
      ensures multiset(a)[x] == multiset(b)[x]
    {
      OccurrencesIsMultiplicity(a, x);
      OccurrencesIsMultiplicity(b, x);
    }
    assert multiset(a) <= multiset(b);
    assert multiset(b) <= multiset(a);
    assert |multiset(a)| == |a| && |multiset(b)| == |b|;
  }

  /** The split is a permutation of the items. */
  lemma SplitIsPermutation<T>(items: seq<T>, key: T -> nat, parts: nat, base: nat, buf: seq<T>, index: seq<nat>,
                              queue: set<nat>, queue': set<nat>)
    requires IsSplit(items, key, parts, base, buf, index, queue, queue') && IdsWithin(items, key, 0, parts) &&
      base + |items| <= |buf|
    ensures multiset(buf[base..base + |items|]) == multiset(items)
  {
    AllCounted(items, key, 0, parts);
    forall x: T
      ensures Occurrences(buf[base..base + |items|], x) == Occurrences(items, x)
    {
      GroupsTogether(items, key, parts, base, buf, index, x);
      OccurrencesHeld(buf, base, buf[base..base + |items|], x);
      if key(x) >= parts {
        OccurrencesWithin(items, key, parts, x);
      }
    }
    EqualBags(buf[base..base + |items|], items);
  }

  // ---------- the quicksort form ----------

  /** What `qsort` with `qsort_compare` guarantees: a permutation in nondecreasing order of the masked keys. */
  ghost predicate SortedPermutation<T>(items: seq<T>, sorted: seq<T>, id: T -> nat) {
    multiset(sorted) == multiset(items) && Nondecreasing(sorted, id)
  }

  /** Groups up to the order within a group. */
  ghost predicate GroupUpToOrder<T>(items: seq<T>, id: T -> nat, base: nat, buf: seq<T>, index: seq<nat>, g: nat) {
    && g < |index| && index[g] == base + Before(items, id, 0, g) && index[g] + Count(items, id, g) <= |buf|
    && multiset(buf[index[g]..index[g] + Count(items, id, g)]) == multiset(Filter(items, id, g))
  }

  /** The members of a group do not depend on the order of the items. */
  lemma SameGroupsOfPermutation<T>(items: seq<T>, sorted: seq<T>, id: T -> nat, g: nat)
    requires multiset(sorted) == multiset(items)
    ensures multiset(Filter(sorted, id, g)) == multiset(Filter(items, id, g)) &&
      Count(sorted, id, g) == Count(items, id, g)
  {
    forall x: T
      ensures Occurrences(Filter(sorted, id, g), x) == Occurrences(Filter(items, id, g), x)
    {
      OccurrencesInGroup(sorted, id, g, x);
      OccurrencesInGroup(items, id, g, x);
      OccurrencesIsMultiplicity(sorted, x);
      OccurrencesIsMultiplicity(items, x);
    }
    EqualBags(Filter(sorted, id, g), Filter(items, id, g));
  }

  lemma {:induction false} SameBeforeOfPermutation<T>(items: seq<T>, sorted: seq<T>, id: T -> nat, g: nat)
    requires multiset(sorted) == multiset(items)
    ensures Before(sorted, id, 0, g) == Before(items, id, 0, g) &&
      NonEmpty(sorted, id, 0, g) == NonEmpty(items, id, 0, g)
  {
    if g > 0 {
      SameBeforeOfPermutation(items, sorted, id, g - 1);
      SameGroupsOfPermutation(items, sorted, id, g - 1);
    }
  }

  /**
   `x_split_qsort` after its call of `qsort`, whose result is `sorted`: the same index as `x_split`, and the same
   groups up to the order within each.
   */
  method XSplitQsort<T>(ghost items: seq<T>, id: T -> nat, index: array<nat>, buffer: array<T>, base: nat, n: nat,
                        parts: nat, queue: set<nat>)
    returns (queue': set<nat>)
    requires parts > 0 && n == |items| && base + n <= buffer.Length && parts <= index.Length &&
      index as object != buffer
    requires index[0] == base && forall g: nat {:trigger index[g]} :: 0 < g < index.Length ==> index[g] == 0
    requires IdsWithin(items, id, 0, parts) && SortedPermutation(items, buffer[base..base + n], id)
    modifies index
    ensures forall g: nat :: g < parts ==> GroupUpToOrder(items, id, base, buffer[..], index[..], g)
    ensures queue' == queue + NonEmpty(items, id, 0, parts)
  {
    ghost var sorted := buffer[base..base + n];
    SortedIdsWithin(items, sorted, id, parts);
    SameBeforeOfPermutation(items, sorted, id, parts);
    if parts == 1 {
      queue' := if n > 0 then queue + {0} else queue;
      OneGroup(sorted, id);
      assert NonEmpty(sorted, id, 0, 0) == {} && NonEmpty(sorted, id, 0, 1) == if n > 0 then {0} else {};
    } else {
      queue' := IndexSorted(buffer[base..base + n], id, index, base, parts, queue);
    }
    ghost var buf := buffer[..];
    assert Holds(buf, base, sorted);
    forall g: nat | g < parts
      ensures GroupUpToOrder(items, id, base, buf, index[..], g)
    {
      GroupOfSorted(items, sorted, id, parts, base, buf, index[..], g);
    }
  }

  method IndexSorted<T>(sorted: seq<T>, id: T -> nat, index: array<nat>, ghost base: nat, parts: nat, queue: set<nat>)
    returns (queue': set<nat>)
    requires 0 < parts <= index.Length && IdsWithin(sorted, id, 0, parts)
    requires index[0] == base && forall g: nat {:trigger index[g]} :: 0 < g < index.Length ==> index[g] == 0
    modifies index
    ensures forall g: nat {:trigger index[g]} :: g < parts ==> index[g] == base + Before(sorted, id, 0, g)
    ensures queue' == queue + NonEmpty(sorted, id, 0, parts)
  {
    var outputBase := index[0];
    index[0] := 0;
    var inOrder := CountItems(sorted, id, id, index, 0, parts);
    var end: nat;
    end, queue' := PrefixSums(sorted, id, index, 0, parts, outputBase, true, queue);
  }

  lemma GroupOfSorted<T>(items: seq<T>, sorted: seq<T>, id: T -> nat, parts: nat, base: nat, buf: seq<T>,
                         index: seq<nat>, g: nat)
    requires SortedPermutation(items, sorted, id) && IdsWithin(sorted, id, 0, parts) && g < parts <= |index|
    requires Holds(buf, base, sorted) && index[g] == base + Before(sorted, id, 0, g)
    ensures GroupUpToOrder(items, id, base, buf, index, g)
  {
    CopiedGroup(sorted, id, index, 0, parts, base, buf, g);
    HoldsIsSlice(buf, index[g], Filter(sorted, id, g));
    SameGroupsOfPermutation(items, sorted, id, g);
    SameBeforeOfPermutation(items, sorted, id, g);
  }

  lemma SortedIdsWithin<T>(items: seq<T>, sorted: seq<T>, id: T -> nat, parts: nat)
    requires multiset(sorted) == multiset(items) && IdsWithin(items, id, 0, parts)
    ensures IdsWithin(sorted, id, 0, parts)
  {
    forall k: nat | k < |sorted|
      ensures id(sorted[k]) < parts
    {
      assert sorted[k] in multiset(sorted);
      assert sorted[k] in items;
    }
  }
}
