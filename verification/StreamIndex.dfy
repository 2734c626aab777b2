/**
 The index of a memory buffer: every processor splits its own stretch of the items by partition, after which a
 partition is read processor by processor (core/split_stream.hpp 182-280, core/autotuner.hpp 248-262).
 */
module StreamIndex {
  import opened Bits
  import opened Splitter
  import opened Mapping
  import PageReader

  // ---------- the stretches of the processors ----------

  /** Where the stretch of processor i begins, `share` items to each. */
  ghost function Base(share: nat, i: nat): nat {
    PageReader.Start(share, i)
  }

  /** The items of processor i out of k: the last one takes what is left. */
  ghost function Share(n: nat, k: nat, i: nat): nat
    requires 0 < k && i < k && Base(n / k, k) <= n
  {
    PageReader.StartMonotone(n / k, i, k);
    if i == k - 1 then n - Base(n / k, i) else n / k
  }

  lemma SharesFit(n: nat, k: nat)
    requires k > 0
    ensures Base(n / k, k) <= n
  {
    PageReader.StartIsProduct(n / k, k);
    assert n == n / k * k + n % k;
  }

  /** Each processor but the last gets n / k items, from n / k times its number on; the last one gets the rest. */
  lemma SharesAre(n: nat, k: nat, i: nat)
    requires i < k
    ensures Base(n / k, k) <= n && Base(n / k, i) == n / k * i
    ensures Share(n, k, i) == if i < k - 1 then n / k else n / k + n % k
  {
    SharesFit(n, k);
    PageReader.StartIsProduct(n / k, i);
    if i == k - 1 {
      LastShare(n, k);
      assert n == n / k * k + n % k;
    }
  }

  lemma StretchEnds(n: nat, k: nat, i: nat)
    requires i < k && Base(n / k, k) <= n
    ensures Base(n / k, i) + Share(n, k, i) <= n
    ensures i + 1 < k ==> Base(n / k, i) + Share(n, k, i) == Base(n / k, i + 1)
    ensures i + 1 == k ==> Base(n / k, i) + Share(n, k, i) == n
  {
    PageReader.StartMonotone(n / k, i + 1, k);
  }

  ghost function StretchOf<T>(items: seq<T>, k: nat, i: nat): seq<T>
    requires i < k && Base(|items| / k, k) <= |items|
  {
    StretchEnds(|items|, k, i);
    items[Base(|items| / k, i)..Base(|items| / k, i) + Share(|items|, k, i)]
  }

  /** The stretch of an earlier processor ends before that of a later one begins. */
  lemma EarlierStretch(n: nat, k: nat, j: nat, i: nat)
    requires j < i < k && Base(n / k, k) <= n
    ensures Base(n / k, j) + Share(n, k, j) <= Base(n / k, i)
  {
    StretchEnds(n, k, j);
    PageReader.StartMonotone(n / k, j + 1, i);
  }

  lemma StretchIds<T>(items: seq<T>, key: T -> nat, e: nat, k: nat, i: nat)
    requires i < k && Base(|items| / k, k) <= |items| && KeysBelow(items, key, e)
    ensures KeysBelow(StretchOf(items, k, i), key, e) && IdsWithin(StretchOf(items, k, i), key, 0, Pow2(e))
  {
    StretchEnds(|items|, k, i);
    var mine, base := StretchOf(items, k, i), Base(|items| / k, i);
    forall r: nat | r < |mine|
      ensures key(mine[r]) < Pow2(e)
    {
      assert mine[r] == items[base + r];
    }
  }

  /** How many items the processors below i have between them. */
  ghost function Done(n: nat, k: nat, i: nat): (done: nat)
    requires i <= k && 0 < k && Base(n / k, k) <= n
    ensures done <= n
  {
    PageReader.StartMonotone(n / k, i, k);
    if i == k then n else Base(n / k, i)
  }

  lemma LastShare(n: nat, k: nat)
    requires k > 0 && Base(n / k, k) <= n
    ensures Share(n, k, k - 1) == n / k + (n - n / k * k)
  {
    PageReader.StartIsProduct(n / k, k);
  }

  /** The share of processor i; the remainder goes to the last one. */
  method ItemsOf(n: nat, k: nat, share: nat, i: nat) returns (size: nat)
    requires i < k && share == n / k && Base(n / k, k) <= n
    ensures size == Share(n, k, i)
  {
    LastShare(n, k);
    size := share;
    if i == k - 1 {
      size := size + (n - share * k);
    }
  }

  lemma StartOfStretch(n: nat, k: nat, i: nat)
    requires i < k
    ensures n / k * i == Base(n / k, i)
  {
    PageReader.StartIsProduct(n / k, i);
  }

  lemma NextStretch<T>(items: seq<T>, k: nat, i: nat)
    requires i < k && Base(|items| / k, k) <= |items|
    ensures items[..Done(|items|, k, i + 1)] == items[..Done(|items|, k, i)] + StretchOf(items, k, i)
  {
    StretchEnds(|items|, k, i);
  }

  // ---------- what one processor leaves ----------

  /** The groups of one stretch, and the other index zeroed. */
  ghost predicate Placed<T>(items: seq<T>, key: T -> nat, parts: nat, base: nat, buf: seq<T>, index: seq<nat>,
                            other: seq<nat>) {
    GroupsAt(items, key, 0, parts, base, buf, index) && AllZero(other)
  }

  /** What happens outside a stretch does not matter to it. */
  lemma PlacedKept<T>(items: seq<T>, key: T -> nat, parts: nat, base: nat, buf: seq<T>, buf': seq<T>, index: seq<nat>,
                      other: seq<nat>)
    requires Placed(items, key, parts, base, buf, index, other) && IdsWithin(items, key, 0, parts)
    requires |buf'| == |buf| && forall k: nat :: base <= k < base + |items| && k < |buf| ==> buf'[k] == buf[k]
    ensures Placed(items, key, parts, base, buf', index, other)
  {
    forall g: nat | 0 <= g < parts
      ensures GroupAt(items, key, 0, base, buf', index, g)
    {
      assert GroupAt(items, key, 0, base, buf, index, g);
      GroupEnds(items, key, parts, g);
    }
  }

  /** In particular what happens in a later stretch. */
  lemma EarlierKept<T>(items: seq<T>, key: T -> nat, e: nat, k: nat, j: nat, i: nat, buf: seq<T>, buf': seq<T>,
                       index: seq<nat>,
                       other: seq<nat>)
    requires j < i < k && Base(|items| / k, k) <= |items| && KeysBelow(items, key, e)
    requires Placed(StretchOf(items, k, j), key, Pow2(e), Base(|items| / k, j), buf, index, other)
    requires |buf'| == |buf|
    requires forall r: nat ::
      r < |buf| && !(Base(|items| / k, i) <= r < Base(|items| / k, i) + Share(|items|, k, i)) ==> buf'[r] == buf[r]
    ensures Placed(StretchOf(items, k, j), key, Pow2(e), Base(|items| / k, j), buf', index, other)
  {
    StretchIds(items, key, e, k, j);
    EarlierStretch(|items|, k, j, i);
    StretchEnds(|items|, k, j);
    PlacedKept(StretchOf(items, k, j), key, Pow2(e), Base(|items| / k, j), buf, buf', index, other);
  }

  /** A group ends within its stretch. */
  lemma GroupEnds<T>(items: seq<T>, key: T -> nat, parts: nat, g: nat)
    requires IdsWithin(items, key, 0, parts) && g < parts
    ensures Before(items, key, 0, g) + |Filter(items, key, g)| == Before(items, key, 0, g + 1) <= |items|
    ensures g + 1 == parts ==> Before(items, key, 0, g + 1) == |items|
  {
    AllCounted(items, key, 0, parts);
    BeforeMonotone(items, key, 0, g + 1, parts);
  }

  lemma {:induction false} FilterAppend<T>(a: seq<T>, b: seq<T>, key: T -> nat, g: nat)
    ensures Filter(a + b, key, g) == Filter(a, key, g) + Filter(b, key, g)
  {
    if b == [] {
      assert a + b == a;
    } else {
      assert (a + b)[..|a + b| - 1] == a + b[..|b| - 1];
      FilterAppend(a, b[..|b| - 1], key, g);
    }
  }

  lemma NonEmptyAppend<T>(a: seq<T>, b: seq<T>, key: T -> nat, parts: nat)
    ensures NonEmpty(a + b, key, 0, parts) == NonEmpty(a, key, 0, parts) + NonEmpty(b, key, 0, parts)
  {
    forall g: nat
      ensures g in NonEmpty(a + b, key, 0, parts) <==>
        g in NonEmpty(a, key, 0, parts) || g in NonEmpty(b, key, 0, parts)
    {
      NonEmptyMember(a + b, key, 0, parts, g);
      NonEmptyMember(a, key, 0, parts, g);
      NonEmptyMember(b, key, 0, parts, g);
      FilterAppend(a, b, key, g);
    }
  }

  lemma NothingQueued<T>(items: seq<T>, key: T -> nat, parts: nat)
    ensures NonEmpty(items[..0], key, 0, parts) == {}
  {
    forall g: nat
      ensures g !in NonEmpty(items[..0], key, 0, parts)
    {
      NonEmptyMember(items[..0], key, 0, parts, g);
    }
  }

  /** The partitions queued so far and those of the next stretch. */
  lemma QueueGrows<T>(items: seq<T>, key: T -> nat, parts: nat, k: nat, i: nat)
    requires i < k && Base(|items| / k, k) <= |items|
    ensures NonEmpty(items[..Done(|items|, k, i + 1)], key, 0, parts) ==
      NonEmpty(items[..Done(|items|, k, i)], key, 0, parts) + NonEmpty(StretchOf(items, k, i), key, 0, parts)
  {
    NextStretch(items, k, i);
    NonEmptyAppend(items[..Done(|items|, k, i)], StretchOf(items, k, i), key, parts);
  }

  // ---------- one processor ----------

  /** `reset_index`, the start of the stretch, and the split. */
  method SplitStretch<T>(key: T -> nat, indexIn: array<nat>, bufferIn: array<T>, indexAux: array<nat>,
                         bufferAux: array<T>, base: nat,
                         n: nat, fanout: nat, parts: nat, queue: set<nat>, ghost e: nat, ghost d: nat)
    returns (inAux: bool, queue': set<nat>)
    requires parts == Pow2(e) && fanout == Pow2(d) && fanout >= 2 && indexIn.Length > 0 && d > 0
    requires Buffers(n, base, parts, bufferIn, indexIn, bufferAux, indexAux) && AllZero(indexAux[..])
    requires KeysBelow(bufferIn[base..base + n], key, e)
    modifies indexIn, bufferIn, indexAux, bufferAux
    ensures inAux == EndsInAux(e, d)
    ensures var items := old(bufferIn[base..base + n]);
      && queue' == queue + NonEmpty(items, key, 0, parts)
      && if inAux then Placed(items, key, parts, base, bufferAux[..], indexAux[..], indexIn[..])
         else Placed(items, key, parts, base, bufferIn[..], indexIn[..], indexAux[..])
    ensures OnlyStretch(bufferIn, base, n) && OnlyStretch(bufferAux, base, n)
  {
    var g := 0;
    while g < indexIn.Length
      invariant 0 <= g <= indexIn.Length && forall h: nat :: h < g ==> indexIn[h] == 0
      invariant bufferIn[..] == old(bufferIn[..]) && bufferAux[..] == old(bufferAux[..]) && AllZero(indexAux[..])
    {
      indexIn[g] := 0;
      g := g + 1;
    }
    indexIn[0] := base;
    assert bufferIn[base..base + n] == bufferIn[..][base..base + n];
    inAux, queue' := XSplit(key, indexIn, bufferIn, indexAux, bufferAux, n, fanout, parts, queue, base, e, d);
  }

  // ---------- the buffer ----------

  /** The arrays of a buffer are large enough, and no array is used twice. */
  ghost predicate Arrays<T>(buffer: array<T>, auxBuffer: array<T>, index: seq<array<nat>>, auxIndex: seq<array<nat>>,
                            bufsize: nat,
                            parts: nat) {
    && 0 < parts && 0 < |index| == |auxIndex| && bufsize <= buffer.Length && bufsize <= auxBuffer.Length &&
      buffer != auxBuffer
    && (forall i: nat :: i < |index| ==>
      && parts <= index[i].Length && index[i] as object != buffer && index[i] as object != auxBuffer)
    && (forall i: nat :: i < |index| ==>
      && parts <= auxIndex[i].Length && auxIndex[i] as object != buffer && auxIndex[i] as object != auxBuffer)
    && (forall i: nat, j: nat :: i < |index| && j < |index| ==> index[i] != auxIndex[j])
    && (forall i: nat, j: nat :: i < j < |index| ==> index[i] != index[j] && auxIndex[i] != auxIndex[j])
  }

  lemma ArraysSwitched<T>(buffer: array<T>, auxBuffer: array<T>, index: seq<array<nat>>, auxIndex: seq<array<nat>>,
                          bufsize: nat,
                          parts: nat)
    requires Arrays(buffer, auxBuffer, index, auxIndex, bufsize, parts)
    ensures Arrays(auxBuffer, buffer, auxIndex, index, bufsize, parts)
  {
  }

  class MemoryBuffer<T> {
    var buffer: array<T>
    var auxBuffer: array<T>
    /** One index array to a processor. */
    var index: seq<array<nat>>
    var auxIndex: seq<array<nat>>
    var perCpuSizes: seq<nat>
    var bufsize: nat
    var indexEntries: nat

    constructor (buffer: array<T>, auxBuffer: array<T>, index: seq<array<nat>>, auxIndex: seq<array<nat>>, bufsize: nat)
      ensures this.buffer == buffer && this.auxBuffer == auxBuffer && this.index == index && this.auxIndex == auxIndex
      ensures this.bufsize == bufsize && indexEntries == 0
    {
      this.buffer, this.auxBuffer, this.index, this.auxIndex, this.bufsize := buffer, auxBuffer, index, auxIndex,
        bufsize;
      perCpuSizes, indexEntries := [], 0;
    }

    ghost predicate Sound(parts: nat)
      reads this`buffer, this`auxBuffer, this`index, this`auxIndex, this`bufsize
    {
      Arrays(buffer, auxBuffer, index, auxIndex, bufsize, parts)
    }

    /** The spare index is all zero, as every split leaves it. */
    ghost predicate SpareZero()
      reads this`auxIndex, auxIndex
    {
      forall i: nat :: i < |auxIndex| ==> AllZero(auxIndex[i][..])
    }

    /** The stretch of processor i has been split, into the buffer and index or into the spare ones. */
    ghost predicate StretchPlaced(items: seq<T>, key: T -> nat, parts: nat, inAux: bool, i: nat)
      requires |index| == |auxIndex| && i < |index| && Base(|items| / |index|, |index|) <= |items|
      reads this`buffer, this`auxBuffer, this`index, this`auxIndex, buffer, auxBuffer, index, auxIndex
    {
      var base := Base(|items| / |index|, i);
      if inAux then Placed(StretchOf(items, |index|, i), key, parts, base, auxBuffer[..], auxIndex[i][..], index[i][..])
      else Placed(StretchOf(items, |index|, i), key, parts, base, buffer[..], index[i][..], auxIndex[i][..])
    }

    /** Processors below i are done; the stretches of the others are as they were. */
    ghost predicate Underway(items: seq<T>, key: T -> nat, parts: nat, inAux: bool, i: nat)
      requires Sound(parts) && |items| == bufsize && i <= |index| && Base(|items| / |index|, |index|) <= |items|
      reads this`buffer, this`auxBuffer, this`index, this`auxIndex, this`bufsize, buffer, auxBuffer, index, auxIndex
    {
      && (forall j: nat :: j < i ==> StretchPlaced(items, key, parts, inAux, j))
      && (forall j: nat :: i <= j < |index| ==> AllZero(auxIndex[j][..]))
      && (i < |index| ==> forall k: nat :: Base(|items| / |index|, i) <= k < |items| ==> buffer[k] == items[k])
    }

    /** The turn of processor i. */
    method SplitOne(key: T -> nat, parts: nat, fanout: nat, queue: set<nat>, i: nat, base: nat, size: nat,
                    ghost items: seq<T>,
                    ghost e: nat, ghost d: nat) returns (inAux: bool, queue': set<nat>)
      requires Sound(parts) && |items| == bufsize && i < |index| && Base(|items| / |index|, |index|) <= |items|
      requires parts == Pow2(e) && fanout == Pow2(d) && fanout >= 2 && d > 0 && KeysBelow(items, key, e)
      requires base == Base(|items| / |index|, i) && size == Share(|items|, |index|, i)
      requires Underway(items, key, parts, EndsInAux(e, d), i)
      modifies buffer, auxBuffer, index, auxIndex
      ensures inAux == EndsInAux(e, d) && Underway(items, key, parts, inAux, i + 1)
      ensures queue' == queue + NonEmpty(StretchOf(items, |index|, i), key, 0, parts)
    {
      StretchEnds(|items|, |index|, i);
      ghost var mine, buf0, aux0 := StretchOf(items, |index|, i), buffer[..], auxBuffer[..];
      assert buffer[base..base + size] == mine;
      inAux, queue' := SplitStretch(key, index[i], buffer, auxIndex[i], auxBuffer, base, size, fanout, parts, queue, e,
        d);
      forall j: nat | j < i
        ensures StretchPlaced(items, key, parts, inAux, j)
      {
        assert old(StretchPlaced(items, key, parts, EndsInAux(e, d), j));
        assert index[j][..] == old(index[j][..]) && auxIndex[j][..] == old(auxIndex[j][..]);
        if inAux {
          EarlierKept(items, key, e, |index|, j, i, aux0, auxBuffer[..], auxIndex[j][..], index[j][..]);
        } else {
          EarlierKept(items, key, e, |index|, j, i, buf0, buffer[..], index[j][..], auxIndex[j][..]);
        }
      }
    }

    /** The buffer is indexed: every group of every stretch is where the index says. */
    ghost predicate Indexed(items: seq<T>, key: T -> nat, parts: nat)
      reads this, buffer, index
    {
      var n, k := |items|, |index|;
      && 0 < k == |perCpuSizes| && indexEntries == parts && Base(n / k, k) <= n
      && forall i: nat :: i < k ==>
        perCpuSizes[i] == Share(n, k, i) &&
          GroupsAt(StretchOf(items, k, i), key, 0, parts, Base(n / k, i), buffer[..], index[i][..])
    }

    /** `make_index`: all processors split, and if the result is in the spare buffer the two change places. */
    method MakeIndex(key: T -> nat, parts: nat, fanout: nat, queue: set<nat>, ghost e: nat, ghost d: nat)
      returns (queue': set<nat>)
      requires Sound(parts) && SpareZero() && parts == Pow2(e) && fanout == Pow2(d) && fanout >= 2
      requires KeysBelow(buffer[..bufsize], key, e)
      modifies this, buffer, auxBuffer, index, auxIndex
      ensures Sound(parts) && SpareZero() && |index| == old(|index|) && bufsize == old(bufsize)
      ensures Indexed(old(buffer[..bufsize]), key, parts)
      ensures queue' == queue + NonEmpty(old(buffer[..bufsize]), key, 0, parts)
    {
      ghost var items := buffer[..bufsize];
      SharesFit(bufsize, |index|);
      SetSizes(items);
      var inAux := false;
      inAux, queue' := SplitAll(key, parts, fanout, queue, items, e, d);
      if inAux {
        SwitchWithAux(items, key, parts);
      }
      indexEntries := parts;
      AllPlaced(items, key, parts);
    }

    /** `switch_with_aux`. */
    method SwitchWithAux(ghost items: seq<T>, ghost key: T -> nat, ghost parts: nat)
      requires Sound(parts) && parts > 0 && |items| == bufsize && Base(|items| / |index|, |index|) <= |items|
      requires Underway(items, key, parts, true, |index|)
      modifies this`buffer, this`auxBuffer, this`index, this`auxIndex
      ensures Sound(parts) && |index| == old(|index|) && Underway(items, key, parts, false, |index|)
    {
      ArraysSwitched(buffer, auxBuffer, index, auxIndex, bufsize, parts);
      buffer, auxBuffer, index, auxIndex := auxBuffer, buffer, auxIndex, index;
      forall i: nat | i < |index|
        ensures StretchPlaced(items, key, parts, false, i)
      {
        assert old(StretchPlaced(items, key, parts, true, i));
      }
    }

    lemma AllPlaced(items: seq<T>, key: T -> nat, parts: nat)
      requires Sound(parts) && |items| == bufsize && Base(|items| / |index|, |index|) <= |items|
      requires Underway(items, key, parts, false, |index|) && indexEntries == parts && |perCpuSizes| == |index|
      requires forall i: nat :: i < |index| ==> perCpuSizes[i] == Share(|items|, |index|, i)
      ensures SpareZero() && Indexed(items, key, parts)
    {
      forall i: nat | i < |index|
        ensures AllZero(auxIndex[i][..])
        ensures GroupsAt(StretchOf(items, |index|, i), key, 0, parts, Base(|items| / |index|, i), buffer[..],
          index[i][..])
      {
        assert StretchPlaced(items, key, parts, false, i);
      }
    }

    /** `per_cpu_sizes`. */
    method SetSizes(ghost items: seq<T>)
      requires 0 < |index| && |items| == bufsize && Base(|items| / |index|, |index|) <= |items|
      modifies this`perCpuSizes
      ensures |perCpuSizes| == |index| && forall i: nat :: i < |index| ==> perCpuSizes[i] == Share(|items|, |index|, i)
    {
      var share := bufsize / |index|;
      var i := 0;
      perCpuSizes := [];
      while i < |index|
        invariant 0 <= i <= |index| && |perCpuSizes| == i
        invariant forall j: nat :: j < i ==> perCpuSizes[j] == Share(|items|, |index|, j)
      {
        var size := ItemsOf(bufsize, |index|, share, i);
        perCpuSizes := perCpuSizes + [size];
        i := i + 1;
      }
    }

    method SplitAll(key: T -> nat, parts: nat, fanout: nat, queue: set<nat>, ghost items: seq<T>, ghost e: nat,
                    ghost d: nat)
      returns (inAux: bool, queue': set<nat>)
      requires Sound(parts) && SpareZero() && |items| == bufsize && items == buffer[..bufsize]
      requires parts == Pow2(e) && fanout == Pow2(d) && fanout >= 2 && KeysBelow(items, key, e)
      requires Base(|items| / |index|, |index|) <= |items| && |perCpuSizes| == |index|
      requires forall i: nat :: i < |index| ==> perCpuSizes[i] == Share(|items|, |index|, i)
      modifies buffer, auxBuffer, index, auxIndex
      ensures d > 0 && inAux == EndsInAux(e, d) && Underway(items, key, parts, inAux, |index|)
      ensures queue' == queue + NonEmpty(items, key, 0, parts)
    {
      var share := bufsize / |index|;
      var i := 0;
      inAux, queue' := false, queue;
      NothingQueued(items, key, parts);
      while i < |index|
        invariant 0 <= i <= |index| && Underway(items, key, parts, EndsInAux(e, d), i) &&
          (i > 0 ==> inAux == EndsInAux(e, d))
        invariant queue' == queue + NonEmpty(items[..Done(|items|, |index|, i)], key, 0, parts)
      {
        ghost var soFar := queue';
        StartOfStretch(|items|, |index|, i);
        var side;
        side, queue' := SplitOne(key, parts, fanout, queue', i, share * i, perCpuSizes[i], items, e, d);
        if i == 0 {
          inAux := side;
        }
        QueueGrows(items, key, parts, |index|, i);
        i := i + 1;
      }
      assert items[..|items|] == items;
    }

    /** `get_substream`: the items of one partition in the stretch of one processor. */
    method GetSubstream(p: nat, g: nat, ghost items: seq<T>, ghost key: T -> nat, ghost e: nat) returns (sub: seq<T>)
      requires p < |index| && g < indexEntries == Pow2(e) && Indexed(items, key, indexEntries) &&
        KeysBelow(items, key, e)
      ensures sub == Filter(StretchOf(items, |index|, p), key, g)
    {
      ghost var mine, base := StretchOf(items, |index|, p), Base(|items| / |index|, p);
      StretchEnds(|items|, |index|, p);
      StretchIds(items, key, e, |index|, p);
      GroupEnds(mine, key, indexEntries, g);
      assert GroupAt(mine, key, 0, base, buffer[..], index[p][..], g);
      assert GroupAt(mine, key, 0, base, buffer[..], index[p][..], 0);
      var start := index[p][g];
      var size: nat;
      if g < indexEntries - 1 {
        assert GroupAt(mine, key, 0, base, buffer[..], index[p][..], g + 1);
        size := index[p][g + 1] - start;
      } else {
        size := perCpuSizes[p] + index[p][0] - start;
      }
      HoldsIsSlice(buffer[..], start, Filter(mine, key, g));
      sub := buffer[start..start + size];
    }

    /** A partition, processor by processor: all its items, in their order. */
    method ReadPartition(g: nat, ghost items: seq<T>, ghost key: T -> nat, ghost e: nat) returns (all: seq<T>)
      requires g < indexEntries == Pow2(e) && Indexed(items, key, indexEntries) && KeysBelow(items, key, e)
      ensures all == Filter(items, key, g)
    {
      all := [];
      var p := 0;
      assert items[..Done(|items|, |index|, 0)] == [];
      while p < |index|
        invariant 0 <= p <= |index| && all == Filter(items[..Done(|items|, |index|, p)], key, g)
      {
        var sub := GetSubstream(p, g, items, key, e);
        NextStretch(items, |index|, p);
        FilterAppend(items[..Done(|items|, |index|, p)], StretchOf(items, |index|, p), key, g);
        all := all + sub;
        p := p + 1;
      }
      assert items[..|items|] == items;
    }
  }

  // ---------- keys ----------

  /** `map_cached_partition_wrap` and `map_super_partition_wrap` give keys below the number of partitions. */
  lemma MappedKeysBelow<T>(items: seq<T>, m: Shifts, vertex: T -> nat, cached: T -> nat, super: T -> nat)
    requires forall x: T :: cached(x) == MapCachedPartition(m, vertex(x)) && super(x) == MapSuperPartition(m, vertex(x))
    ensures KeysBelow(items, cached, m.partition) && KeysBelow(items, super, m.superp)
  {
    forall k: nat | k < |items|
      ensures cached(items[k]) < Pow2(m.partition) && super(items[k]) < Pow2(m.superp)
    {
      InverseOfMaps(m, vertex(items[k]));
    }
  }

  /** The index by cached partition, for any vertex keys whatever. */
  method IndexByCachedPartition<T>(b: MemoryBuffer<T>, m: Shifts, vertex: T -> nat, parts: nat, fanout: nat,
                                   queue: set<nat>, ghost d: nat)
    returns (queue': set<nat>)
    requires b.Sound(parts) && b.SpareZero() && parts == Pow2(m.partition) && fanout == Pow2(d) && fanout >= 2
    modifies b, b.buffer, b.auxBuffer, b.index, b.auxIndex
    ensures b.Sound(parts) && b.SpareZero() && b.Indexed(old(b.buffer[..b.bufsize]), PartitionOf(m, vertex), parts)
    ensures queue' == queue + NonEmpty(old(b.buffer[..b.bufsize]), PartitionOf(m, vertex), 0, parts)
    ensures forall x: T :: PartitionOf(m, vertex)(x) == MapCachedPartition(m, vertex(x))
  {
    MappedKeysBelow(b.buffer[..b.bufsize], m, vertex, PartitionOf(m, vertex), SuperPartitionOf(m, vertex));
    queue' := b.MakeIndex(PartitionOf(m, vertex), parts, fanout, queue, m.partition, d);
  }

  /** The index by superpartition. */
  method IndexBySuperPartition<T>(b: MemoryBuffer<T>, m: Shifts, vertex: T -> nat, parts: nat, fanout: nat,
                                  queue: set<nat>, ghost d: nat)
    returns (queue': set<nat>)
    requires b.Sound(parts) && b.SpareZero() && parts == Pow2(m.superp) && fanout == Pow2(d) && fanout >= 2
    modifies b, b.buffer, b.auxBuffer, b.index, b.auxIndex
    ensures b.Sound(parts) && b.SpareZero() && b.Indexed(old(b.buffer[..b.bufsize]), SuperPartitionOf(m, vertex), parts)
    ensures queue' == queue + NonEmpty(old(b.buffer[..b.bufsize]), SuperPartitionOf(m, vertex), 0, parts)
    ensures forall x: T :: SuperPartitionOf(m, vertex)(x) == MapSuperPartition(m, vertex(x))
  {
    MappedKeysBelow(b.buffer[..b.bufsize], m, vertex, PartitionOf(m, vertex), SuperPartitionOf(m, vertex));
    queue' := b.MakeIndex(SuperPartitionOf(m, vertex), parts, fanout, queue, m.superp, d);
  }

  function PartitionOf<T>(m: Shifts, vertex: T -> nat): T -> nat {
    (x: T) => MapCachedPartition(m, vertex(x))
  }

  function SuperPartitionOf<T>(m: Shifts, vertex: T -> nat): T -> nat {
    (x: T) => MapSuperPartition(m, vertex(x))
  }
}
