/**
 Write-back of vertex state by dirty sectors: only sectors of records flagged as changed are written, in runs and
 several at a time (core/sg_driver.hpp 281-291, 874-893, core/disk_io.hpp 470-542, algorithms/bfs/bfs.hpp 92-161).
 */
module DirtySectors {
  import opened Bitshuffle
  import opened BloomFilters
  import opened BloomQuery
  import opened PageReader

  const SECTOR: nat := 512
  const MAX_RUN: nat := 0x4000_0000

  // ---------- records and their sectors ----------

  /** The records of the vertices in the state buffer: where each starts, how it is read, and how its flag is reset. */
  datatype Layout<!T> = Layout(n: nat, size: nat, start: nat -> nat, changed: seq<T> -> bool, reset: seq<T> -> seq<T>)

  ghost predicate Fits<T(!new)>(l: Layout<T>, len: nat) {
    && l.size > 0
    && (forall v: nat :: v < l.n ==> l.start(v) + l.size <= len && LastSector(l, v) <= FirstSector(l, v) + 1)
    && (forall v: nat, w: nat :: v < w < l.n ==> l.start(v) + l.size <= l.start(w))
    && forall r: seq<T> :: |r| == l.size ==> |l.reset(r)| == l.size
  }

  /** `pos` and `t_pos`. */
  function FirstSector<T>(l: Layout<T>, v: nat): nat {
    l.start(v) / SECTOR
  }

  function LastSector<T>(l: Layout<T>, v: nat): nat
    requires l.size > 0
  {
    (l.start(v) + l.size - 1) / SECTOR
  }

  function Record<T>(l: Layout<T>, mem: seq<T>, v: nat): seq<T>
    requires l.start(v) + l.size <= |mem|
  {
    mem[l.start(v)..l.start(v) + l.size]
  }

  /** The record is on disk as it is in memory. */
  ghost predicate InSync<T>(l: Layout<T>, disk: seq<T>, mem: seq<T>, v: nat) {
    && l.start(v) + l.size <= |mem| == |disk|
    && forall k: nat :: l.start(v) <= k < l.start(v) + l.size ==> disk[k] == mem[k]
  }

  /** A byte of a record lies in its first or its last sector. */
  lemma ByteInSector<T(!new)>(l: Layout<T>, len: nat, v: nat, k: nat)
    requires Fits(l, len) && v < l.n && l.start(v) <= k < l.start(v) + l.size
    ensures k / SECTOR == FirstSector(l, v) || k / SECTOR == LastSector(l, v)
  {
  }

  /** Marking the first and the last sector covers a record exactly when it spans at most two. */
  lemma CoveredIffTwoSectors<T>(l: Layout<T>, v: nat)
    requires l.size > 0
    ensures (forall k: nat :: l.start(v) <= k < l.start(v) + l.size ==>
      k / SECTOR == FirstSector(l, v) || k / SECTOR == LastSector(l, v))
      <==> LastSector(l, v) <= FirstSector(l, v) + 1
  {
    var first, last := FirstSector(l, v), LastSector(l, v);
    if last > first + 1 {
      var k := SECTOR * (first + 1);
      assert k / SECTOR == first + 1 && l.start(v) <= k < l.start(v) + l.size;
    }
  }

  // ---------- flagging the sectors of changed records ----------

  /** `ver_buf_chg[pos / 8] |= 1 << (pos % 8)`. */
  method SetBit(bitset: array<bv8>, p: nat)
    requires p / 8 < bitset.Length
    modifies bitset
    ensures forall q: nat :: q < 8 * bitset.Length ==> IsSet(bitset[..], q) == (IsSet(old(bitset[..]), q) || q == p)
  {
    ghost var before := bitset[..];
    bitset[p / 8] := WithBit(bitset[p / 8], p % 8);
    forall q: nat | q < 8 * bitset.Length
      ensures IsSet(bitset[..], q) == (IsSet(before, q) || q == p)
    {
      if q / 8 != p / 8 {
        assert bitset[q / 8] == before[q / 8];
      }
    }
  }

  /** The sectors of record v are flagged. */
  ghost predicate Marked<T>(l: Layout<T>, bitset: seq<bv8>, v: nat)
    requires l.size > 0
  {
    IsSet(bitset, FirstSector(l, v)) && IsSet(bitset, LastSector(l, v))
  }

  /** The sector remembered by a processor is flagged. */
  ghost predicate PreviousSet(bitset: seq<bv8>, previousPos: int) {
    previousPos == -1 || (previousPos >= 0 && IsSet(bitset, previousPos))
  }

  ghost predicate OnlyGrows(before: seq<bv8>, bitset: seq<bv8>) {
    |bitset| == |before| && forall q: nat :: q < 8 * |before| && IsSet(before, q) ==> IsSet(bitset, q)
  }

  /** Marked sectors start within the buffer. */
  ghost predicate WithinBuffer(bitset: seq<bv8>, len: nat) {
    forall q: nat :: q < 8 * |bitset| && IsSet(bitset, q) ==> SECTOR * q < len
  }

  /** Mark the sector of byte k. */
  method MarkSector(bitset: array<bv8>, p: nat, ghost k: nat, ghost len: nat)
    requires p == k / SECTOR && k < len <= SECTOR * (8 * bitset.Length) && WithinBuffer(bitset[..], len)
    modifies bitset
    ensures IsSet(bitset[..], p) && OnlyGrows(old(bitset[..]), bitset[..]) && WithinBuffer(bitset[..], len)
  {
    SetBit(bitset, p);
  }

  /**
   `state_iter_callback` in the scatter step, for one vertex: a changed record has its flag reset and its sectors
   marked, unless it lies within the sector marked last.
   */
  method CheckVertex<T(!new)>(l: Layout<T>, mem: array<T>, bitset: array<bv8>, v: nat, previousPos: int)
    returns (previousPos': int)
    requires Fits(l, mem.Length) && v < l.n && mem.Length <= SECTOR * (8 * bitset.Length) && mem as object != bitset
    requires PreviousSet(bitset[..], previousPos) && WithinBuffer(bitset[..], mem.Length)
    modifies mem, bitset
    ensures PreviousSet(bitset[..], previousPos') && OnlyGrows(old(bitset[..]), bitset[..]) &&
      WithinBuffer(bitset[..], mem.Length)
    ensures old(l.changed(Record(l, mem[..], v))) ==> Marked(l, bitset[..], v)
    ensures Record(l, mem[..], v) ==
      old(if l.changed(Record(l, mem[..], v)) then l.reset(Record(l, mem[..], v)) else Record(l, mem[..], v))
    ensures forall k: nat :: k < mem.Length && !(l.start(v) <= k < l.start(v) + l.size) ==> mem[k] == old(mem[k])
  {
    ghost var bits := bitset[..];
    var changed := CheckResetChanged(l, mem, v);
    assert bitset[..] == bits;
    previousPos' := previousPos;
    if changed {
      previousPos' := MarkRecord(l, bitset, v, previousPos, mem.Length);
    }
  }

  /** `check_reset_changed`. */
  method CheckResetChanged<T(!new)>(l: Layout<T>, mem: array<T>, v: nat) returns (changed: bool)
    requires Fits(l, mem.Length) && v < l.n
    modifies mem
    ensures changed == old(l.changed(Record(l, mem[..], v)))
    ensures Record(l, mem[..], v) ==
      old(if l.changed(Record(l, mem[..], v)) then l.reset(Record(l, mem[..], v)) else Record(l, mem[..], v))
    ensures forall k: nat :: k < mem.Length && !(l.start(v) <= k < l.start(v) + l.size) ==> mem[k] == old(mem[k])
  {
    var at := l.start(v);
    var record := mem[at..at + l.size];
    changed := l.changed(record);
    if changed {
      var after := l.reset(record);
      forall i | 0 <= i < l.size {
        mem[at + i] := after[i];
      }
      assert mem[at..at + l.size] == after;
    }
  }

  method MarkRecord<T(!new)>(l: Layout<T>, bitset: array<bv8>, v: nat, previousPos: int, ghost len: nat)
    returns (previousPos': int)
    requires Fits(l, len) && v < l.n && len <= SECTOR * (8 * bitset.Length)
    requires PreviousSet(bitset[..], previousPos) && WithinBuffer(bitset[..], len)
    modifies bitset
    ensures PreviousSet(bitset[..], previousPos') && OnlyGrows(old(bitset[..]), bitset[..]) &&
      WithinBuffer(bitset[..], len)
    ensures Marked(l, bitset[..], v)
  {
    previousPos' := previousPos;
    var at := l.start(v);
    var pos, tPos := at / SECTOR, (at + l.size - 1) / SECTOR;
    if previousPos != pos || previousPos != tPos {
      MarkSector(bitset, pos, at, len);
      MarkSector(bitset, tPos, at + l.size - 1, len);
      previousPos' := pos;
    }
  }

  /** Vertex v has been looked at: its flag is reset, and if it was set its sectors are marked. */
  ghost predicate Done<T(!new)>(l: Layout<T>, before: seq<T>, mem: seq<T>, bitset: seq<bv8>, v: nat)
    requires l.size > 0 && l.start(v) + l.size <= |before| == |mem|
  {
    var r := Record(l, before, v);
    Record(l, mem, v) == (if l.changed(r) then l.reset(r) else r) && (l.changed(r) ==> Marked(l, bitset, v))
  }

  ghost predicate Checked<T(!new)>(l: Layout<T>, before: seq<T>, mem: seq<T>, bitset: seq<bv8>, owner: nat -> nat,
                                   i: nat, j: nat)
    requires Fits(l, |before|) && |before| == |mem|
  {
    forall v: nat :: v < l.n ==>
      if owner(v) < i || (owner(v) == i && v < j) then Done(l, before, mem, bitset, v)
        else Record(l, mem, v) == Record(l, before, v)
  }

  lemma OtherRecord<T(!new)>(l: Layout<T>, before: seq<T>, mem: seq<T>, v: nat, w: nat)
    requires Fits(l, |before|) && |before| == |mem| && v < l.n && w < l.n && v != w
    requires forall k: nat :: k < |mem| && !(l.start(v) <= k < l.start(v) + l.size) ==> mem[k] == before[k]
    ensures Record(l, mem, w) == Record(l, before, w)
  {
    assert l.start(v) + l.size <= l.start(w) || l.start(w) + l.size <= l.start(v) by {
      if v < w {
      }
    }
  }

  method CheckOwned<T(!new)>(l: Layout<T>, ghost before: seq<T>, mem: array<T>, bitset: array<bv8>,
                             ghost owner: nat -> nat, ghost i: nat, v: nat,
                             previousPos: int) returns (previousPos': int)
    requires Fits(l, mem.Length) && v < l.n && mem.Length <= SECTOR * (8 * bitset.Length) && mem as object != bitset
    requires PreviousSet(bitset[..], previousPos) && WithinBuffer(bitset[..], mem.Length) && owner(v) == i &&
      |before| == mem.Length
    requires Checked(l, before, mem[..], bitset[..], owner, i, v)
    modifies mem, bitset
    ensures PreviousSet(bitset[..], previousPos') && Checked(l, before, mem[..], bitset[..], owner, i, v + 1)
    ensures WithinBuffer(bitset[..], mem.Length) && OnlyGrows(old(bitset[..]), bitset[..])
  {
    ghost var mem0, bits0 := mem[..], bitset[..];
    assert Record(l, mem0, v) == Record(l, before, v);
    previousPos' := CheckVertex(l, mem, bitset, v, previousPos);
    forall w: nat | w < l.n
      ensures if owner(w) < i || (owner(w) == i && w < v + 1) then Done(l, before, mem[..], bitset[..], w)
        else Record(l, mem[..], w) == Record(l, before, w)
    {
      if w != v {
        OtherRecord(l, mem0, mem[..], v, w);
        SectorsWithin(l, mem.Length, w, bitset.Length);
      }
    }
  }

  lemma SectorsWithin<T(!new)>(l: Layout<T>, len: nat, v: nat, bytes: nat)
    requires Fits(l, len) && v < l.n && len <= SECTOR * (8 * bytes)
    ensures FirstSector(l, v) < 8 * bytes && LastSector(l, v) < 8 * bytes
  {
  }

  /** The bitset cleared but for sector 0, then all vertices, every processor going through its own. */
  method MarkChanged<T(!new)>(l: Layout<T>, mem: array<T>, bitset: array<bv8>, owner: nat -> nat, processors: nat)
    requires Fits(l, mem.Length) && 0 < mem.Length <= SECTOR * (8 * bitset.Length) && mem as object != bitset
    requires forall v: nat :: v < l.n ==> owner(v) < processors
    modifies mem, bitset
    ensures forall v: nat :: v < l.n ==> Done(l, old(mem[..]), mem[..], bitset[..], v)
    ensures IsSet(bitset[..], 0) && WithinBuffer(bitset[..], mem.Length)
  {
    ghost var before := mem[..];
    var z := 0;
    while z < bitset.Length
      invariant 0 <= z <= bitset.Length && mem[..] == before && forall q: nat :: q < 8 * z ==> !IsSet(bitset[..], q)
    {
      ClearByte(bitset, z);
      z := z + 1;
    }
    SetBit(bitset, 0);
    var i := 0;
    while i < processors
      invariant 0 <= i <= processors && IsSet(bitset[..], 0) && WithinBuffer(bitset[..], mem.Length)
      invariant Checked(l, before, mem[..], bitset[..], owner, i, 0)
    {
      CheckProcessor(l, before, mem, bitset, owner, i);
      i := i + 1;
    }
  }

  method ClearByte(bitset: array<bv8>, z: nat)
    requires z < bitset.Length && forall q: nat :: q < 8 * z ==> !IsSet(bitset[..], q)
    modifies bitset
    ensures forall q: nat :: q < 8 * (z + 1) ==> !IsSet(bitset[..], q)
  {
    ghost var before := bitset[..];
    bitset[z] := ZeroByte();
    forall q: nat | q < 8 * (z + 1)
      ensures !IsSet(bitset[..], q)
    {
      if q / 8 < z {
        assert !IsSet(before, q) && bitset[q / 8] == before[q / 8];
      }
    }
  }

  method CheckProcessor<T(!new)>(l: Layout<T>, ghost before: seq<T>, mem: array<T>, bitset: array<bv8>,
                                 owner: nat -> nat, i: nat)
    requires Fits(l, mem.Length) && 0 < mem.Length <= SECTOR * (8 * bitset.Length) && mem as object != bitset &&
      |before| == mem.Length
    requires IsSet(bitset[..], 0) && WithinBuffer(bitset[..], mem.Length) &&
      Checked(l, before, mem[..], bitset[..], owner, i, 0)
    modifies mem, bitset
    ensures IsSet(bitset[..], 0) && WithinBuffer(bitset[..], mem.Length) &&
      Checked(l, before, mem[..], bitset[..], owner, i + 1, 0)
  {
    var previousPos := -1;
    var v := 0;
    while v < l.n
      invariant 0 <= v <= l.n && IsSet(bitset[..], 0) && PreviousSet(bitset[..], previousPos) &&
        WithinBuffer(bitset[..], mem.Length)
      invariant Checked(l, before, mem[..], bitset[..], owner, i, v)
    {
      if owner(v) == i {
        previousPos := CheckOwned(l, before, mem, bitset, owner, i, v, previousPos);
      }
      v := v + 1;
    }
  }

  // ---------- writing the marked sectors ----------

  /** A write in flight. */
  datatype Write = Write(offset: nat, length: nat)

  predicate Reaches(w: Write, k: nat) {
    w.offset <= k < w.offset + w.length
  }

  /** The sector is marked and its write has been submitted: the next one to be submitted is `next`. */
  ghost predicate IsSubmitted(flags: seq<bool>, p: nat, next: int) {
    p < |flags| && flags[p] && (next == -1 || p < next)
  }

  /** Bytes of submitted sectors are as in memory or about to be; all others are as they were. */
  ghost predicate Writing<T>(before: seq<T>, disk: seq<T>, mem: seq<T>, flags: seq<bool>, next: int, open: seq<Write>) {
    && |before| == |disk| == |mem| && ValidPos(flags, next)
    && (forall w :: w in open ==> w.offset + w.length <= |mem| && forall k: nat :: Reaches(w, k) ==>
      IsSubmitted(flags, k / SECTOR, next))
    && forall k: nat :: k < |mem| ==>
      if IsSubmitted(flags, k / SECTOR, next) then disk[k] == mem[k] || exists w :: w in open && Reaches(w, k)
      else disk[k] == before[k]
  }

  /** `io_prep_pwrite` for a run of n sectors from `cur`. */
  lemma SubmitKeeps<T>(before: seq<T>, disk: seq<T>, mem: seq<T>, flags: seq<bool>, cur: nat, n: nat, next: int,
                       open: seq<Write>, w: Write,
                       open': seq<Write>)
    requires Writing(before, disk, mem, flags, cur, open) && IsRun(flags, cur, n, next) && ValidPos(flags, next)
    requires w.offset == SECTOR * cur <= |mem| && w.offset + w.length == Clamp(|mem|, SECTOR * (cur + n))
    requires forall x :: x in open' <==> x in open || x == w
    ensures Writing(before, disk, mem, flags, next, open')
  {
    forall p: nat
      ensures IsSubmitted(flags, p, next) <==> IsSubmitted(flags, p, cur) || cur <= p < cur + n
    {
    }
    forall x | x in open'
      ensures x.offset + x.length <= |mem| && forall k: nat :: Reaches(x, k) ==> IsSubmitted(flags, k / SECTOR, next)
    {
      if x !in open {
        forall k: nat | Reaches(w, k)
          ensures IsSubmitted(flags, k / SECTOR, next)
        {
          assert cur <= k / SECTOR < cur + n;
        }
      }
    }
    forall k: nat | k < |mem|
      ensures if IsSubmitted(flags, k / SECTOR, next) then disk[k] == mem[k] || exists x :: x in open' && Reaches(x, k)
        else disk[k] == before[k]
    {
      if IsSubmitted(flags, k / SECTOR, cur) {
        if x :| x in open && Reaches(x, k) {
          assert x in open';
        }
      } else if cur <= k / SECTOR < cur + n {
        assert w in open' && Reaches(w, k);
      }
    }
  }

  lemma CompleteKeeps<T>(before: seq<T>, disk: seq<T>, disk': seq<T>, mem: seq<T>, flags: seq<bool>, next: int,
                         open: seq<Write>, i: nat)
    requires Writing(before, disk, mem, flags, next, open) && i < |open| && |disk'| == |disk|
    requires forall k: nat :: k < |mem| ==> disk'[k] == if Reaches(open[i], k) then mem[k] else disk[k]
    ensures Writing(before, disk', mem, flags, next, open[..i] + open[i + 1..])
  {
    var w, rest := open[i], open[..i] + open[i + 1..];
    assert w in open;
    forall k: nat | k < |mem|
      ensures if IsSubmitted(flags, k / SECTOR, next) then disk'[k] == mem[k] || exists x :: x in rest && Reaches(x, k)
        else disk'[k] == before[k]
    {
      if IsSubmitted(flags, k / SECTOR, next) && !Reaches(w, k) && disk[k] != mem[k] {
        var x :| x in open && Reaches(x, k);
        assert x in rest;
      }
    }
  }

  /** The file of one superpartition's vertex state. */
  class StateStream<T(!new)> {
    var disk: seq<T>
    const numSubreq: nat

    constructor (disk: seq<T>, numSubreq: nat)
      ensures this.disk == disk && this.numSubreq == numSubreq
    {
      this.disk, this.numSubreq := disk, numSubreq;
    }

    /**
     `search_and_update_next_w_positions`: a run of marked sectors, of at most a gigabyte, cut at the end of the
     buffer.
     */
    method NextRun(bitset: seq<bv8>, pos: int, bufbytes: nat) returns (w: Write, next: int, ghost n: nat)
      requires ValidPos(Flags(bitset), pos) && pos != -1 && SECTOR * pos < bufbytes
      ensures IsRun(Flags(bitset), pos, n, next) && ValidPos(Flags(bitset), next) && (next == -1 || next > pos)
      ensures w.offset == SECTOR * pos && w.offset + w.length == Clamp(bufbytes, SECTOR * (pos + n))
    {
      var length := SECTOR;
      n := 1;
      next := FindNext(bitset, pos);
      var more := true;
      while more && next != -1 && length < MAX_RUN
        invariant IsRun(Flags(bitset), pos, n, next) && ValidPos(Flags(bitset), next) && length == SECTOR * n &&
          (next == -1 || next > pos)
        decreases MAX_RUN - length, more
      {
        if next != pos + length / SECTOR {
          more := false;
        } else {
          next := FindNext(bitset, next);
          length := length + SECTOR;
          n := n + 1;
        }
      }
      var offset := pos * SECTOR;
      w := Write(offset, if offset + length > bufbytes then bufbytes - offset else length);
    }

    /** One write reaches the disk. */
    method Complete(mem: seq<T>, w: Write)
      requires |disk| == |mem| && w.offset + w.length <= |mem|
      modifies this`disk
      ensures |disk| == |mem| && forall k: nat :: k < |mem| ==>
        disk[k] == if Reaches(w, k) then mem[k] else old(disk)[k]
    {
      disk := disk[..w.offset] + mem[w.offset..w.offset + w.length] + disk[w.offset + w.length..];
    }

    /** The writes submitted at the start. */
    method FirstWrites(bitset: seq<bv8>, mem: seq<T>, first: int) returns (open: seq<Write>, next: int)
      requires |disk| == |mem| && ValidPos(Flags(bitset), first) && first != -1 && WithinBuffer(bitset, |mem|)
      requires Writing(disk, disk, mem, Flags(bitset), first, [])
      ensures Writing(disk, disk, mem, Flags(bitset), next, open)
      ensures numSubreq > 0 && open == [] ==> next == -1
    {
      open, next := [], first;
      while |open| < numSubreq && next != -1
        invariant Writing(disk, disk, mem, Flags(bitset), next, open) && (open == [] ==> next == first)
        decreases numSubreq - |open|
      {
        open, next := Submit(disk, bitset, mem, next, open, open);
      }
    }

    /** Submit the next run in place of the writes not kept. */
    method Submit(ghost before: seq<T>, bitset: seq<bv8>, mem: seq<T>, pos: int, ghost open: seq<Write>,
                  kept: seq<Write>)
      returns (open': seq<Write>, next: int)
      requires Writing(before, disk, mem, Flags(bitset), pos, kept) && pos != -1 && WithinBuffer(bitset, |mem|)
      ensures Writing(before, disk, mem, Flags(bitset), next, open') && |open'| == |kept| + 1 &&
        (next == -1 || next > pos)
    {
      MarkedWithin(bitset, pos, |mem|);
      var w;
      ghost var n: nat;
      w, next, n := NextRun(bitset, pos, |mem|);
      open' := kept + [w];
      SubmitKeeps(before, disk, mem, Flags(bitset), pos, n, next, kept, w, open');
    }

    /** `random_write_internal`: until the last write has completed, in whatever order they do. */
    method RandomWrite(bitset: seq<bv8>, mem: seq<T>, first: int)
      requires |disk| == |mem| && ValidPos(Flags(bitset), first) && first != -1 && WithinBuffer(bitset, |mem|) &&
        numSubreq > 0
      requires NextSet(Flags(bitset), 0, first)
      modifies this`disk
      ensures |disk| == |mem|
      ensures forall k: nat :: k < |mem| ==>
        disk[k] == if IsSubmitted(Flags(bitset), k / SECTOR, -1) then mem[k] else old(disk)[k]
    {
      ghost var before := disk;
      NothingSubmitted(disk, mem, Flags(bitset), first);
      var open, next := FirstWrites(bitset, mem, first);
      while |open| > 0
        invariant Writing(before, disk, mem, Flags(bitset), next, open) && (open == [] ==> next == -1)
        decreases if next == -1 then 0 else |Flags(bitset)| - next, |open|
      {
        var i :| 0 <= i < |open|;
        ghost var disk0 := disk;
        assert open[i] in open;
        Complete(mem, open[i]);
        CompleteKeeps(before, disk0, disk, mem, Flags(bitset), next, open, i);
        open := open[..i] + open[i + 1..];
        if next != -1 {
          open, next := Submit(before, bitset, mem, next, open, open);
        }
      }
    }
  }

  lemma MarkedWithin(bitset: seq<bv8>, pos: nat, len: nat)
    requires WithinBuffer(bitset, len) && ValidPos(Flags(bitset), pos)
    ensures SECTOR * pos < len
  {
    FlagsAreBits(bitset);
    assert Flags(bitset)[pos] == IsSet(bitset, pos);
  }

  lemma NothingSubmitted<T>(disk: seq<T>, mem: seq<T>, flags: seq<bool>, first: int)
    requires |disk| == |mem| && ValidPos(flags, first) && first != -1 && NextSet(flags, 0, first)
    ensures Writing(disk, disk, mem, flags, first, [])
  {
  }

  /** A record whose sectors are marked, or that has not changed, is on disk as in memory. */
  lemma RecordStored<T(!new)>(l: Layout<T>, before: seq<T>, disk: seq<T>, mem: seq<T>, bitset: seq<bv8>, v: nat)
    requires Fits(l, |mem|) && v < l.n && |before| == |disk| == |mem| && |mem| <= SECTOR * (8 * |bitset|)
    requires forall k: nat :: k < |mem| ==>
      disk[k] == if IsSubmitted(Flags(bitset), k / SECTOR, -1) then mem[k] else before[k]
    requires Marked(l, bitset, v) || InSync(l, before, mem, v)
    ensures InSync(l, disk, mem, v)
  {
    FlagsAreBits(bitset);
    SectorsWithin(l, |mem|, v, |bitset|);
    forall k: nat | l.start(v) <= k < l.start(v) + l.size
      ensures disk[k] == mem[k]
    {
      ByteInSector(l, |mem|, v, k);
      if Marked(l, bitset, v) {
        assert Flags(bitset)[k / SECTOR] == IsSet(bitset, k / SECTOR);
      }
    }
  }

  /**
   `state_store` after the scatter of a superstep: if every record that differs from the disk is flagged as changed,
   all records are on disk as they are in memory afterwards.
   */
  method StateStore<T(!new)>(stream: StateStream<T>, l: Layout<T>, mem: array<T>, bitset: array<bv8>,
                             owner: nat -> nat, processors: nat)
    requires Fits(l, mem.Length) && 0 < mem.Length <= SECTOR * (8 * bitset.Length) && mem as object != bitset
    requires |stream.disk| == mem.Length && stream.numSubreq > 0 && stream as object != mem &&
      stream as object != bitset
    requires forall v: nat :: v < l.n ==> owner(v) < processors
    requires forall v: nat :: v < l.n && !l.changed(Record(l, mem[..], v)) ==> InSync(l, stream.disk, mem[..], v)
    modifies stream`disk, mem, bitset
    ensures |stream.disk| == mem.Length && forall v: nat :: v < l.n ==> InSync(l, stream.disk, mem[..], v)
    ensures forall v: nat :: v < l.n ==> Done(l, old(mem[..]), mem[..], bitset[..], v)
  {
    ghost var mem0, disk0 := mem[..], stream.disk;
    MarkChanged(l, mem, bitset, owner, processors);
    FlagsAreBits(bitset[..]);
    var first := FindFirst(bitset[..]);
    assert Flags(bitset[..])[0] == IsSet(bitset[..], 0);
    stream.RandomWrite(bitset[..], mem[..], first);
    forall v: nat | v < l.n
      ensures InSync(l, stream.disk, mem[..], v)
    {
      StoredOrSame(l, disk0, mem0, mem[..], bitset[..], v);
      RecordStored(l, disk0, stream.disk, mem[..], bitset[..], v);
    }
  }

  lemma StoredOrSame<T(!new)>(l: Layout<T>, disk: seq<T>, before: seq<T>, mem: seq<T>, bitset: seq<bv8>, v: nat)
    requires Fits(l, |mem|) && v < l.n && |before| == |disk| == |mem| && Done(l, before, mem, bitset, v)
    requires !l.changed(Record(l, before, v)) ==> InSync(l, disk, before, v)
    ensures Marked(l, bitset, v) || InSync(l, disk, mem, v)
  {
    if !l.changed(Record(l, before, v)) {
      forall k: nat | l.start(v) <= k < l.start(v) + l.size
        ensures disk[k] == mem[k]
      {
        assert Record(l, before, v)[k - l.start(v)] == Record(l, mem, v)[k - l.start(v)];
      }
    }
  }

  /**
   What the next superstep has to respect for its own store: records it touches are flagged. Then the records that are
   not flagged are still on disk as in memory.
   */
  lemma TouchedRecordsAreFlagged<T(!new)>(l: Layout<T>, disk: seq<T>, mem: seq<T>, mem': seq<T>)
    requires Fits(l, |mem|) && |mem'| == |mem| && forall v: nat :: v < l.n ==> InSync(l, disk, mem, v)
    requires forall v: nat :: v < l.n && Record(l, mem', v) != Record(l, mem, v) ==> l.changed(Record(l, mem', v))
    ensures forall v: nat :: v < l.n && !l.changed(Record(l, mem', v)) ==> InSync(l, disk, mem', v)
  {
    forall v: nat | v < l.n && !l.changed(Record(l, mem', v))
      ensures InSync(l, disk, mem', v)
    {
      assert InSync(l, disk, mem, v);
      forall k: nat | l.start(v) <= k < l.start(v) + l.size
        ensures disk[k] == mem'[k]
      {
        assert Record(l, mem', v)[k - l.start(v)] == Record(l, mem, v)[k - l.start(v)];
      }
    }
  }
}
