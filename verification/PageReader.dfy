/**
 The selective page reader: only the pages whose bits are set are read, neighbouring pages in one request and
 several requests at a time (core/disk_io.hpp 192-297, core/split_stream.hpp 405-413, 547-627).
 */
module PageReader {
  import opened Bitshuffle
  import opened BitshufflePasses
  import opened BloomIndex
  import opened BloomQuery

  // ---------- which bits are set ----------

  /** The bits of a bitset, one flag to a page. */
  ghost predicate FlagsOf(bitset: seq<bv8>, flags: seq<bool>) {
    |flags| == 8 * |bitset| && forall p: nat :: p < |flags| ==> flags[p] == IsSet(bitset, p)
  }

  /** The same, as a function of the bitset. */
  ghost function FlagsUpTo(bitset: seq<bv8>, n: nat): (flags: seq<bool>)
    ensures |flags| == n
  {
    if n == 0 then [] else FlagsUpTo(bitset, n - 1) + [IsSet(bitset, n - 1)]
  }

  ghost function Flags(bitset: seq<bv8>): seq<bool> {
    FlagsUpTo(bitset, 8 * |bitset|)
  }

  lemma {:induction false} FlagUpTo(bitset: seq<bv8>, n: nat, p: nat)
    requires p < n
    ensures FlagsUpTo(bitset, n)[p] == IsSet(bitset, p)
  {
    if p < n - 1 {
      FlagUpTo(bitset, n - 1, p);
    }
  }

  lemma FlagsAreBits(bitset: seq<bv8>)
    ensures FlagsOf(bitset, Flags(bitset))
  {
    forall p: nat | p < 8 * |bitset|
      ensures Flags(bitset)[p] == IsSet(bitset, p)
    {
      FlagUpTo(bitset, 8 * |bitset|, p);
    }
  }

  /** r is the first set page from `from` on, -1 if there is none. */
  predicate NextSet(flags: seq<bool>, from: nat, r: int) {
    if r == -1 then forall p: nat :: from <= p < |flags| ==> !flags[p]
    else from <= r < |flags| && flags[r] && forall p: nat :: from <= p < r ==> !flags[p]
  }

  /** A byte is 0 exactly when none of its bits is set. */
  lemma ZeroByteHasNoBits(b: bv8)
    ensures b == 0 <==> forall j: nat :: j < 8 ==> !Bit(b, j)
  {
    if forall j: nat :: j < 8 ==> !Bit(b, j) {
      var z := ZeroByte();
      BitsDetermineByte(b, z);
    }
  }

  /** The scan of one non-zero byte. */
  method FirstBit(bitset: seq<bv8>, ghost flags: seq<bool>, i: nat) returns (r: nat)
    requires FlagsOf(bitset, flags) && i < |bitset| && bitset[i] != 0
    ensures 8 * i <= r < 8 * i + 8 && flags[r] && forall p: nat :: 8 * i <= p < r ==> !flags[p]
  {
    ZeroByteHasNoBits(bitset[i]);
    var j := 0;
    while j < 8
      invariant 0 <= j <= 8 && forall c: nat :: c < j ==> !Bit(bitset[i], c)
      invariant forall p: nat :: 8 * i <= p < 8 * i + j ==> !flags[p]
    {
      assert flags[8 * i + j] == IsSet(bitset, 8 * i + j);
      if Bit(bitset[i], j) {
        return 8 * i + j;
      }
      j := j + 1;
    }
    assert false;
  }

  /** The byte-wise scan shared by `find_first` and `find_next`. */
  method ScanBytes(bitset: seq<bv8>, ghost flags: seq<bool>, start: nat) returns (r: int)
    requires FlagsOf(bitset, flags)
    ensures NextSet(flags, 8 * start, r)
  {
    var i := start;
    while i < |bitset|
      invariant start <= i
      invariant forall p: nat :: 8 * start <= p < 8 * i && p < |flags| ==> !flags[p]
    {
      if bitset[i] != 0 {
        r := FirstBit(bitset, flags, i);
        return;
      }
      NoBitsInByte(bitset, flags, i);
      i := i + 1;
    }
    r := -1;
  }

  lemma NoBitsInByte(bitset: seq<bv8>, flags: seq<bool>, i: nat)
    requires FlagsOf(bitset, flags) && i < |bitset| && bitset[i] == 0
    ensures forall p: nat :: 8 * i <= p < 8 * i + 8 ==> !flags[p]
  {
    ZeroByteHasNoBits(bitset[i]);
    forall p: nat | 8 * i <= p < 8 * i + 8
      ensures !flags[p]
    {
      assert flags[p] == IsSet(bitset, p) && p / 8 == i;
    }
  }

  /** `find_first`. */
  method FindFirst(bitset: seq<bv8>) returns (r: int)
    ensures NextSet(Flags(bitset), 0, r)
  {
    FlagsAreBits(bitset);
    r := ScanBytes(bitset, Flags(bitset), 0);
  }

  /** `find_next`: the rest of the byte bit by bit, then byte by byte. */
  method FindNext(bitset: seq<bv8>, last: int) returns (r: int)
    requires last == -1 || 0 <= last < |Flags(bitset)|
    ensures last == -1 ==> r == -1
    ensures last != -1 ==> NextSet(Flags(bitset), last + 1, r)
  {
    ghost var flags := Flags(bitset);
    FlagsAreBits(bitset);
    if last == -1 {
      return -1;
    }
    var next := last + 1;
    while next % 8 != 0
      invariant last < next <= |flags| && forall p: nat :: last < p < next ==> !flags[p]
      decreases |flags| - next
    {
      if Bit(bitset[next / 8], next % 8) {
        assert flags[next] == IsSet(bitset, next);
        return next;
      }
      assert flags[next] == IsSet(bitset, next);
      next := next + 1;
    }
    r := ScanBytes(bitset, flags, next / 8);
  }

  // ---------- the pages to be read ----------

  /** Where page p starts: p * sub, counted up so that proofs about positions stay linear. */
  ghost function Start(sub: nat, p: nat): nat {
    if p == 0 then 0 else Start(sub, p - 1) + sub
  }

  lemma {:induction false} StartIsProduct(sub: nat, p: nat)
    ensures Start(sub, p) == p * sub == At(p, sub, 0)
  {
    if p > 0 {
      StartIsProduct(sub, p - 1);
      assert p * sub == (p - 1) * sub + sub;
    }
  }

  lemma {:induction false} StartSum(sub: nat, p: nat, n: nat)
    ensures Start(sub, p + n) == Start(sub, p) + Start(sub, n)
  {
    if n > 0 {
      StartSum(sub, p, n - 1);
    }
  }

  lemma StartMonotone(sub: nat, p: nat, q: nat)
    requires p <= q
    ensures Start(sub, p) <= Start(sub, q)
  {
    StartSum(sub, p, q - p);
  }

  /** Positions past the end of the file are its end. */
  function Clamp(len: nat, k: nat): nat {
    if k <= len then k else len
  }

  /** The records of n neighbouring pages, the last one cut at the end of the file. */
  ghost function Stretch<T>(disk: seq<T>, sub: nat, cur: nat, n: nat): seq<T> {
    StartSum(sub, cur, n);
    disk[Clamp(|disk|, Start(sub, cur))..Clamp(|disk|, Start(sub, cur + n))]
  }

  /** The set pages from `from` on, in ascending order. */
  ghost function Selected<T>(disk: seq<T>, sub: nat, flags: seq<bool>, from: nat): seq<T>
    decreases |flags| - from
  {
    if from >= |flags| then []
    else if flags[from] then Stretch(disk, sub, from, 1) + Selected(disk, sub, flags, from + 1)
    else Selected(disk, sub, flags, from + 1)
  }

  ghost predicate ValidPos(flags: seq<bool>, r: int) {
    r == -1 || (0 <= r < |flags| && flags[r])
  }

  /** What a reader positioned at r still has to deliver. */
  ghost function Remaining<T>(disk: seq<T>, sub: nat, flags: seq<bool>, r: int): seq<T>
    requires ValidPos(flags, r)
  {
    if r == -1 then [] else Selected(disk, sub, flags, r)
  }

  lemma {:induction false} SkipUnset<T>(disk: seq<T>, sub: nat, flags: seq<bool>, from: nat, r: int)
    requires NextSet(flags, from, r)
    ensures Selected(disk, sub, flags, from) == Remaining(disk, sub, flags, r)
    decreases |flags| - from
  {
    if from < |flags| && from != r {
      SkipUnset(disk, sub, flags, from + 1, r);
    }
  }

  /** Set pages start before the end of the file. */
  ghost predicate WellPlaced(flags: seq<bool>, sub: nat, len: nat) {
    forall p: nat :: p < |flags| && flags[p] ==> Start(sub, p) < len
  }

  // ---------- one request: a run of neighbouring pages ----------

  /** The pages from `cur` on that are set without a gap: n of them, and `next` is the set page after them. */
  predicate IsRun(flags: seq<bool>, cur: nat, n: nat, next: int) {
    n > 0 && cur + n <= |flags| && (forall p: nat :: cur <= p < cur + n ==> flags[p]) && NextSet(flags, cur + n, next)
  }

  /** A run is one stretch of the disk. */
  lemma {:induction false} RunIsStretch<T>(disk: seq<T>, sub: nat, flags: seq<bool>, cur: nat, n: nat, next: int)
    requires IsRun(flags, cur, n, next)
    ensures Selected(disk, sub, flags, cur) == Stretch(disk, sub, cur, n) + Remaining(disk, sub, flags, next)
    decreases n
  {
    if n == 1 {
      SkipUnset(disk, sub, flags, cur + 1, next);
    } else {
      RunIsStretch(disk, sub, flags, cur + 1, n - 1, next);
      LongerStretch(disk, sub, cur, n - 1, Remaining(disk, sub, flags, next));
    }
  }

  lemma LongerStretch<T>(disk: seq<T>, sub: nat, cur: nat, n: nat, rest: seq<T>)
    ensures Stretch(disk, sub, cur, 1) + (Stretch(disk, sub, cur + 1, n) + rest) ==
      Stretch(disk, sub, cur, n + 1) + rest
  {
    StartSum(sub, cur, 1);
    StartSum(sub, cur + 1, n);
    JoinSlices(disk, Clamp(|disk|, Start(sub, cur)), Clamp(|disk|, Start(sub, cur + 1)),
      Clamp(|disk|, Start(sub, cur + n + 1)), rest);
  }

  /** A run starts within the file, and ends there unless it is the last. */
  lemma RunFits(len: nat, sub: nat, flags: seq<bool>, cur: nat, n: nat, next: int)
    requires sub > 0 && WellPlaced(flags, sub, len) && IsRun(flags, cur, n, next)
    ensures Start(sub, cur) < len && Start(sub, n) > 0 && Start(sub, cur + n) == Start(sub, cur) + Start(sub, n)
    ensures next != -1 ==> Start(sub, cur + n) < len
  {
    StartSum(sub, cur, n);
    if next != -1 {
      StartMonotone(sub, cur + n, next);
    }
  }

  /** The request takes the run off what remains. */
  lemma Taken<T>(disk: seq<T>, sub: nat, flags: seq<bool>, cur: nat, n: nat, next: int, offset: nat, length: nat)
    requires IsRun(flags, cur, n, next) && offset == Start(sub, cur) <= |disk| &&
      offset + length == Clamp(|disk|, Start(sub, cur + n))
    ensures Remaining(disk, sub, flags, cur) == disk[offset..offset + length] + Remaining(disk, sub, flags, next)
  {
    RunIsStretch(disk, sub, flags, cur, n, next);
  }

  lemma JoinSlices<T>(s: seq<T>, a: nat, mid: nat, end: nat, rest: seq<T>)
    requires a <= mid <= end <= |s|
    ensures s[a..mid] + (s[mid..end] + rest) == s[a..end] + rest
  {
  }

  /** A read in flight: `length` records from `offset` of the file to position `at` of the buffer. */
  datatype Request = Request(at: nat, offset: nat, length: nat)

  /** The request fetches what belongs at its place in the buffer. */
  ghost predicate Reads<T>(disk: seq<T>, issued: seq<T>, r: Request) {
    && r.at + r.length <= |issued| && r.offset + r.length <= |disk|
    && disk[r.offset..r.offset + r.length] == issued[r.at..r.at + r.length]
  }

  predicate Covers(r: Request, k: nat) {
    r.at <= k < r.at + r.length
  }

  /** Every position of the buffer that has been asked for is right, or a request for it is in flight. */
  ghost predicate InFlight<T>(disk: seq<T>, buffer: seq<T>, issued: seq<T>, open: seq<Request>) {
    && |issued| <= |buffer|
    && (forall r :: r in open ==> Reads(disk, issued, r))
    && forall k: nat :: k < |issued| ==> buffer[k] == issued[k] || exists r :: r in open && Covers(r, k)
  }

  lemma IssueKeeps<T>(disk: seq<T>, buffer: seq<T>, issued: seq<T>, issued': seq<T>, open: seq<Request>, r: Request,
                      open': seq<Request>)
    requires InFlight(disk, buffer, issued, open) && r.at == |issued| && |issued'| <= |buffer|
    requires r.offset + r.length <= |disk| && issued' == issued + disk[r.offset..r.offset + r.length]
    requires forall x :: x in open' <==> x in open || x == r
    ensures InFlight(disk, buffer, issued', open')
  {
    forall x | x in open'
      ensures Reads(disk, issued', x)
    {
      if x in open {
        assert issued'[x.at..x.at + x.length] == issued[x.at..x.at + x.length];
      }
    }
    forall k: nat | k < |issued'|
      ensures buffer[k] == issued'[k] || exists x :: x in open' && Covers(x, k)
    {
      if k < |issued| {
        if x :| x in open && Covers(x, k) {
          assert x in open';
        }
      } else {
        assert r in open' && Covers(r, k);
      }
    }
  }

  lemma Completed<T>(disk: seq<T>, before: seq<T>, buffer: seq<T>, issued: seq<T>, open: seq<Request>, i: nat)
    requires InFlight(disk, before, issued, open) && i < |open| && |buffer| == |before| && Reads(disk, issued, open[i])
    requires forall k: nat :: k < |issued| ==>
      buffer[k] == if Covers(open[i], k) then disk[open[i].offset + k - open[i].at] else before[k]
    ensures InFlight(disk, buffer, issued, open[..i] + open[i + 1..])
  {
    var r, rest := open[i], open[..i] + open[i + 1..];
    assert Reads(disk, issued, r);
    forall k: nat | k < |issued|
      ensures buffer[k] == issued[k] || exists x :: x in rest && Covers(x, k)
    {
      if Covers(r, k) {
        assert issued[k] == issued[r.at..r.at + r.length][k - r.at];
      } else if before[k] != issued[k] {
        var x :| x in open && Covers(x, k);
        assert x in rest;
      }
    }
  }

  datatype Option<T> = None | Some(value: T)

  class DiskStream<T(0)> {
    const disk: seq<T>
    const sub: nat
    const bufbytes: nat
    const numSubreq: nat
    /** Whole pages in a buffer. */
    ghost const bufPages: nat
    var bitset: seq<bv8>
    ghost var flags: seq<bool>
    var randomPos: int
    var diskPos: nat
    /** The buffer filled by reading ahead. */
    var request: Option<seq<T>>

    ghost predicate Valid()
      reads this
    {
      && sub > 0 && numSubreq > 0 && bufPages > 0 && bufbytes == Start(sub, bufPages)
      && flags == Flags(bitset) && WellPlaced(flags, sub, |disk|) && ValidPos(flags, randomPos)
      && (diskPos == |disk| <==> randomPos == -1)
    }

    /** What has not been requested from the disk yet. */
    ghost function Left(): seq<T>
      requires Valid()
      reads this
    {
      Remaining(disk, sub, flags, randomPos)
    }

    /** `set_bitset`, on a stream that has been rewound. */
    constructor (disk: seq<T>, sub: nat, ghost bufPages: nat, bufbytes: nat, numSubreq: nat, bitset: seq<bv8>,
                 ghost flags: seq<bool>)
      requires sub > 0 && numSubreq > 0 && bufPages > 0 && bufbytes == Start(sub, bufPages)
      requires flags == Flags(bitset) && WellPlaced(flags, sub, |disk|) && exists p: nat :: p < |flags| && flags[p]
      ensures Valid() && request.None? && this.disk == disk && this.sub == sub && this.flags == flags
      ensures Left() == Selected(disk, sub, flags, 0)
    {
      this.disk, this.sub, this.bufbytes, this.numSubreq := disk, sub, bufbytes, numSubreq;
      this.bufPages := bufPages;
      this.bitset, this.flags, diskPos, request := bitset, flags, 0, None;
      var first := FindFirst(bitset);
      randomPos := first;
      SkipUnset(disk, sub, flags, 0, first);
    }

    /** `search_and_update_next_positions`: the next request, as long a run of set pages as fits the buffer. */
    method SearchAndUpdate(ghost donePages: nat, processed: nat) returns (offset: nat, length: nat, ghost n: nat)
      requires Valid() && randomPos != -1 && processed == Start(sub, donePages) && donePages < bufPages
      modifies this`randomPos, this`diskPos
      ensures Valid() && length > 0 && processed + length <= bufbytes && offset + length <= |disk|
      ensures old(Left()) == disk[offset..offset + length] + Left()
      ensures randomPos == -1 || randomPos > old(randomPos)
      ensures randomPos != -1 ==> length == Start(sub, n) && donePages + n <= bufPages
    {
      var cur := randomPos;
      length, n := Grow(donePages, processed);
      RoomTaken(donePages, n, bufPages, sub);
      offset := Offset(cur);
      RunFits(|disk|, sub, flags, cur, n, randomPos);
      length := Cut(cur, n, offset, length);
      Taken(disk, sub, flags, cur, n, randomPos, offset, length);
    }

    method Offset(cur: nat) returns (offset: nat)
      ensures offset == Start(sub, cur)
    {
      StartIsProduct(sub, cur);
      offset := cur * sub;
    }

    /** The length of the run that starts at the current position. */
    method Grow(ghost donePages: nat, processed: nat) returns (length: nat, ghost n: nat)
      requires Valid() && randomPos != -1 && processed == Start(sub, donePages) && donePages < bufPages
      modifies this`randomPos
      ensures IsRun(flags, old(randomPos), n, randomPos)
      ensures length == Start(sub, n) && donePages + n <= bufPages
    {
      var cur := randomPos;
      length := sub;
      n := 1;
      randomPos := FindNext(bitset, randomPos);
      var more := true;
      while more && randomPos != -1 && processed + length < bufbytes
        invariant IsRun(flags, cur, n, randomPos)
        invariant length == Start(sub, n) && donePages + n <= bufPages
        decreases bufPages - n, more
      {
        RoomFor(donePages, n, bufPages, sub);
        more := Extend(cur, length, n);
        if more {
          StartSum(sub, n, 1);
          length := length + sub;
          n := n + 1;
        }
      }
    }

    /** Take in the next set page if it is the neighbour. */
    method Extend(cur: nat, length: nat, ghost n: nat) returns (more: bool)
      requires sub > 0 && flags == Flags(bitset) && randomPos != -1
      requires IsRun(flags, cur, n, randomPos) && length == Start(sub, n)
      modifies this`randomPos
      ensures IsRun(flags, cur, if more then n + 1 else n, randomPos)
    {
      StartIsProduct(sub, n);
      RemainderOfMultiple(n, sub);
      if randomPos != cur + length / sub {
        return false;
      }
      randomPos := FindNext(bitset, randomPos);
      more := true;
    }

    /** The end of the request and the new position in the file: the last page may be cut at the end of the file. */
    method Cut(ghost cur: nat, ghost n: nat, offset: nat, length: nat) returns (cut: nat)
      requires offset == Start(sub, cur) && length == Start(sub, n)
      requires 0 < length && Start(sub, cur + n) == offset + length
      requires offset < |disk| && (randomPos != -1 ==> offset + length < |disk|)
      modifies this`diskPos
      ensures 0 < cut <= length && offset + cut == Clamp(|disk|, offset + length)
      ensures diskPos == |disk| <==> randomPos == -1
      ensures randomPos != -1 ==> cut == length
    {
      cut := length;
      if offset + length > |disk| {
        diskPos := |disk|;
        cut := |disk| - offset;
      } else if randomPos == -1 {
        diskPos := |disk|;
      } else {
        diskPos := offset + length;
      }
    }

    ghost predicate Progress(issued: seq<T>, bufsize: nat, donePages: nat, whole: seq<T>)
      requires Valid()
      reads this
    {
      && |issued| == bufsize <= bufbytes && whole == issued + Left()
      && (randomPos != -1 ==> bufsize == Start(sub, donePages) && donePages <= bufPages)
    }

    /** Prepare and submit the next read. */
    method Issue(ghost issued: seq<T>, bufsize: nat, ghost donePages: nat, ghost whole: seq<T>)
      returns (r: Request, ghost issued': seq<T>, ghost donePages': nat)
      requires Valid() && randomPos != -1 && bufsize < bufbytes && Progress(issued, bufsize, donePages, whole)
      modifies this`randomPos, this`diskPos
      ensures Valid() && (randomPos == -1 || randomPos > old(randomPos))
      ensures r.at == bufsize && r.length > 0 && r.offset + r.length <= |disk|
      ensures issued' == issued + disk[r.offset..r.offset + r.length]
      ensures Progress(issued', bufsize + r.length, donePages', whole)
    {
      RoomFor(donePages, 0, bufPages, sub);
      var offset, length;
      ghost var n: nat;
      offset, length, n := SearchAndUpdate(donePages, bufsize);
      r := Request(bufsize, offset, length);
      issued' := issued + disk[offset..offset + length];
      donePages' := donePages + n;
      StartSum(sub, donePages, n);
    }

    /** The data of one request arrive. */
    method Complete(buffer: array<T>, r: Request)
      requires r.at + r.length <= buffer.Length && r.offset + r.length <= |disk|
      modifies buffer
      ensures forall k: nat :: k < buffer.Length ==>
        buffer[k] == if Covers(r, k) then disk[r.offset + k - r.at] else old(buffer[k])
    {
      forall k | 0 <= k < r.length {
        buffer[r.at + k] := disk[r.offset + k];
      }
      assert forall k: nat :: Covers(r, k) ==> k == r.at + (k - r.at);
    }

    /**
     `random_read_operator`: up to `numSubreq` requests in flight; whichever completes next is replaced by the next
     run of pages, until the pages or the buffer are exhausted.
     */
    method RandomRead() returns (buffer: array<T>, bufsize: nat)
      requires Valid() && randomPos != -1
      modifies this`randomPos, this`diskPos
      ensures Valid() && fresh(buffer) && 0 < bufsize <= bufbytes == buffer.Length
      ensures old(Left()) == buffer[..bufsize] + Left()
      ensures randomPos == -1 || randomPos > old(randomPos)
    {
      buffer := new T[bufbytes];
      ghost var issued: seq<T> := [];
      ghost var donePages: nat := 0;
      var open: seq<Request> := [];
      bufsize := 0;
      RoomFor(0, 0, bufPages, sub);
      open, bufsize, issued, donePages := FirstRequests(buffer);
      while |open| > 0
        invariant Valid() && Progress(issued, bufsize, donePages, old(Left())) && bufsize > 0
        invariant InFlight(disk, buffer[..], issued, open)
        invariant randomPos == -1 || randomPos > old(randomPos)
        decreases if randomPos == -1 then 0 else |flags| - randomPos, |open|
      {
        var i :| 0 <= i < |open|;
        open, bufsize, issued, donePages := OneEvent(buffer, open, i, bufsize, issued, donePages, old(Left()));
      }
      assert buffer[..bufsize] == issued;
    }

    /** The requests submitted at the start. */
    method FirstRequests(buffer: array<T>)
      returns (open: seq<Request>, bufsize: nat, ghost issued: seq<T>, ghost donePages: nat)
      requires Valid() && randomPos != -1 && buffer.Length == bufbytes > 0
      modifies this`randomPos, this`diskPos
      ensures Valid() && Progress(issued, bufsize, donePages, old(Left())) && bufsize > 0
      ensures InFlight(disk, buffer[..], issued, open)
      ensures randomPos == -1 || randomPos > old(randomPos)
    {
      open, bufsize, issued, donePages := [], 0, [], 0;
      while |open| < numSubreq && randomPos != -1 && bufsize < bufbytes
        invariant Valid() && Progress(issued, bufsize, donePages, old(Left()))
        invariant InFlight(disk, buffer[..], issued, open)
        invariant if |open| == 0 then randomPos == old(randomPos) && bufsize == 0
                  else bufsize > 0 && (randomPos == -1 || randomPos > old(randomPos))
        decreases numSubreq - |open|
      {
        var r;
        ghost var before := issued;
        r, issued, donePages := Issue(issued, bufsize, donePages, old(Left()));
        Submitted(open, r, open + [r]);
        IssueKeeps(disk, buffer[..], before, issued, open, r, open + [r]);
        open := open + [r];
        bufsize := bufsize + r.length;
      }
    }

    /** One completion, and the request that takes its place, if any. */
    method OneEvent(buffer: array<T>, open: seq<Request>, i: nat, bufsize: nat, ghost issued: seq<T>,
                    ghost donePages: nat, ghost whole: seq<T>)
      returns (open': seq<Request>, bufsize': nat, ghost issued': seq<T>, ghost donePages': nat)
      requires Valid() && Progress(issued, bufsize, donePages, whole) && buffer.Length == bufbytes
      requires InFlight(disk, buffer[..], issued, open) && i < |open|
      modifies this`randomPos, this`diskPos, buffer
      ensures Valid() && Progress(issued', bufsize', donePages', whole) && bufsize' >= bufsize
      ensures InFlight(disk, buffer[..], issued', open')
      ensures
        if old(randomPos) == -1 then randomPos == -1
        else randomPos == -1 || randomPos > old(randomPos) || (randomPos == old(randomPos) && |open'| < |open|)
      ensures randomPos == old(randomPos) ==> |open'| < |open|
    {
      ghost var before := buffer[..];
      assert Reads(disk, issued, open[i]);
      Complete(buffer, open[i]);
      Completed(disk, before, buffer[..], issued, open, i);
      if randomPos != -1 && bufsize < bufbytes {
        var r;
        r, issued', donePages' := Issue(issued, bufsize, donePages, whole);
        open' := open[i := r];
        bufsize' := bufsize + r.length;
        Replaced(open, i, r, open', open[..i] + open[i + 1..]);
        IssueKeeps(disk, buffer[..], issued, issued', open[..i] + open[i + 1..], r, open');
      } else {
        open' := open[..i] + open[i + 1..];
        bufsize', issued', donePages' := bufsize, issued, donePages;
      }
    }

    /** `stream_eof`. */
    predicate StreamEof()
      reads this
    {
      request.None? && diskPos == |disk|
    }

    /** What reads of the stream will still return: the buffer read ahead, then the rest. */
    ghost function ToRead(): seq<T>
      requires Valid()
      reads this
    {
      (if request.Some? then request.value else []) + Left()
    }

    /** `read`: the requested buffer, the next one being requested ahead unless the file is exhausted. */
    method Read() returns (result: seq<T>)
      requires Valid() && !StreamEof() && (request.Some? ==> |request.value| <= bufbytes)
      modifies this`randomPos, this`diskPos, this`request
      ensures Valid() && |result| <= bufbytes && (request.Some? ==> |request.value| <= bufbytes)
      ensures old(ToRead()) == result + ToRead()
      ensures Rank() < old(Rank())
    {
      if request.None? {
        var buffer, bufsize := RandomRead();
        request := Some(buffer[..bufsize]);
      }
      result := request.value;
      if diskPos != |disk| {
        var buffer, bufsize := RandomRead();
        request := Some(buffer[..bufsize]);
      } else {
        request := None;
      }
    }

    /** Set pages left, roughly, and a buffer read ahead. */
    ghost function Rank(): nat
      requires Valid()
      reads this
    {
      (if randomPos == -1 then 0 else 2 * (|flags| - randomPos)) + if request.Some? then 1 else 0
    }

    /** The loop of `do_stream` over the buffers of the stream. */
    method ReadAll() returns (out: seq<T>)
      requires Valid() && request.None?
      modifies this`randomPos, this`diskPos, this`request
      ensures Valid() && StreamEof() && out == old(Left())
    {
      out := [];
      while !StreamEof()
        invariant Valid() && out + ToRead() == old(Left())
        invariant request.Some? ==> |request.value| <= bufbytes
        decreases Rank()
      {
        ghost var whole := ToRead();
        var buffer := Read();
        JoinBuffer(out, buffer, ToRead(), whole);
        out := out + buffer;
      }
    }
  }

  lemma JoinBuffer<T>(out: seq<T>, buffer: seq<T>, rest: seq<T>, whole: seq<T>)
    requires whole == buffer + rest
    ensures out + whole == (out + buffer) + rest
  {
  }

  lemma Submitted(open: seq<Request>, r: Request, now: seq<Request>)
    requires now == open + [r]
    ensures forall x :: x in now <==> x in open || x == r
  {
  }

  lemma Replaced(open: seq<Request>, i: nat, r: Request, now: seq<Request>, rest: seq<Request>)
    requires i < |open| && now == open[i := r] && rest == open[..i] + open[i + 1..]
    ensures forall x :: x in now <==> x in rest || x == r
  {
    forall x | x in now
      ensures x in rest || x == r
    {
      var j :| 0 <= j < |open| && now[j] == x;
      assert j != i ==> rest[if j < i then j else j - 1] == x;
    }
    forall x | x in rest
      ensures x in now
    {
      var j :| 0 <= j < |rest| && rest[j] == x;
      assert now[if j < i then j else j + 1] == x;
    }
    assert now[i] == r;
  }

  lemma RoomTaken(done: nat, n: nat, pages: nat, sub: nat)
    requires done + n <= pages
    ensures Start(sub, done) + Start(sub, n) <= Start(sub, pages)
  {
    StartSum(sub, done, n);
    StartMonotone(sub, done + n, pages);
  }

  /** A buffer that is not full takes another whole page. */
  lemma RoomFor(done: nat, n: nat, pages: nat, sub: nat)
    requires sub > 0
    ensures Start(sub, done) + Start(sub, n) < Start(sub, pages) <==> done + n < pages
  {
    StartSum(sub, done, n);
    if done + n < pages {
      StartMonotone(sub, done + n + 1, pages);
    } else {
      StartMonotone(sub, pages, done + n);
    }
  }
}
