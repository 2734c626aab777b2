/**
 A stream on disk behind a one-page buffer: appends of any lengths, flush and rewind, reads of any lengths
 (core/disk_io.hpp 74-190, 561-599, core/split_stream.hpp 729-768). One file of one superpartition, uncompressed.
 */
module PageBuffer {

  const DISK_PAGE_SIZE: nat := 8 * 1024

  /** The last page boundary. */
  function Floor(n: nat): (f: nat)
    ensures f <= n < f + 8192 && f % 8192 == 0
  {
    n - n % DISK_PAGE_SIZE
  }

  lemma AlignedSum(a: nat, b: nat)
    requires a % DISK_PAGE_SIZE == 0 && b % DISK_PAGE_SIZE == 0
    ensures (a + b) % DISK_PAGE_SIZE == 0
  {
  }

  /** Less than a page behind a boundary the last boundary is the same. */
  lemma FloorWithin(n: nat, m: nat)
    requires n % DISK_PAGE_SIZE == 0 && m < DISK_PAGE_SIZE
    ensures Floor(n + m) == n && (n + m) % DISK_PAGE_SIZE == m
  {
  }

  /** Up to the end of the page. */
  lemma PageEnd(n: nat, m: nat)
    requires m <= DISK_PAGE_SIZE - n % DISK_PAGE_SIZE
    ensures if m == DISK_PAGE_SIZE - n % DISK_PAGE_SIZE then (n + m) % DISK_PAGE_SIZE == 0 &&
      Floor(n + m) == Floor(n) + DISK_PAGE_SIZE == n + m
            else Floor(n + m) == Floor(n) && (n + m) % DISK_PAGE_SIZE == n % DISK_PAGE_SIZE + m
  {
    var f, r := Floor(n), n % DISK_PAGE_SIZE;
    if r + m < DISK_PAGE_SIZE {
      FloorWithin(f, r + m);
    } else {
      AlignedSum(f, DISK_PAGE_SIZE);
    }
  }

  /** `stream_unit`: a page, doubled k times. */
  function Unit(k: nat): (u: nat)
    ensures u >= DISK_PAGE_SIZE && u % DISK_PAGE_SIZE == 0
  {
    if k == 0 then DISK_PAGE_SIZE else 2 * Unit(k - 1)
  }

  /** `io_size / 2`: a unit again, or less than a page when it was a single page. */
  method Halve(u: nat, ghost j: nat) returns (half: nat, ghost j': nat)
    requires u == Unit(j)
    ensures half < u && if half >= DISK_PAGE_SIZE then half == Unit(j') else u == DISK_PAGE_SIZE
  {
    half := u / 2;
    j' := if j > 0 then j - 1 else 0;
  }

  function Min(a: nat, b: nat): nat {
    if a <= b then a else b
  }

  ghost function Concat<T>(chunks: seq<seq<T>>): seq<T> {
    if chunks == [] then [] else Concat(chunks[..|chunks| - 1]) + chunks[|chunks| - 1]
  }

  /** The part lies in d from pos on. */
  ghost predicate IsPart<T>(d: seq<T>, pos: nat, part: seq<T>) {
    pos + |part| <= |d| && forall r: nat {:trigger part[r]} :: r < |part| ==> part[r] == d[pos + r]
  }

  lemma PartIsSlice<T>(d: seq<T>, pos: nat, part: seq<T>)
    requires IsPart(d, pos, part)
    ensures part == d[pos..pos + |part|]
  {
  }

  lemma PartJoin<T>(d: seq<T>, pos: nat, a: seq<T>, b: seq<T>)
    requires IsPart(d, pos, a) && IsPart(d, pos + |a|, b)
    ensures IsPart(d, pos, a + b)
  {
  }

  class PagedStream<T(0)> {
    const diskPage: array<T>
    const streamUnit: nat
    ghost const k: nat
    var file: seq<T>
    var filePos: nat
    var diskPos: nat
    var diskBytes: nat
    /** Everything appended. */
    ghost var data: seq<T>

    ghost predicate Fixed() {
      diskPage.Length == DISK_PAGE_SIZE && streamUnit == Unit(k)
    }

    /** Of the first n records of d whole pages are in the file, and the rest is in the page buffer. */
    ghost predicate Held(d: seq<T>, n: nat)
      requires Fixed()
      reads this, diskPage
    {
      && n <= |d| && filePos == |file| == Floor(n) && (forall i: nat :: i < |file| ==> file[i] == d[i])
      && forall r: nat {:trigger diskPage[r]} :: r < n - Floor(n) ==> diskPage[r] == d[Floor(n) + r]
    }

    ghost predicate Appending()
      reads this, diskPage
    {
      Fixed() && diskPos == diskBytes == |data| && Held(data, |data|)
    }

    constructor (k: nat, streamUnit: nat)
      requires streamUnit == Unit(k)
      ensures Appending() && data == [] && fresh(diskPage)
    {
      diskPage := new T[DISK_PAGE_SIZE];
      this.streamUnit, this.k := streamUnit, k;
      file, filePos, diskPos, diskBytes, data := [], 0, 0, 0, [];
    }

    /** `write_to_file`. */
    method WriteToFile(b: seq<T>)
      requires filePos <= |file|
      modifies this`file, this`filePos
      ensures filePos == old(filePos) + |b|
      ensures file == old(file)[..old(filePos)] + b + (if filePos < |old(file)| then old(file)[filePos..] else [])
    {
      file := file[..filePos] + b + (if filePos + |b| < |file| then file[filePos + |b|..] else []);
      filePos := filePos + |b|;
    }

    method CopyToPage(offset: nat, b: seq<T>)
      requires offset + |b| <= diskPage.Length
      modifies diskPage
      ensures forall r: nat {:trigger diskPage[r]} :: r < diskPage.Length ==>
        diskPage[r] == if offset <= r < offset + |b| then b[r - offset] else old(diskPage[r])
    {
      forall i | 0 <= i < |b| {
        diskPage[offset + i] := b[i];
      }
    }

    /** The page buffer is filled up first, and written when it is full. */
    method FillPage(buffer: seq<T>, pos: nat, ghost whole: seq<T>) returns (rest: seq<T>, ghost n: nat)
      requires Fixed() && Held(whole, pos) && IsPart(whole, pos, buffer) && pos + |buffer| == |whole|
      modifies this`file, this`filePos, diskPage
      ensures Held(whole, n) && IsPart(whole, n, rest) && n + |rest| == |whole| &&
        (rest == [] || n % DISK_PAGE_SIZE == 0)
    {
      var offset := pos % DISK_PAGE_SIZE;
      rest, n := buffer, pos;
      if offset > 0 {
        var m := Min(DISK_PAGE_SIZE - offset, |buffer|);
        PageEnd(pos, m);
        CopyToPage(offset, buffer[..m]);
        rest, n := buffer[m..], pos + m;
        if offset + m == DISK_PAGE_SIZE {
          WriteToFile(diskPage[..]);
        }
      }
    }

    /** One unit to the file. */
    method WriteUnit(rest: seq<T>, ioSize: nat, ghost whole: seq<T>, ghost n: nat) returns (rest': seq<T>)
      requires Fixed() && Held(whole, n) && n % DISK_PAGE_SIZE == 0 && IsPart(whole, n, rest)
      requires ioSize % DISK_PAGE_SIZE == 0 && ioSize <= |rest|
      modifies this`file, this`filePos
      ensures Held(whole, n + ioSize) && (n + ioSize) % DISK_PAGE_SIZE == 0
      ensures IsPart(whole, n + ioSize, rest') && |rest'| == |rest| - ioSize
    {
      AlignedSum(n, ioSize);
      WriteToFile(rest[..ioSize]);
      rest' := rest[ioSize..];
    }

    /** Whole pages go straight to the file, in units that are halved until they fit. */
    method WritePages(buffer: seq<T>, ghost whole: seq<T>, ghost start: nat) returns (rest: seq<T>, ghost n: nat)
      requires Fixed() && Held(whole, start) && start % DISK_PAGE_SIZE == 0 && IsPart(whole, start, buffer) &&
        start + |buffer| == |whole|
      modifies this`file, this`filePos
      ensures Held(whole, n) && n % DISK_PAGE_SIZE == 0 && IsPart(whole, n, rest) && n + |rest| == |whole| &&
        |rest| < DISK_PAGE_SIZE
    {
      rest, n := buffer, start;
      var ioSize := streamUnit;
      ghost var j := k;
      while ioSize >= DISK_PAGE_SIZE
        invariant Held(whole, n) && n % DISK_PAGE_SIZE == 0 && IsPart(whole, n, rest) && n + |rest| == |whole|
        invariant if ioSize >= DISK_PAGE_SIZE then ioSize == Unit(j) else |rest| < DISK_PAGE_SIZE
        decreases |rest|, ioSize
      {
        if ioSize > |rest| {
          ioSize, j := Halve(ioSize, j);
        } else {
          rest := WriteUnit(rest, ioSize, whole, n);
          n := n + ioSize;
        }
      }
    }

    /** `do_write_IO`. */
    method DoWrite(buffer: seq<T>, pos: nat, ghost whole: seq<T>)
      requires Fixed() && Held(whole, pos) && IsPart(whole, pos, buffer) && pos + |buffer| == |whole|
      modifies this`file, this`filePos, diskPage
      ensures Held(whole, |whole|)
    {
      var rest;
      ghost var n;
      rest, n := FillPage(buffer, pos, whole);
      if |rest| == 0 {
        return;
      }
      rest, n := WritePages(rest, whole, n);
      FloorWithin(n, |rest|);
      if |rest| > 0 {
        CopyToPage(0, rest);
      }
    }

    /** `write_internal` for one substream. */
    method Append(buffer: seq<T>)
      requires Appending()
      modifies this`file, this`filePos, this`diskPos, this`diskBytes, this`data, diskPage
      ensures Appending() && data == old(data) + buffer
    {
      var diskBufferPos := diskPos;
      diskPos := diskPos + |buffer|;
      diskBytes := diskBytes + |buffer|;
      data := data + buffer;
      DoWrite(buffer, diskBufferPos, data);
    }

    /** Between appending and reading: the tail page may have been written any number of times, one after the other. */
    ghost predicate Flushing()
      reads this, diskPage
    {
      var f := Floor(|data|);
      && Fixed() && diskPos == diskBytes == |data| && filePos == |file| && |file| % DISK_PAGE_SIZE == 0 && |file| >= f
      && (forall i: nat :: i < f ==> file[i] == data[i])
      && forall r: nat {:trigger diskPage[r]} :: r < |data| - f ==> diskPage[r] == data[f + r]
    }

    /** Everything appended is in the file. */
    ghost predicate OnDisk()
      reads this
    {
      |file| % DISK_PAGE_SIZE == 0 && |data| <= |file| && forall i: nat :: i < |data| ==> file[i] == data[i]
    }

    /** `flush_one`. */
    method FlushOne()
      requires Flushing() && (OnDisk() || |file| == Floor(|data|))
      modifies this`file, this`filePos
      ensures Flushing() && OnDisk()
    {
      var offset := diskPos % DISK_PAGE_SIZE;
      if offset > 0 {
        WriteToFile(diskPage[..]);
      }
    }

    /** `rewind`: the flush of every superpartition flushes this one too, so the tail may be written repeatedly. */
    method Rewind(flushes: nat)
      requires Appending() && flushes > 0
      modifies this`file, this`filePos, this`diskPos
      ensures Reading() && diskPos == 0
    {
      if diskPos > 0 && diskBytes > 0 {
        var i := 0;
        while i < flushes
          invariant 0 <= i <= flushes && Flushing() && (if i == 0 then |file| == Floor(|data|) else OnDisk())
        {
          FlushOne();
          i := i + 1;
        }
      }
      filePos, diskPos := 0, 0;
    }

    /**
     The page the position lies in, unless it lies on a boundary, is in the page buffer and behind the file position.
     */
    ghost predicate Reading()
      reads this, diskPage
    {
      && Fixed() && OnDisk() && diskBytes == |data| && diskPos <= |data| && ReadAhead(diskPos)
    }

    ghost predicate ReadAhead(pos: nat)
      requires Fixed()
      reads this, diskPage
    {
      && filePos == (if pos % DISK_PAGE_SIZE == 0 then pos else Floor(pos) + DISK_PAGE_SIZE) && filePos <= |file|
      && (pos % DISK_PAGE_SIZE != 0 ==> forall r: nat {:trigger diskPage[r]} :: r < DISK_PAGE_SIZE ==>
        diskPage[r] == file[Floor(pos) + r])
    }

    /** `read_from_file`. */
    method ReadFromFile(n: nat) returns (b: seq<T>)
      requires filePos + n <= |file|
      modifies this`filePos
      ensures |b| == n && IsPart(file, old(filePos), b) && filePos == old(filePos) + n
    {
      b := file[filePos..filePos + n];
      filePos := filePos + n;
    }

    /** What is left of the page buffer. */
    method ReadFromPage(bytes: nat, pos: nat) returns (part: seq<T>)
      requires Fixed() && OnDisk() && pos + bytes <= |data| && ReadAhead(pos)
      ensures |part| <= bytes && IsPart(data, pos, part) && ReadAhead(pos + |part|)
      ensures |part| == bytes || (pos + |part|) % DISK_PAGE_SIZE == 0
    {
      var offset := pos % DISK_PAGE_SIZE;
      part := [];
      if offset > 0 {
        var n := Min(bytes, DISK_PAGE_SIZE - offset);
        PageEnd(pos, n);
        part := diskPage[offset..offset + n];
      }
    }

    /** Whole pages straight from the file. */
    method ReadPages(bytes: nat, pos: nat) returns (part: seq<T>)
      requires Fixed() && OnDisk() && pos + bytes <= |data| && pos % DISK_PAGE_SIZE == 0 && ReadAhead(pos)
      modifies this`filePos
      ensures |part| <= bytes < |part| + DISK_PAGE_SIZE && IsPart(data, pos, part)
      ensures (pos + |part|) % DISK_PAGE_SIZE == 0 && ReadAhead(pos + |part|)
    {
      part := [];
      var ioSize, left := streamUnit, bytes;
      ghost var j := k;
      while ioSize >= DISK_PAGE_SIZE
        invariant 0 <= left && |part| + left == bytes && IsPart(data, pos, part)
        invariant (pos + |part|) % DISK_PAGE_SIZE == 0 && ReadAhead(pos + |part|)
        invariant if ioSize >= DISK_PAGE_SIZE then ioSize == Unit(j) else left < DISK_PAGE_SIZE
        decreases left, ioSize
      {
        if ioSize > left {
          ioSize, j := Halve(ioSize, j);
        } else {
          part := ReadUnit(part, ioSize, pos);
          left := left - ioSize;
        }
      }
    }

    method ReadUnit(part: seq<T>, ioSize: nat, ghost pos: nat) returns (part': seq<T>)
      requires Fixed() && OnDisk() && IsPart(data, pos, part) && pos + |part| + ioSize <= |data|
      requires ioSize % DISK_PAGE_SIZE == 0 && (pos + |part|) % DISK_PAGE_SIZE == 0 && ReadAhead(pos + |part|)
      modifies this`filePos
      ensures IsPart(data, pos, part') && |part'| == |part| + ioSize
      ensures (pos + |part'|) % DISK_PAGE_SIZE == 0 && ReadAhead(pos + |part'|)
    {
      AlignedSum(pos + |part|, ioSize);
      var b := ReadFromFile(ioSize);
      PartJoin(data, pos, part, b);
      part' := part + b;
    }

    /** The last, partial page comes through the page buffer. */
    method ReadTail(bytes: nat, pos: nat) returns (part: seq<T>)
      requires Fixed() && OnDisk() && pos + bytes <= |data| && pos % DISK_PAGE_SIZE == 0 && bytes < DISK_PAGE_SIZE &&
        ReadAhead(pos)
      modifies this`filePos, diskPage
      ensures |part| == bytes && IsPart(data, pos, part) && ReadAhead(pos + bytes)
    {
      part := [];
      FloorWithin(pos, bytes);
      if bytes > 0 {
        var page := ReadFromFile(DISK_PAGE_SIZE);
        CopyToPage(0, page);
        part := diskPage[..bytes];
      }
    }

    /** `read_operator` and `do_read_IO`: the next `bytes` records. */
    method Read(bytes: nat) returns (buffer: seq<T>)
      requires Reading() && diskPos + bytes <= diskBytes
      modifies this`filePos, this`diskPos, diskPage
      ensures Reading() && diskPos == old(diskPos) + bytes && |buffer| == bytes && IsPart(data, old(diskPos), buffer)
    {
      var pos := diskPos;
      diskPos := diskPos + bytes;
      buffer := ReadFromPage(bytes, pos);
      if |buffer| == bytes {
        return;
      }
      var more := ReadPages(bytes - |buffer|, pos + |buffer|);
      PartJoin(data, pos, buffer, more);
      buffer := buffer + more;
      var tail := ReadTail(bytes - |buffer|, pos + |buffer|);
      PartJoin(data, pos, buffer, tail);
      buffer := buffer + tail;
    }
  }

  /** Appends of any lengths, one after the other. */
  method AppendAll<T(0)>(stream: PagedStream<T>, chunks: seq<seq<T>>)
    requires stream.Appending() && stream.data == []
    modifies stream`file, stream`filePos, stream`diskPos, stream`diskBytes, stream`data, stream.diskPage
    ensures stream.Appending() && stream.data == Concat(chunks)
  {
    var i := 0;
    while i < |chunks|
      invariant 0 <= i <= |chunks| && stream.Appending() && stream.data == Concat(chunks[..i])
    {
      stream.Append(chunks[i]);
      assert chunks[..i + 1][..i] == chunks[..i];
      i := i + 1;
    }
    assert chunks[..i] == chunks;
  }

  /** Reads of the given lengths, as far as the stream goes. */
  method ReadAll<T(0)>(stream: PagedStream<T>, sizes: seq<nat>) returns (out: seq<T>)
    requires stream.Reading() && stream.diskPos == 0
    modifies stream`filePos, stream`diskPos, stream.diskPage
    ensures IsPart(stream.data, 0, out) && |out| == stream.diskPos && |out| == Min(Sum(sizes), |stream.data|)
  {
    out := [];
    var i := 0;
    while i < |sizes|
      invariant 0 <= i <= |sizes| && stream.Reading()
      invariant IsPart(stream.data, 0, out) && |out| == stream.diskPos && |out| == Min(Sum(sizes[..i]), |stream.data|)
    {
      var b := stream.Read(Min(sizes[i], stream.diskBytes - stream.diskPos));
      PartJoin(stream.data, 0, out, b);
      out := out + b;
      assert sizes[..i + 1][..i] == sizes[..i];
      i := i + 1;
    }
    assert sizes[..i] == sizes;
  }

  ghost function Sum(sizes: seq<nat>): nat {
    if sizes == [] then 0 else Sum(sizes[..|sizes| - 1]) + sizes[|sizes| - 1]
  }

  /** What is read is what was appended, as far as it is read, however often the tail page was flushed. */
  method RoundTrip<T(0)>(stream: PagedStream<T>, chunks: seq<seq<T>>, flushes: nat, sizes: seq<nat>)
    returns (out: seq<T>)
    requires stream.Appending() && stream.data == [] && flushes > 0
    modifies stream`file, stream`filePos, stream`diskPos, stream`diskBytes, stream`data, stream.diskPage
    ensures out == Concat(chunks)[..Min(Sum(sizes), |Concat(chunks)|)]
  {
    AppendAll(stream, chunks);
    stream.Rewind(flushes);
    out := ReadAll(stream, sizes);
    PartIsSlice(stream.data, 0, out);
  }
}
