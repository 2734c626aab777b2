/**
 The filter file of an edge file: created, updated incrementally, and determined by the edges (core/sg_driver.hpp
 381-540).
 */
module BloomIndex {
  import opened Bitshuffle
  import opened BitshufflePasses
  import opened BitshuffleBlocks
  import opened BloomHash
  import opened BloomFilters

  /** A binary file written through a position. */
  class FilterFile {
    var contents: seq<bv8>
    var pos: nat

    constructor ()
      ensures contents == [] && pos == 0
    {
      contents := [];
      pos := 0;
    }

    /** `fseeko(fp, p, SEEK_SET)`. */
    method Seek(p: nat)
      modifies this
      ensures pos == p && contents == old(contents)
    {
      pos := p;
    }

    /** `fwrite`: overwrites, and extends at the end. */
    method Write(b: seq<bv8>)
      requires pos <= |contents|
      modifies this
      ensures pos == old(pos) + |b|
      ensures contents == old(contents)[..old(pos)] + b + (if pos < |old(contents)| then old(contents)[pos..] else [])
    {
      contents := contents[..pos] + b + (if pos + |b| < |contents| then contents[pos + |b|..] else []);
      pos := pos + |b|;
    }
  }

  /** The edges of group g: epb of them, fewer in the last group. */
  function GroupWords(words: seq<nat>, epb: nat, g: nat): seq<nat>
    requires At(g, epb, 0) <= |words|
  {
    words[At(g, epb, 0)..if At(g, epb, epb) <= |words| then At(g, epb, epb) else |words|]
  }

  /** The bytes of group g in the file. */
  function GroupBytes(file: seq<bv8>, size: nat, g: nat): seq<bv8>
    requires At(g, size, size) <= |file|
  {
    file[At(g, size, 0)..At(g, size, size)]
  }

  ghost predicate GroupStored(hash: Hash, words: seq<nat>, bpp: nat, es: nat, file: seq<bv8>, g: nat) {
    && At(g, SIMD_LEN * bpp, 0) <= |words| && At(g, SIMD_LEN * es, SIMD_LEN * es) <= |file|
    && GroupRows(hash, GroupWords(words, SIMD_LEN * bpp, g), bpp, es, GroupBytes(file, SIMD_LEN * es, g))
  }

  /** Just enough groups for n edges. */
  predicate Enough(n: nat, epb: nat, groups: nat) {
    n <= At(groups, epb, 0) && (groups > 0 ==> At(groups - 1, epb, 0) < n)
  }

  /** `filter_group` of `sanity_check` is the number of groups. */
  lemma EnoughIsRoundedUp(n: nat, epb: nat, groups: nat)
    requires epb > 0
    ensures Enough(n, epb, groups) <==> groups == if n % epb != 0 then n / epb + 1 else n / epb
  {
    var q, r := n / epb, n % epb;
    assert n == At(q, epb, r);
    if Enough(n, epb, groups) && groups > 0 {
      if groups - 1 > q { MulMonotone(q + 1, groups - 1, epb); }
      if groups < q { MulMonotone(groups, q, epb); MulMonotone(groups + 1, q, epb); }
    }
    if Enough(n, epb, groups) && groups == 0 && q > 0 {
      MulMonotone(1, q, epb);
    }
  }

  ghost predicate StoredUpTo(hash: Hash, words: seq<nat>, bpp: nat, es: nat, file: seq<bv8>, groups: nat) {
    forall g: nat :: g < groups ==> GroupStored(hash, words, bpp, es, file, g)
  }

  /** The file is the index of exactly these edges. */
  ghost predicate IsIndex(hash: Hash, words: seq<nat>, bpp: nat, es: nat, file: seq<bv8>, groups: nat) {
    && Enough(|words|, SIMD_LEN * bpp, groups)
    && |file| == At(groups, SIMD_LEN * es, 0)
    && StoredUpTo(hash, words, bpp, es, file, groups)
  }

  /** Two indexes of the same edges are the same file. */
  lemma IndexUnique(hash: Hash, words: seq<nat>, bpp: nat, es: nat, file: seq<bv8>, file': seq<bv8>, groups: nat,
                    groups': nat)
    requires IsIndex(hash, words, bpp, es, file, groups) && IsIndex(hash, words, bpp, es, file', groups')
    ensures groups == groups' && file == file'
  {
    SameGroups(|words|, SIMD_LEN * bpp, groups, groups');
    forall k | 0 <= k < |file|
      ensures file[k] == file'[k]
    {
      var g, c := AtSurjective(k, groups, SIMD_LEN * es);
      assert GroupStored(hash, words, bpp, es, file, g) && GroupStored(hash, words, bpp, es, file', g);
      GroupRowsUnique(hash, GroupWords(words, SIMD_LEN * bpp, g), bpp, es, GroupBytes(file, SIMD_LEN * es, g),
        GroupBytes(file', SIMD_LEN * es, g));
      SameBytes(file, file', SIMD_LEN * es, g, c);
    }
  }

  lemma SameBytes(file: seq<bv8>, file': seq<bv8>, size: nat, g: nat, c: nat)
    requires At(g, size, size) <= |file| && At(g, size, size) <= |file'| && c < size
    requires GroupBytes(file, size, g) == GroupBytes(file', size, g)
    ensures file[At(g, size, c)] == file'[At(g, size, c)]
  {
    assert GroupBytes(file, size, g)[c] == file[At(g, size, 0) + c];
    assert GroupBytes(file', size, g)[c] == file'[At(g, size, 0) + c];
  }

  lemma SameGroups(n: nat, epb: nat, groups: nat, groups': nat)
    requires Enough(n, epb, groups) && Enough(n, epb, groups')
    ensures groups == groups'
  {
    if groups < groups' {
      MulMonotone(groups, groups' - 1, epb);
    } else if groups' < groups {
      MulMonotone(groups', groups - 1, epb);
    }
  }

  lemma GroupEnd(g: nat, groups: nat, size: nat)
    requires g < groups
    ensures At(g, size, size) == At(g + 1, size, 0) <= At(groups, size, 0)
  {
    MulMonotone(g + 1, groups, size);
  }

  /** Writing group g at its place stores it and keeps the groups before it. */
  lemma WriteStores(hash: Hash, words: seq<nat>, bpp: nat, es: nat, file: seq<bv8>, file': seq<bv8>, rows: seq<bv8>,
                    g: nat)
    requires StoredUpTo(hash, words, bpp, es, file, g)
    requires At(g, SIMD_LEN * bpp, 0) <= |words| && GroupRows(hash, GroupWords(words, SIMD_LEN * bpp, g), bpp, es, rows)
    requires At(g, SIMD_LEN * es, 0) <= |file| && At(g, SIMD_LEN * es, SIMD_LEN * es) <= |file'|
    requires file'[..At(g, SIMD_LEN * es, 0)] == file[..At(g, SIMD_LEN * es, 0)]
    requires GroupBytes(file', SIMD_LEN * es, g) == rows
    ensures StoredUpTo(hash, words, bpp, es, file', g + 1)
  {
    var size, upTo := SIMD_LEN * es, At(g, SIMD_LEN * es, 0);
    forall b: nat | b < g + 1
      ensures GroupStored(hash, words, bpp, es, file', b)
    {
      if b < g {
        GroupEnd(b, g, size);
        assert GroupBytes(file', size, b) == file'[..upTo][At(b, size, 0)..At(b, size, size)];
        assert GroupBytes(file, size, b) == file[..upTo][At(b, size, 0)..At(b, size, size)];
        assert GroupStored(hash, words, bpp, es, file, b);
      }
    }
  }

  /** Compute the filters of a full (or the last) buffer of edges and write them. */
  method WriteGroup(form: Form, hash: Hash, ghost words: seq<nat>, bpp: nat, es: nat, file: FilterFile, buf: seq<nat>,
                    ghost g: nat)
    requires bpp > 0 && es >= 4 && Ranged(hash, 8 * es)
    requires At(g, SIMD_LEN * bpp, 0) <= |words| && buf == GroupWords(words, SIMD_LEN * bpp, g)
    requires file.pos == At(g, SIMD_LEN * es, 0) <= |file.contents| &&
      StoredUpTo(hash, words, bpp, es, file.contents, g)
    modifies file
    ensures file.pos == At(g + 1, SIMD_LEN * es, 0)
    ensures |file.contents| == if file.pos <= |old(file.contents)| then |old(file.contents)| else file.pos
    ensures StoredUpTo(hash, words, bpp, es, file.contents, g + 1)
  {
    var rows := GroupFilters(form, hash, buf, bpp, es);
    ghost var before := file.contents;
    file.Write(rows);
    GroupEnd(g, g + 1, SIMD_LEN * es);
    assert GroupBytes(file.contents, SIMD_LEN * es, g) == rows;
    WriteStores(hash, words, bpp, es, before, file.contents, rows, g);
  }

  /**
   `edge_distribution` with one superpartition, from `startEdge` on: edges are gathered in a buffer whose filters
   are computed and written when it is full, and once more for what is left at the end.
   */
  method EdgeDistribution(form: Form, hash: Hash, words: seq<nat>, startEdge: nat, bpp: nat, es: nat, file: FilterFile,
                          ghost first: nat, ghost groups: nat)
    requires bpp > 0 && es >= 4 && Ranged(hash, 8 * es)
    requires startEdge == At(first, SIMD_LEN * bpp, 0) <= |words| && Enough(|words|, SIMD_LEN * bpp, groups)
    requires file.pos == At(first, SIMD_LEN * es, 0) <= |file.contents| <= At(groups, SIMD_LEN * es, 0)
    requires StoredUpTo(hash, words, bpp, es, file.contents, first)
    modifies file
    ensures IsIndex(hash, words, bpp, es, file.contents, groups)
  {
    var epb := SIMD_LEN * bpp;
    var i := startEdge;
    var buf: seq<nat> := [];
    ghost var g := first;
    while i < |words|
      invariant Gathering(hash, words, bpp, es, groups, g, i, buf, file.contents, file.pos)
    {
      var readEdge := if epb <= |words| - i then epb else |words| - i;
      var j := 0;
      while j < readEdge
        invariant 0 <= j <= readEdge
        invariant Gathering(hash, words, bpp, es, groups, g, i + j, buf, file.contents, file.pos)
      {
        buf, g := AddToBuffer(form, hash, words, bpp, es, file, buf, i + j, g, groups);
        j := j + 1;
      }
      i := i + readEdge;
    }
    Flush(form, hash, words, bpp, es, file, buf, g, groups);
  }

  /** The groups before g are written and the edges from there to i are in the buffer. */
  ghost predicate Gathering(hash: Hash, words: seq<nat>, bpp: nat, es: nat, groups: nat, g: nat, i: nat, buf: seq<nat>,
                            contents: seq<bv8>, pos: nat) {
    && At(g, SIMD_LEN * bpp, 0) <= i <= |words| && buf == words[At(g, SIMD_LEN * bpp, 0)..i] && |buf| < SIMD_LEN * bpp
    && pos == At(g, SIMD_LEN * es, 0) <= |contents| <= At(groups, SIMD_LEN * es, 0)
    && StoredUpTo(hash, words, bpp, es, contents, g)
  }

  /** One edge into the buffer, and out with it when it is full. */
  method AddToBuffer(form: Form, hash: Hash, words: seq<nat>, bpp: nat, es: nat, file: FilterFile, buf: seq<nat>,
                     k: nat,
                     ghost g: nat, ghost groups: nat) returns (buf': seq<nat>, ghost g': nat)
    requires bpp > 0 && es >= 4 && Ranged(hash, 8 * es) && Enough(|words|, SIMD_LEN * bpp, groups) && k < |words|
    requires Gathering(hash, words, bpp, es, groups, g, k, buf, file.contents, file.pos)
    modifies file
    ensures Gathering(hash, words, bpp, es, groups, g', k + 1, buf', file.contents, file.pos)
  {
    buf', g' := buf + [words[k]], g;
    if |buf'| == SIMD_LEN * bpp {
      GroupNeeded(|words|, SIMD_LEN * bpp, g, groups);
      GroupEnd(g, groups, SIMD_LEN * es);
      WriteGroup(form, hash, words, bpp, es, file, buf', g);
      GroupEnd(g, g + 1, SIMD_LEN * bpp);
      buf', g' := [], g + 1;
    }
  }

  /** The last, shorter group. */
  method Flush(form: Form, hash: Hash, ghost words: seq<nat>, bpp: nat, es: nat, file: FilterFile, buf: seq<nat>,
               ghost g: nat,
               ghost groups: nat)
    requires bpp > 0 && es >= 4 && Ranged(hash, 8 * es) && Enough(|words|, SIMD_LEN * bpp, groups)
    requires Gathering(hash, words, bpp, es, groups, g, |words|, buf, file.contents, file.pos)
    modifies file
    ensures IsIndex(hash, words, bpp, es, file.contents, groups)
  {
    if |buf| != 0 {
      GroupNeeded(|words|, SIMD_LEN * bpp, g, groups);
      GroupEnd(g, groups, SIMD_LEN * es);
      WriteGroup(form, hash, words, bpp, es, file, buf, g);
      AllGroups(|words|, SIMD_LEN * bpp, g + 1, groups, |buf|);
    } else {
      AllGroups(|words|, SIMD_LEN * bpp, g, groups, 0);
    }
  }

  /** Edges beyond the groups written so far need a further group. */
  lemma GroupNeeded(n: nat, epb: nat, g: nat, groups: nat)
    requires Enough(n, epb, groups) && At(g, epb, 0) < n
    ensures g < groups
  {
    if groups <= g {
      MulMonotone(groups, g, epb);
    }
  }

  lemma AllGroups(n: nat, epb: nat, g: nat, groups: nat, left: nat)
    requires Enough(n, epb, groups) && left < epb
    requires if left == 0 then At(g, epb, 0) == n else g > 0 && At(g - 1, epb, left) == n
    ensures g == groups
  {
    if left == 0 {
      if g > 0 {
        assert At(g - 1, epb, epb) == At(g, epb, 0);
      }
    } else {
      assert At(g - 1, epb, epb) == At(g, epb, 0);
    }
    SameGroups(n, epb, g, groups);
  }

  /** `bf_mode` create: a new file, from the first edge on. */
  method Create(form: Form, hash: Hash, words: seq<nat>, bpp: nat, es: nat, ghost groups: nat)
    returns (file: FilterFile)
    requires bpp > 0 && es >= 4 && Ranged(hash, 8 * es) && Enough(|words|, SIMD_LEN * bpp, groups)
    ensures fresh(file) && IsIndex(hash, words, bpp, es, file.contents, groups)
  {
    file := new FilterFile();
    EdgeDistribution(form, hash, words, 0, bpp, es, file, 0, groups);
  }

  /** `bf_mode` update: recompute from the old last group on. */
  method Update(form: Form, hash: Hash, ghost before: seq<nat>, words: seq<nat>, bpp: nat, es: nat, file: FilterFile,
                ghost oldGroups: nat, ghost groups: nat)
    requires bpp > 0 && es >= 4 && Ranged(hash, 8 * es)
    requires before != [] && before <= words && Enough(|words|, SIMD_LEN * bpp, groups)
    requires IsIndex(hash, before, bpp, es, file.contents, oldGroups)
    modifies file
    ensures IsIndex(hash, words, bpp, es, file.contents, groups)
  {
    var epb, bufSize := SIMD_LEN * bpp, SIMD_LEN * es;
    ghost var first := oldGroups - 1;
    GroupsOfSize(|file.contents|, bufSize, oldGroups);
    var startEdge := (|file.contents| / bufSize - 1) * epb;
    StartGroup(startEdge, epb, first);
    file.Seek(startEdge / epb * bufSize);
    KeptGroups(hash, before, words, bpp, es, file.contents, first);
    GroupEnd(first, oldGroups, bufSize);
    GroupNeeded(|words|, epb, first, groups);
    MulMonotone(oldGroups, groups, bufSize);
    EdgeDistribution(form, hash, words, startEdge, bpp, es, file, first, groups);
  }

  /** The filter groups of n edges. */
  function GroupsFor(n: nat, epb: nat): (groups: nat)
    requires epb > 0
    ensures Enough(n, epb, groups)
  {
    var groups := if n % epb != 0 then n / epb + 1 else n / epb;
    EnoughIsRoundedUp(n, epb, groups);
    groups
  }

  /**
   Creating the index of a graph and updating it to a longer one leaves the file that creating it anew would leave.
   */
  method UpdateEqualsRebuild(form: Form, form': Form, hash: Hash, before: seq<nat>, words: seq<nat>, bpp: nat, es: nat)
    returns (updated: FilterFile, rebuilt: FilterFile)
    requires bpp > 0 && es >= 4 && Ranged(hash, 8 * es) && before != [] && before <= words
    ensures updated.contents == rebuilt.contents
    ensures IsIndex(hash, words, bpp, es, updated.contents, GroupsFor(|words|, SIMD_LEN * bpp))
  {
    ghost var oldGroups, groups := GroupsFor(|before|, SIMD_LEN * bpp), GroupsFor(|words|, SIMD_LEN * bpp);
    updated := Create(form, hash, before, bpp, es, oldGroups);
    Update(form, hash, before, words, bpp, es, updated, oldGroups, groups);
    rebuilt := Create(form', hash, words, bpp, es, groups);
    IndexUnique(hash, words, bpp, es, updated.contents, rebuilt.contents, groups, groups);
  }

  lemma GroupsOfSize(len: nat, size: nat, groups: nat)
    requires size > 0 && len == At(groups, size, 0)
    ensures len / size == groups
  {
    RemainderOfMultiple(groups, size);
  }

  lemma RemainderOfMultiple(q: nat, m: nat)
    requires m > 0
    ensures At(q, m, 0) / m == q
  {
    var n := At(q, m, 0);
    AtInjective(q, 0, n / m, n % m, m);
  }

  lemma StartGroup(startEdge: nat, epb: nat, first: nat)
    requires epb > 0 && startEdge == first * epb
    ensures startEdge == At(first, epb, 0) && startEdge / epb == first
  {
    RemainderOfMultiple(first, epb);
  }

  /** All groups but the old last one are full and stay as they are. */
  lemma KeptGroups(hash: Hash, before: seq<nat>, words: seq<nat>, bpp: nat, es: nat, file: seq<bv8>, first: nat)
    requires before <= words && At(first, SIMD_LEN * bpp, 0) <= |before|
    requires StoredUpTo(hash, before, bpp, es, file, first)
    ensures StoredUpTo(hash, words, bpp, es, file, first)
  {
    forall g: nat | g < first
      ensures GroupStored(hash, words, bpp, es, file, g)
    {
      assert GroupStored(hash, before, bpp, es, file, g);
      GroupEnd(g, first, SIMD_LEN * bpp);
      assert GroupWords(words, SIMD_LEN * bpp, g) == GroupWords(before, SIMD_LEN * bpp, g);
    }
  }
}
