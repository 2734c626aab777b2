/** The order in which MBFSort sorts edges (update_utility/MBFSort/MBFSort.cpp 43-82): total, whatever the hash. */
module EdgeOrder {
  import opened Bits
  import opened BloomHash

  datatype SimpleEdge = SimpleEdge(src: nat, dst: nat)

  // ---------- lexicographic comparison ----------

  /** The first difference decides; neither is less if there is none. */
  predicate LexLess(a: seq<nat>, b: seq<nat>)
    requires |a| == |b|
  {
    if a == [] then false
    else if a[0] != b[0] then a[0] < b[0]
    else LexLess(a[1..], b[1..])
  }

  lemma {:induction false} LexTotal(a: seq<nat>, b: seq<nat>)
    requires |a| == |b|
    ensures (LexLess(a, b) && !LexLess(b, a) && a != b) || (LexLess(b, a) && !LexLess(a, b) && a != b) ||
      (a == b && !LexLess(a, b))
  {
    if a != [] {
      LexTotal(a[1..], b[1..]);
      assert a == [a[0]] + a[1..] && b == [b[0]] + b[1..];
    }
  }

  lemma {:induction false} LexTransitive(a: seq<nat>, b: seq<nat>, c: seq<nat>)
    requires |a| == |b| == |c| && LexLess(a, b) && LexLess(b, c)
    ensures LexLess(a, c)
  {
    if a[0] == b[0] == c[0] {
      LexTransitive(a[1..], b[1..], c[1..]);
    }
  }

  /** An equal start leaves the decision to the rest. */
  lemma {:induction false} LexAppend(a: seq<nat>, b: seq<nat>, c: seq<nat>, d: seq<nat>)
    requires |a| == |b| && |c| == |d|
    ensures LexLess(a + c, b + d) == (LexLess(a, b) || (a == b && LexLess(c, d)))
  {
    if a == [] {
      assert a + c == c && b + d == d;
    } else {
      assert (a + c)[1..] == a[1..] + c && (b + d)[1..] == b[1..] + d;
      assert a == [a[0]] + a[1..] && b == [b[0]] + b[1..];
      LexAppend(a[1..], b[1..], c, d);
    }
  }

  // ---------- the keys of an edge ----------

  /** Insertion into a sorted list: `sort` on four numbers. */
  function Insert(x: nat, s: seq<nat>): (r: seq<nat>)
    ensures |r| == |s| + 1
  {
    if s == [] || x <= s[0] then [x] + s else [s[0]] + Insert(x, s[1..])
  }

  function Sorted4(p: Positions): (r: seq<nat>)
    ensures |r| == 4
  {
    Insert(p.a, Insert(p.b, Insert(p.c, Insert(p.d, []))))
  }

  /** `hash_val[j] &= (1 << i) - 1`. */
  function LowBits(p: Positions, i: nat): Positions {
    Positions(And(p.a, Pow2(i) - 1), And(p.b, Pow2(i) - 1), And(p.c, Pow2(i) - 1), And(p.d, Pow2(i) - 1))
  }

  /** The sorted low i bits of the four hashes, for i from `from` to `upTo`. */
  function BitKeys(p: Positions, from: nat, upTo: nat): (r: seq<nat>)
    ensures from <= upTo + 1 ==> |r| == 4 * (upTo + 1 - from)
    decreases upTo + 1 - from
  {
    if from > upTo then [] else Sorted4(LowBits(p, from)) + BitKeys(p, from + 1, upTo)
  }

  /** Everything operator< looks at, in its order. */
  function Key(crc: Crc, setBits: nat, e: SimpleEdge): seq<nat> {
    BitKeys(HashPositions(crc, e.src, Pow2(setBits)), 1, setBits) + [e.src, e.dst]
  }

  predicate Less(crc: Crc, setBits: nat, a: SimpleEdge, b: SimpleEdge) {
    LexLess(Key(crc, setBits, a), Key(crc, setBits, b))
  }

  /** The inner loop over the four sorted values: the first difference, if any. */
  method CompareFour(a: seq<nat>, b: seq<nat>) returns (less: bool, more: bool)
    requires |a| == |b| == 4
    ensures less == LexLess(a, b) && more == LexLess(b, a)
  {
    var j := 0;
    LexTotal(a, b);
    while j < 4
      invariant 0 <= j <= 4 && LexLess(a, b) == LexLess(a[j..], b[j..]) && LexLess(b, a) == LexLess(b[j..], a[j..])
    {
      if a[j] < b[j] {
        return true, false;
      } else if a[j] > b[j] {
        return false, true;
      }
      assert a[j..][1..] == a[j + 1..] && b[j..][1..] == b[j + 1..];
      j := j + 1;
    }
    return false, false;
  }

  /** The outer loop: more and more bits of the hashes, until they tell the edges apart. */
  method CompareBits(hashA: Positions, hashB: Positions, setBits: nat) returns (less: bool, more: bool)
    ensures less == LexLess(BitKeys(hashA, 1, setBits), BitKeys(hashB, 1, setBits))
    ensures more == LexLess(BitKeys(hashB, 1, setBits), BitKeys(hashA, 1, setBits))
  {
    var i := 1;
    while i <= setBits
      invariant 1 <= i <= setBits + 1
      invariant LexLess(BitKeys(hashA, 1, setBits), BitKeys(hashB, 1, setBits)) ==
        LexLess(BitKeys(hashA, i, setBits), BitKeys(hashB, i, setBits))
      invariant LexLess(BitKeys(hashB, 1, setBits), BitKeys(hashA, 1, setBits)) ==
        LexLess(BitKeys(hashB, i, setBits), BitKeys(hashA, i, setBits))
    {
      less, more := CompareRound(hashA, hashB, i, setBits);
      if less || more {
        return;
      }
      i := i + 1;
    }
    return false, false;
  }

  /** One round: the low i bits, masked and sorted. */
  method CompareRound(hashA: Positions, hashB: Positions, i: nat, ghost setBits: nat) returns (less: bool, more: bool)
    requires i <= setBits
    ensures LexLess(BitKeys(hashA, i, setBits), BitKeys(hashB, i, setBits)) ==
      if less then true else if more then false
        else LexLess(BitKeys(hashA, i + 1, setBits), BitKeys(hashB, i + 1, setBits))
    ensures LexLess(BitKeys(hashB, i, setBits), BitKeys(hashA, i, setBits)) ==
      if less then false else if more then true
        else LexLess(BitKeys(hashB, i + 1, setBits), BitKeys(hashA, i + 1, setBits))
    ensures !(less && more)
  {
    var comA, comB := Sorted4(LowBits(hashA, i)), Sorted4(LowBits(hashB, i));
    less, more := CompareFour(comA, comB);
    LexTotal(comA, comB);
    Peel(comA, comB, BitKeys(hashA, i + 1, setBits), BitKeys(hashB, i + 1, setBits));
  }

  /** Four values that differ decide; otherwise the rest does. */
  lemma Peel(a: seq<nat>, b: seq<nat>, restA: seq<nat>, restB: seq<nat>)
    requires |a| == |b| && |restA| == |restB|
    ensures LexLess(a + restA, b + restB) == if LexLess(a, b) then true else if LexLess(b, a) then false
      else LexLess(restA, restB)
    ensures LexLess(b + restB, a + restA) == if LexLess(a, b) then false else if LexLess(b, a) then true
      else LexLess(restB, restA)
  {
    LexAppend(a, b, restA, restB);
    LexAppend(b, a, restB, restA);
    LexTotal(a, b);
  }

  lemma LexPairs(a: nat, b: nat, c: nat, d: nat)
    ensures LexLess([a, b], [c, d]) == (a < c || (a == c && b < d))
  {
    assert [a, b][1..] == [b] && [c, d][1..] == [d];
    assert LexLess([b], [d]) == (b < d) by {
      assert [b][1..] == [] && [d][1..] == [];
    }
  }

  // ---------- the order, without the keys ----------

  ghost predicate Ascending(s: seq<nat>) {
    forall i: nat, j: nat :: i < j < |s| ==> s[i] <= s[j]
  }

  /** s is smaller where it first differs from t. */
  ghost predicate SmallerFirst(s: seq<nat>, t: seq<nat>) {
    exists j: nat :: SmallerAt(s, t, j)
  }

  ghost predicate SmallerAt(s: seq<nat>, t: seq<nat>, j: nat) {
    j < |s| && j < |t| && s[j] < t[j] && forall k: nat :: k < j ==> s[k] == t[k]
  }

  /** Four hashes, order aside. */
  ghost function Values(p: Positions): multiset<nat> {
    multiset{p.a, p.b, p.c, p.d}
  }

  /** The masked hashes are the hashes modulo 2^i. */
  lemma LowBitsAreRemainders(p: Positions, i: nat)
    ensures LowBits(p, i) == Positions(p.a % Pow2(i), p.b % Pow2(i), p.c % Pow2(i), p.d % Pow2(i))
  {
    MaskIsRemainder(p.a, i);
    MaskIsRemainder(p.b, i);
    MaskIsRemainder(p.c, i);
    MaskIsRemainder(p.d, i);
  }

  /** Round i does not tell the hashes apart. */
  ghost predicate Agree(p: Positions, q: Positions, i: nat) {
    Values(LowBits(p, i)) == Values(LowBits(q, i))
  }

  /** s lists the low i bits of the four hashes in ascending order. */
  ghost predicate Arranges(s: seq<nat>, p: Positions, i: nat) {
    Ascending(s) && multiset(s) == Values(LowBits(p, i))
  }

  /** Round i is the first of rounds `from` to `upTo` to tell the hashes apart. */
  ghost predicate FirstRound(p: Positions, q: Positions, from: nat, upTo: nat, i: nat) {
    && from <= i <= upTo && !Agree(p, q, i)
    && forall k: nat :: from <= k < i ==> Agree(p, q, k)
  }

  lemma Prepend(x: nat, s: seq<nat>)
    requires Ascending(s) && (s == [] || x <= s[0])
    ensures Ascending([x] + s) && multiset([x] + s) == multiset(s) + multiset{x}
  {
    var r := [x] + s;
    forall i: nat, j: nat | i < j < |r|
      ensures r[i] <= r[j]
    {
      assert r[j] == s[j - 1] && s[0] <= s[j - 1];
      assert i > 0 ==> r[i] == s[i - 1];
    }
  }

  lemma Rest(s: seq<nat>)
    requires Ascending(s) && s != []
    ensures Ascending(s[1..]) && (s[1..] == [] || s[0] <= s[1..][0]) && [s[0]] + s[1..] == s
    ensures multiset(s) == multiset(s[1..]) + multiset{s[0]}
  {
    var r := s[1..];
    forall i: nat, j: nat | i < j < |r|
      ensures r[i] <= r[j]
    {
      assert r[i] == s[i + 1] && r[j] == s[j + 1];
    }
    assert [s[0]] + r == s;
  }

  lemma LeastFirst(s: seq<nat>, x: nat)
    requires Ascending(s) && x in multiset(s)
    ensures s != [] && s[0] <= x
  {
    assert x in s;
  }

  lemma {:induction false} InsertSorts(x: nat, s: seq<nat>)
    requires Ascending(s)
    ensures Ascending(Insert(x, s)) && multiset(Insert(x, s)) == multiset(s) + multiset{x}
    ensures Insert(x, s)[0] == if s == [] || x <= s[0] then x else s[0]
  {
    if s == [] || x <= s[0] {
      Prepend(x, s);
    } else {
      Rest(s);
      InsertSorts(x, s[1..]);
      Prepend(s[0], Insert(x, s[1..]));
    }
  }

  /** `sort` on four numbers arranges them in ascending order and loses none. */
  lemma Sorted4Sorts(p: Positions)
    ensures Ascending(Sorted4(p)) && multiset(Sorted4(p)) == multiset{p.a, p.b, p.c, p.d}
  {
    var one := Insert(p.d, []);
    InsertSorts(p.d, []);
    var two := Insert(p.c, one);
    InsertSorts(p.c, one);
    var three := Insert(p.b, two);
    InsertSorts(p.b, two);
    InsertSorts(p.a, three);
    FourElements(p.a, p.b, p.c, p.d, multiset(one), multiset(two), multiset(three), multiset(Sorted4(p)));
  }

  lemma FourElements(a: nat, b: nat, c: nat, d: nat, one: multiset<nat>, two: multiset<nat>, three: multiset<nat>,
                     four: multiset<nat>)
    requires one == multiset{} + multiset{d} && two == one + multiset{c} && three == two + multiset{b}
    requires four == three + multiset{a}
    ensures four == multiset{a, b, c, d}
  {
  }

  lemma Sorted4Arranges(p: Positions, i: nat)
    ensures Arranges(Sorted4(LowBits(p, i)), p, i)
  {
    Sorted4Sorts(LowBits(p, i));
  }

  lemma Cancel(a: multiset<nat>, b: multiset<nat>, x: nat)
    requires a + multiset{x} == b + multiset{x}
    ensures a == b
  {
    assert a == (a + multiset{x}) - multiset{x} && b == (b + multiset{x}) - multiset{x};
  }

  lemma SameFirst(s: seq<nat>, t: seq<nat>)
    requires Ascending(s) && Ascending(t) && multiset(s) == multiset(t) && s != []
    ensures t != [] && s[0] == t[0] && multiset(s[1..]) == multiset(t[1..])
  {
    assert s[0] in multiset(s);
    LeastFirst(t, s[0]);
    assert t[0] in multiset(t);
    LeastFirst(s, t[0]);
    Rest(s);
    Rest(t);
    Cancel(multiset(s[1..]), multiset(t[1..]), s[0]);
  }

  /** There is one ascending arrangement. */
  lemma {:induction false} AscendingUnique(s: seq<nat>, t: seq<nat>)
    requires Ascending(s) && Ascending(t) && multiset(s) == multiset(t)
    ensures s == t
    decreases |s|
  {
    if s != [] {
      SameFirst(s, t);
      Rest(s);
      Rest(t);
      var s', t' := s[1..], t[1..];
      AscendingUnique(s', t');
      assert s == [s[0]] + s' && t == [t[0]] + t';
    } else if t != [] {
      SameFirst(t, s);
    }
  }

  lemma {:induction false} LexIsSmallerFirst(a: seq<nat>, b: seq<nat>)
    requires |a| == |b|
    ensures LexLess(a, b) <==> SmallerFirst(a, b)
  {
    if a != [] {
      var s, t := a[1..], b[1..];
      LexIsSmallerFirst(s, t);
      if a[0] < b[0] {
        assert SmallerAt(a, b, 0);
      } else if a[0] == b[0] {
        if j: nat :| SmallerAt(s, t, j) {
          assert SmallerAt(a, b, j + 1);
        }
        if j: nat :| SmallerAt(a, b, j) {
          assert SmallerAt(s, t, j - 1);
        }
      }
    }
  }

  /** Rounds that tell nothing apart leave equal keys. */
  lemma {:induction false} RoundsAgree(p: Positions, q: Positions, from: nat, upTo: nat)
    requires forall k: nat :: from <= k <= upTo ==> Agree(p, q, k)
    ensures BitKeys(p, from, upTo) == BitKeys(q, from, upTo)
    decreases upTo + 1 - from
  {
    if from <= upTo {
      SameArrangement(p, q, from);
      RoundsAgree(p, q, from + 1, upTo);
    }
  }

  lemma SameArrangement(p: Positions, q: Positions, i: nat)
    ensures Agree(p, q, i) <==> Sorted4(LowBits(p, i)) == Sorted4(LowBits(q, i))
  {
    Sorted4Arranges(p, i);
    Sorted4Arranges(q, i);
    if Agree(p, q, i) {
      AscendingUnique(Sorted4(LowBits(p, i)), Sorted4(LowBits(q, i)));
    }
  }

  /** The first of the rounds whose arrangements differ decides. */
  lemma {:induction false} FirstDifferenceDecides(p: Positions, q: Positions, from: nat, upTo: nat, i: nat)
    requires from <= i <= upTo && Sorted4(LowBits(p, i)) != Sorted4(LowBits(q, i))
    requires forall k: nat :: from <= k < i ==> Sorted4(LowBits(p, k)) == Sorted4(LowBits(q, k))
    ensures BitKeys(p, from, upTo) != BitKeys(q, from, upTo)
    ensures LexLess(BitKeys(p, from, upTo), BitKeys(q, from, upTo)) <==>
            LexLess(Sorted4(LowBits(p, i)), Sorted4(LowBits(q, i)))
    decreases upTo + 1 - from
  {
    var next := from + 1;
    KeysStep(p, q, from, next, upTo);
    if from < i {
      FirstDifferenceDecides(p, q, next, upTo, i);
    }
  }

  lemma KeysStep(p: Positions, q: Positions, from: nat, next: nat, upTo: nat)
    requires from <= upTo && next == from + 1
    ensures BitKeys(p, from, upTo) == BitKeys(q, from, upTo) <==>
            Sorted4(LowBits(p, from)) == Sorted4(LowBits(q, from)) && BitKeys(p, next, upTo) == BitKeys(q, next, upTo)
    ensures LexLess(BitKeys(p, from, upTo), BitKeys(q, from, upTo)) <==>
            if Sorted4(LowBits(p, from)) == Sorted4(LowBits(q, from))
            then LexLess(BitKeys(p, next, upTo), BitKeys(q, next, upTo))
            else LexLess(Sorted4(LowBits(p, from)), Sorted4(LowBits(q, from)))
  {
    var a, b := Sorted4(LowBits(p, from)), Sorted4(LowBits(q, from));
    var restA, restB := BitKeys(p, next, upTo), BitKeys(q, next, upTo);
    KeysSplit(a, b, restA, restB);
    assert BitKeys(p, from, upTo) == a + restA && BitKeys(q, from, upTo) == b + restB;
  }

  /** Keys with different starts differ, and the starts decide; with equal starts the rest does. */
  lemma KeysSplit(a: seq<nat>, b: seq<nat>, restA: seq<nat>, restB: seq<nat>)
    requires |a| == |b| && |restA| == |restB|
    ensures a + restA == b + restB <==> a == b && restA == restB
    ensures LexLess(a + restA, b + restB) <==> if a == b then LexLess(restA, restB) else LexLess(a, b)
  {
    SplitEqual(a, b, restA, restB);
    LexAppend(a, b, restA, restB);
    LexTotal(a, b);
  }

  /** Otherwise the keys differ, and the first round that tells the hashes apart decides. */
  lemma FirstRoundDecides(p: Positions, q: Positions, from: nat, upTo: nat, i: nat)
    requires FirstRound(p, q, from, upTo, i)
    ensures BitKeys(p, from, upTo) != BitKeys(q, from, upTo)
    ensures LexLess(BitKeys(p, from, upTo), BitKeys(q, from, upTo)) <==>
            LexLess(Sorted4(LowBits(p, i)), Sorted4(LowBits(q, i)))
  {
    SameArrangement(p, q, i);
    forall k: nat | from <= k < i
      ensures Sorted4(LowBits(p, k)) == Sorted4(LowBits(q, k))
    {
      SameArrangement(p, q, k);
    }
    FirstDifferenceDecides(p, q, from, upTo, i);
  }

  lemma SplitEqual(a: seq<nat>, b: seq<nat>, restA: seq<nat>, restB: seq<nat>)
    requires |a| == |b|
    ensures a + restA == b + restB <==> a == b && restA == restB
  {
    assert (a + restA)[..|a|] == a && (a + restA)[|a|..] == restA;
    assert (b + restB)[..|b|] == b && (b + restB)[|b|..] == restB;
  }

  /** Edges whose hashes agree in every round, order aside, compare by source and destination. */
  lemma LessByEnds(crc: Crc, setBits: nat, a: SimpleEdge, b: SimpleEdge)
    requires forall k: nat :: 1 <= k <= setBits ==>
      Agree(HashPositions(crc, a.src, Pow2(setBits)), HashPositions(crc, b.src, Pow2(setBits)), k)
    ensures Less(crc, setBits, a, b) <==> a.src < b.src || (a.src == b.src && a.dst < b.dst)
  {
    var p, q := HashPositions(crc, a.src, Pow2(setBits)), HashPositions(crc, b.src, Pow2(setBits));
    RoundsAgree(p, q, 1, setBits);
    LexAppend(BitKeys(p, 1, setBits), BitKeys(q, 1, setBits), [a.src, a.dst], [b.src, b.dst]);
    LexTotal(BitKeys(p, 1, setBits), BitKeys(q, 1, setBits));
    LexPairs(a.src, a.dst, b.src, b.dst);
  }

  /** Otherwise the first round that tells them apart decides, by the smaller value where their arrangements differ. */
  lemma LessByRound(crc: Crc, setBits: nat, a: SimpleEdge, b: SimpleEdge, i: nat, s: seq<nat>, t: seq<nat>)
    requires
      FirstRound(HashPositions(crc, a.src, Pow2(setBits)), HashPositions(crc, b.src, Pow2(setBits)), 1, setBits, i)
    requires Arranges(s, HashPositions(crc, a.src, Pow2(setBits)), i)
    requires Arranges(t, HashPositions(crc, b.src, Pow2(setBits)), i)
    ensures Less(crc, setBits, a, b) <==> SmallerFirst(s, t)
  {
    var p, q := HashPositions(crc, a.src, Pow2(setBits)), HashPositions(crc, b.src, Pow2(setBits));
    FirstRoundDecides(p, q, 1, setBits, i);
    LexAppend(BitKeys(p, 1, setBits), BitKeys(q, 1, setBits), [a.src, a.dst], [b.src, b.dst]);
    Sorted4Arranges(p, i);
    Sorted4Arranges(q, i);
    AscendingUnique(s, Sorted4(LowBits(p, i)));
    AscendingUnique(t, Sorted4(LowBits(q, i)));
    LexIsSmallerFirst(s, t);
  }

  /** No round tells the hashes apart. */
  ghost predicate SameRounds(p: Positions, q: Positions, setBits: nat) {
    forall k: nat :: 1 <= k <= setBits ==> Agree(p, q, k)
  }

  /** Round i is the first to tell the hashes apart, and of their ascending arrangements s and t s is the smaller. */
  ghost predicate DecidedBy(p: Positions, q: Positions, setBits: nat, i: nat, s: seq<nat>, t: seq<nat>) {
    FirstRound(p, q, 1, setBits, i) && Arranges(s, p, i) && Arranges(t, q, i) && SmallerFirst(s, t)
  }

  /** The order of the edges, said without the keys. */
  ghost predicate ComesFirst(crc: Crc, setBits: nat, a: SimpleEdge, b: SimpleEdge) {
    var p, q := HashPositions(crc, a.src, Pow2(setBits)), HashPositions(crc, b.src, Pow2(setBits));
    || (exists i: nat, s: seq<nat>, t: seq<nat> :: DecidedBy(p, q, setBits, i, s, t))
    || (SameRounds(p, q, setBits) && (a.src < b.src || (a.src == b.src && a.dst < b.dst)))
  }

  lemma LeastFailing(holds: nat -> bool, from: nat, k: nat) returns (i: nat)
    requires from <= k && !holds(k)
    ensures from <= i <= k && !holds(i) && forall j: nat :: from <= j < i ==> holds(j)
  {
    i := from;
    while holds(i)
      invariant from <= i <= k && forall j: nat :: from <= j < i ==> holds(j)
      decreases k - i
    {
      i := i + 1;
    }
  }

  lemma SomeFirstRound(p: Positions, q: Positions, setBits: nat, k: nat) returns (i: nat)
    requires 1 <= k <= setBits && !Agree(p, q, k)
    ensures FirstRound(p, q, 1, setBits, i)
  {
    ghost var agree: nat -> bool := (j: nat) => Agree(p, q, j);
    i := LeastFailing(agree, 1, k);
    forall j: nat | 1 <= j < i
      ensures Agree(p, q, j)
    {
      assert agree(j);
    }
  }

  lemma NoneDecides(p: Positions, q: Positions, setBits: nat)
    requires SameRounds(p, q, setBits)
    ensures forall i: nat, s: seq<nat>, t: seq<nat> :: !DecidedBy(p, q, setBits, i, s, t)
  {
  }

  /** A round that tells the hashes apart is decided one way or the other. */
  lemma SomeRoundDecides(crc: Crc, setBits: nat, a: SimpleEdge, b: SimpleEdge, p: Positions, q: Positions, k: nat)
    requires p == HashPositions(crc, a.src, Pow2(setBits)) && q == HashPositions(crc, b.src, Pow2(setBits))
    requires 1 <= k <= setBits && !Agree(p, q, k)
    ensures Less(crc, setBits, a, b) ==> exists i: nat, s: seq<nat>, t: seq<nat> :: DecidedBy(p, q, setBits, i, s, t)
  {
    var i := SomeFirstRound(p, q, setBits, k);
    var s, t := Sorted4(LowBits(p, i)), Sorted4(LowBits(q, i));
    Sorted4Arranges(p, i);
    Sorted4Arranges(q, i);
    LessByRound(crc, setBits, a, b, i, s, t);
    assert SmallerFirst(s, t) ==> DecidedBy(p, q, setBits, i, s, t);
  }

  lemma LessIsComesFirst(crc: Crc, setBits: nat, a: SimpleEdge, b: SimpleEdge)
    ensures Less(crc, setBits, a, b) <==> ComesFirst(crc, setBits, a, b)
  {
    var p, q := HashPositions(crc, a.src, Pow2(setBits)), HashPositions(crc, b.src, Pow2(setBits));
    if SameRounds(p, q, setBits) {
      NoneDecides(p, q, setBits);
      LessByEnds(crc, setBits, a, b);
    } else {
      var k: nat :| 1 <= k <= setBits && !Agree(p, q, k);
      SomeRoundDecides(crc, setBits, a, b, p, q, k);
      forall i: nat, s: seq<nat>, t: seq<nat> | DecidedBy(p, q, setBits, i, s, t)
        ensures Less(crc, setBits, a, b)
      {
        LessByRound(crc, setBits, a, b, i, s, t);
      }
    }
  }

  /** `operator<` on edges, as its loops compute it. */
  method OperatorLess(crc: Crc, setBits: nat, a: SimpleEdge, b: SimpleEdge) returns (less: bool)
    ensures less == Less(crc, setBits, a, b) == ComesFirst(crc, setBits, a, b)
  {
    LessIsComesFirst(crc, setBits, a, b);
    var hashA, hashB := HashPositions(crc, a.src, Pow2(setBits)), HashPositions(crc, b.src, Pow2(setBits));
    LexPairs(a.src, a.dst, b.src, b.dst);
    Peel(BitKeys(hashA, 1, setBits), BitKeys(hashB, 1, setBits), [a.src, a.dst], [b.src, b.dst]);
    var below, above := CompareBits(hashA, hashB, setBits);
    if below { return true; }
    if above { return false; }
    if a.src < b.src { return true; }
    if a.src > b.src { return false; }
    if a.dst < b.dst { return true; }
    return false;
  }

  /** Whatever the hash, edges are ordered strictly and totally: equal keys mean equal edges. */
  lemma LessIsStrictTotalOrder(crc: Crc, setBits: nat, a: SimpleEdge, b: SimpleEdge)
    ensures !Less(crc, setBits, a, a)
    ensures Less(crc, setBits, a, b) ==> !Less(crc, setBits, b, a)
    ensures a != b ==> Less(crc, setBits, a, b) || Less(crc, setBits, b, a)
  {
    var ka, kb := Key(crc, setBits, a), Key(crc, setBits, b);
    LexTotal(ka, ka);
    LexTotal(ka, kb);
    if ka == kb {
      assert a.src == ka[|ka| - 2] && a.dst == ka[|ka| - 1] && b.src == kb[|kb| - 2] && b.dst == kb[|kb| - 1];
    }
  }

  lemma LessIsTransitive(crc: Crc, setBits: nat, a: SimpleEdge, b: SimpleEdge, c: SimpleEdge)
    requires Less(crc, setBits, a, b) && Less(crc, setBits, b, c)
    ensures Less(crc, setBits, a, c)
  {
    LexTransitive(Key(crc, setBits, a), Key(crc, setBits, b), Key(crc, setBits, c));
  }
}

/**
 Merging sorted streams, two, three, four or any number at a time, and the rounds of merging until one file is left
 (update_utility/MBFSort/external_sort/external_sort_merge.hpp 18-163, external_sort.hpp 122-192).
 */
module ExternalSort {

  // ---------- order and contents ----------

  /** A strict order under which any two distinct records compare one way. */
  ghost predicate TotalOrder<T(!new)>(lt: (T, T) -> bool) {
    && (forall a, b :: lt(a, b) ==> !lt(b, a))
    && (forall a, b, c :: lt(a, b) && lt(b, c) ==> lt(a, c))
    && forall a, b :: a != b ==> lt(a, b) || lt(b, a)
  }

  ghost predicate Sorted<T(!new)>(lt: (T, T) -> bool, s: seq<T>) {
    forall i, j :: 0 <= i < j < |s| ==> !lt(s[j], s[i])
  }

  ghost predicate AllSorted<T(!new)>(lt: (T, T) -> bool, streams: seq<seq<T>>) {
    forall k: nat :: k < |streams| ==> Sorted(lt, streams[k])
  }

  /** How often x occurs: its multiplicity. */
  ghost function Count<T>(s: seq<T>, x: T): nat {
    if s == [] then 0 else Count(s[1..], x) + if s[0] == x then 1 else 0
  }

  ghost function CountAll<T>(streams: seq<seq<T>>, x: T): nat {
    if streams == [] then 0 else Count(streams[0], x) + CountAll(streams[1..], x)
  }

  lemma {:induction false} CountAppend<T>(a: seq<T>, b: seq<T>, x: T)
    ensures Count(a + b, x) == Count(a, x) + Count(b, x)
  {
    if a == [] {
      assert a + b == b;
    } else {
      assert (a + b)[1..] == a[1..] + b;
      CountAppend(a[1..], b, x);
    }
  }

  lemma {:induction false} CountAllAppend<T>(a: seq<seq<T>>, b: seq<seq<T>>, x: T)
    ensures CountAll(a + b, x) == CountAll(a, x) + CountAll(b, x)
  {
    if a == [] {
      assert a + b == b;
    } else {
      assert (a + b)[1..] == a[1..] + b;
      CountAllAppend(a[1..], b, x);
    }
  }

  /** Taking a stream out. */
  lemma CountWithout<T>(streams: seq<seq<T>>, m: nat, x: T)
    requires m < |streams|
    ensures CountAll(streams, x) == CountAll(streams[..m] + streams[m + 1..], x) + Count(streams[m], x)
  {
    assert streams == streams[..m] + ([streams[m]] + streams[m + 1..]);
    CountAllAppend(streams[..m], [streams[m]] + streams[m + 1..], x);
    CountAllAppend([streams[m]], streams[m + 1..], x);
    CountAllAppend(streams[..m], streams[m + 1..], x);
    assert CountAll([streams[m]], x) == Count(streams[m], x) + CountAll([streams[m]][1..], x);
  }

  /** Popping one record. */
  lemma CountPopped<T>(streams: seq<seq<T>>, m: nat, x: T)
    requires m < |streams| && streams[m] != []
    ensures CountAll(streams, x) == CountAll(streams[m := streams[m][1..]], x) + if streams[m][0] == x then 1 else 0
  {
    var popped := streams[m := streams[m][1..]];
    CountWithout(streams, m, x);
    CountWithout(popped, m, x);
    assert popped[..m] == streams[..m] && popped[m + 1..] == streams[m + 1..];
  }

  // ---------- one step of a merge ----------

  /** What has been output is sorted and not above anything still in the streams; nothing is lost. */
  ghost predicate Merging<T(!new)>(lt: (T, T) -> bool, all: seq<seq<T>>, out: seq<T>, streams: seq<seq<T>>) {
    && Sorted(lt, out) && AllSorted(lt, streams)
    && (forall i: nat, k: nat, j: nat :: i < |out| && k < |streams| && j < |streams[k]| ==> !lt(streams[k][j], out[i]))
    && forall x: T :: Count(out, x) + CountAll(streams, x) == CountAll(all, x)
  }

  ghost predicate NonEmpty<T>(streams: seq<seq<T>>) {
    forall k: nat :: k < |streams| ==> streams[k] != []
  }

  /** No front is below the front of stream m. */
  ghost predicate IsMin<T(!new)>(lt: (T, T) -> bool, streams: seq<seq<T>>, m: nat)
    requires NonEmpty(streams)
  {
    m < |streams| && forall k: nat :: k < |streams| ==> !lt(streams[k][0], streams[m][0])
  }

  /** The front of stream m is not above any record left. */
  lemma MinOfAll<T(!new)>(lt: (T, T) -> bool, streams: seq<seq<T>>, m: nat, k: nat, j: nat)
    requires TotalOrder(lt) && NonEmpty(streams) && AllSorted(lt, streams) && IsMin(lt, streams, m)
    requires k < |streams| && j < |streams[k]|
    ensures !lt(streams[k][j], streams[m][0])
  {
    var s := streams[k];
    assert Sorted(lt, s);
    if j > 0 && lt(s[j], streams[m][0]) {
      assert !lt(s[j], s[0]) && !lt(s[0], streams[m][0]);
    }
  }

  /** Pushing the least front keeps the merge right. */
  lemma PushMin<T(!new)>(lt: (T, T) -> bool, all: seq<seq<T>>, out: seq<T>, streams: seq<seq<T>>, m: nat)
    requires TotalOrder(lt) && NonEmpty(streams) && Merging(lt, all, out, streams) && IsMin(lt, streams, m)
    ensures Merging(lt, all, out + [streams[m][0]], streams[m := streams[m][1..]])
  {
    var x0, out', streams' := streams[m][0], out + [streams[m][0]], streams[m := streams[m][1..]];
    forall k: nat | k < |streams'|
      ensures Sorted(lt, streams'[k])
    {
      assert Sorted(lt, streams[k]);
    }
    forall i: nat, k: nat, j: nat | i < |out'| && k < |streams'| && j < |streams'[k]|
      ensures !lt(streams'[k][j], out'[i])
    {
      var j' := if k == m then j + 1 else j;
      assert streams'[k][j] == streams[k][j'];
      if i == |out| {
        MinOfAll(lt, streams, m, k, j');
      }
    }
    forall i, j | 0 <= i < j < |out'|
      ensures !lt(out'[j], out'[i])
    {
      if j == |out| {
        assert !lt(streams[m][0], out[i]);
      }
    }
    forall x: T
      ensures Count(out', x) + CountAll(streams', x) == CountAll(all, x)
    {
      CountAppend(out, [x0], x);
      CountPopped(streams, m, x);
      assert Count([x0], x) == if x0 == x then 1 else 0;
    }
  }

  /** Erasing an empty stream changes nothing. */
  lemma EraseEmpty<T(!new)>(lt: (T, T) -> bool, all: seq<seq<T>>, out: seq<T>, streams: seq<seq<T>>, m: nat)
    requires Merging(lt, all, out, streams) && m < |streams| && streams[m] == []
    ensures Merging(lt, all, out, streams[..m] + streams[m + 1..])
  {
    var left := streams[..m] + streams[m + 1..];
    forall k: nat | k < |left|
      ensures left[k] == streams[if k < m then k else k + 1]
    {
    }
    forall x: T
      ensures CountAll(left, x) == CountAll(streams, x)
    {
      CountWithout(streams, m, x);
    }
  }

  // ---------- the merges ----------

  /** The state of a merge: the streams that are not exhausted, and the output. */
  ghost predicate MergeState<T(!new)>(lt: (T, T) -> bool, all: seq<seq<T>>, out: seq<T>, streams: seq<seq<T>>) {
    TotalOrder(lt) && NonEmpty(streams) && Merging(lt, all, out, streams)
  }

  /** Output the front of stream m, and erase the stream if that was its last record. */
  method Take<T(!new)>(ghost lt: (T, T) -> bool, ghost all: seq<seq<T>>, out: seq<T>, streams: seq<seq<T>>, m: nat)
    returns (out': seq<T>, streams': seq<seq<T>>)
    requires MergeState(lt, all, out, streams) && IsMin(lt, streams, m)
    ensures MergeState(lt, all, out', streams')
    ensures if |streams[m]| == 1 then |streams'| == |streams| - 1 else streams' == streams[m := streams[m][1..]]
    ensures Total(streams') == Total(streams) - 1
  {
    PushMin(lt, all, out, streams, m);
    out' := out + [streams[m][0]];
    streams' := streams[m := streams[m][1..]];
    TotalWithout(streams, m);
    TotalWithout(streams', m);
    assert streams'[..m] == streams[..m] && streams'[m + 1..] == streams[m + 1..];
    if streams'[m] == [] {
      EraseEmpty(lt, all, out', streams', m);
      streams' := streams'[..m] + streams'[m + 1..];
    }
  }

  /** The number of records left. */
  ghost function Total<T>(streams: seq<seq<T>>): nat {
    if streams == [] then 0 else |streams[0]| + Total(streams[1..])
  }

  lemma {:induction false} TotalAppend<T>(a: seq<seq<T>>, b: seq<seq<T>>)
    ensures Total(a + b) == Total(a) + Total(b)
  {
    if a == [] {
      assert a + b == b;
    } else {
      assert (a + b)[1..] == a[1..] + b;
      TotalAppend(a[1..], b);
    }
  }

  lemma TotalWithout<T>(streams: seq<seq<T>>, m: nat)
    requires m < |streams|
    ensures Total(streams) == Total(streams[..m] + streams[m + 1..]) + |streams[m]|
  {
    assert streams == streams[..m] + ([streams[m]] + streams[m + 1..]);
    TotalAppend(streams[..m], [streams[m]] + streams[m + 1..]);
    TotalAppend([streams[m]], streams[m + 1..]);
    TotalAppend(streams[..m], streams[m + 1..]);
    assert Total([streams[m]]) == |streams[m]| + Total([streams[m]][1..]);
  }

  /** `copy_stream`: the last stream follows the output. */
  method CopyStream<T(!new)>(ghost lt: (T, T) -> bool, ghost all: seq<seq<T>>, out: seq<T>, streams: seq<seq<T>>)
    returns (out': seq<T>)
    requires MergeState(lt, all, out, streams) && |streams| == 1
    ensures Merging(lt, all, out', [])
  {
    out' := out;
    var left := streams;
    while left != []
      invariant MergeState(lt, all, out', left) && |left| <= 1
      decreases Total(left)
    {
      OnlyIsMin(lt, left);
      out', left := Take(lt, all, out', left, 0);
    }
  }

  lemma OnlyIsMin<T(!new)>(lt: (T, T) -> bool, streams: seq<seq<T>>)
    requires TotalOrder(lt) && NonEmpty(streams) && |streams| == 1
    ensures IsMin(lt, streams, 0)
  {
    var x := streams[0][0];
    if lt(x, x) {
      assert false;
    }
  }

  /** `merge_2streams`. */
  method Merge2<T(!new)>(lt: (T, T) -> bool, ghost all: seq<seq<T>>, out: seq<T>, streams: seq<seq<T>>)
    returns (out': seq<T>)
    requires MergeState(lt, all, out, streams) && |streams| == 2
    ensures Merging(lt, all, out', [])
  {
    out' := out;
    var left := streams;
    while |left| == 2
      invariant MergeState(lt, all, out', left) && 1 <= |left| <= 2
      decreases Total(left)
    {
      var smin := if lt(left[0][0], left[1][0]) then 0 else 1;
      out', left := Take(lt, all, out', left, smin);
    }
    out' := CopyStream(lt, all, out', left);
  }

  /** `merge_3streams`. */
  method Merge3<T(!new)>(lt: (T, T) -> bool, ghost all: seq<seq<T>>, out: seq<T>, streams: seq<seq<T>>)
    returns (out': seq<T>)
    requires MergeState(lt, all, out, streams) && |streams| == 3
    ensures Merging(lt, all, out', [])
  {
    out' := out;
    var left := streams;
    while |left| == 3
      invariant MergeState(lt, all, out', left) && 2 <= |left| <= 3
      decreases Total(left)
    {
      var s1, s2, s3 := left[0][0], left[1][0], left[2][0];
      var smin := if lt(s1, s2) then (if lt(s1, s3) then 0 else 2) else if lt(s2, s3) then 1 else 2;
      LeastOfThree(lt, s1, s2, s3);
      assert IsMin(lt, left, smin);
      out', left := Take(lt, all, out', left, smin);
    }
    out' := Merge2(lt, all, out', left);
  }

  lemma LeastOfThree<T(!new)>(lt: (T, T) -> bool, s1: T, s2: T, s3: T)
    requires TotalOrder(lt)
    ensures var m := if lt(s1, s2) then (if lt(s1, s3) then s1 else s3) else if lt(s2, s3) then s2 else s3;
      !lt(s1, m) && !lt(s2, m) && !lt(s3, m)
  {
  }

  /** The tournament of `merge_4streams`. */
  lemma LeastOfFour<T(!new)>(lt: (T, T) -> bool, s1: T, s2: T, s3: T, s4: T)
    requires TotalOrder(lt)
    ensures var a := if lt(s1, s2) then s1 else s2;
      var b := if lt(s3, s4) then s3 else s4;
      var m := if lt(a, b) then a else b;
      !lt(s1, m) && !lt(s2, m) && !lt(s3, m) && !lt(s4, m)
  {
  }

  /** `merge_4streams`. */
  method Merge4<T(!new)>(lt: (T, T) -> bool, ghost all: seq<seq<T>>, out: seq<T>, streams: seq<seq<T>>)
    returns (out': seq<T>)
    requires MergeState(lt, all, out, streams) && |streams| == 4
    ensures Merging(lt, all, out', [])
  {
    out' := out;
    var left := streams;
    while |left| == 4
      invariant MergeState(lt, all, out', left) && 3 <= |left| <= 4
      decreases Total(left)
    {
      var smin := PickOfFour(lt, left);
      out', left := Take(lt, all, out', left, smin);
    }
    out' := Merge3(lt, all, out', left);
  }

  method PickOfFour<T(!new)>(lt: (T, T) -> bool, left: seq<seq<T>>) returns (smin: nat)
    requires TotalOrder(lt) && NonEmpty(left) && |left| == 4
    ensures IsMin(lt, left, smin)
  {
    var s1, s2, s3, s4 := left[0][0], left[1][0], left[2][0], left[3][0];
    if lt(s1, s2) {
      if lt(s3, s4) {
        smin := if lt(s1, s3) then 0 else 2;
      } else {
        smin := if lt(s1, s4) then 0 else 3;
      }
    } else {
      if lt(s3, s4) {
        smin := if lt(s2, s3) then 1 else 2;
      } else {
        smin := if lt(s2, s4) then 1 else 3;
      }
    }
    LeastOfFour(lt, s1, s2, s3, s4);
  }

  /** The top of the heap: some stream whose front is not above any other's. */
  method HeapFront<T(!new)>(lt: (T, T) -> bool, heap: seq<seq<T>>) returns (m: nat)
    requires TotalOrder(lt) && NonEmpty(heap) && heap != []
    ensures IsMin(lt, heap, m)
  {
    m := 0;
    var k := 1;
    while k < |heap|
      invariant 1 <= k <= |heap| && m < k
      invariant forall i: nat :: i < k ==> !lt(heap[i][0], heap[m][0])
    {
      if lt(heap[k][0], heap[m][0]) {
        m := k;
      }
      k := k + 1;
    }
  }

  /** `merge_nstreams`. */
  method MergeN<T(!new)>(lt: (T, T) -> bool, ghost all: seq<seq<T>>, out: seq<T>, streams: seq<seq<T>>)
    returns (out': seq<T>)
    requires MergeState(lt, all, out, streams) && |streams| > 4
    ensures Merging(lt, all, out', [])
  {
    out' := out;
    var heap := streams;
    while |heap| > 4
      invariant MergeState(lt, all, out', heap) && |heap| >= 4
      decreases Total(heap)
    {
      var smin := HeapFront(lt, heap);
      out', heap := Take(lt, all, out', heap, smin);
    }
    out' := Merge4(lt, all, out', heap);
  }

  datatype Option<T> = None | Some(value: T)

  /** A merged file: sorted, and holding every record of the inputs as often as they do. */
  ghost predicate IsMerge<T(!new)>(lt: (T, T) -> bool, all: seq<seq<T>>, out: seq<T>) {
    Sorted(lt, out) && forall x: T :: Count(out, x) == CountAll(all, x)
  }

  /** `merge_streams`: empty streams are left out; without any other there is no output stream. */
  method MergeStreams<T(!new)>(lt: (T, T) -> bool, all: seq<seq<T>>) returns (out: Option<seq<T>>)
    requires TotalOrder(lt) && AllSorted(lt, all)
    ensures out.Some? ==> IsMerge(lt, all, out.value)
    ensures out.None? ==> forall x: T :: CountAll(all, x) == 0
    ensures out.Some? <==> exists k: nat :: k < |all| && all[k] != []
  {
    var sinp := OpenStreams(lt, all);
    if |sinp| == 0 {
      return None;
    }
    var merged: seq<T>;
    if |sinp| > 4 {
      merged := MergeN(lt, all, [], sinp);
    } else if |sinp| == 4 {
      merged := Merge4(lt, all, [], sinp);
    } else if |sinp| == 3 {
      merged := Merge3(lt, all, [], sinp);
    } else if |sinp| == 2 {
      merged := Merge2(lt, all, [], sinp);
    } else {
      merged := CopyStream(lt, all, [], sinp);
    }
    out := Some(merged);
  }

  /** The streams that are not empty. */
  method OpenStreams<T(!new)>(ghost lt: (T, T) -> bool, all: seq<seq<T>>) returns (sinp: seq<seq<T>>)
    requires TotalOrder(lt) && AllSorted(lt, all)
    ensures MergeState(lt, all, [], sinp)
    ensures |sinp| > 0 <==> exists k: nat :: k < |all| && all[k] != []
  {
    sinp := [];
    var i := 0;
    while i < |all|
      invariant 0 <= i <= |all| && NonEmpty(sinp) && AllSorted(lt, sinp)
      invariant forall x: T :: CountAll(sinp, x) == CountAll(all[..i], x)
      invariant |sinp| > 0 <==> exists k: nat :: k < i && all[k] != []
    {
      assert Sorted(lt, all[i]);
      NextStream(all, sinp, i);
      if all[i] != [] {
        sinp := sinp + [all[i]];
      }
      i := i + 1;
    }
    assert all[..i] == all;
  }

  lemma NextStream<T(!new)>(all: seq<seq<T>>, sinp: seq<seq<T>>, i: nat)
    requires i < |all| && forall x: T :: CountAll(sinp, x) == CountAll(all[..i], x)
    ensures forall x: T :: CountAll(sinp + [all[i]], x) == CountAll(all[..i + 1], x)
    ensures all[i] == [] ==> forall x: T :: CountAll(sinp, x) == CountAll(all[..i + 1], x)
  {
    assert all[..i + 1] == all[..i] + [all[i]];
    forall x: T
      ensures CountAll(sinp + [all[i]], x) == CountAll(all[..i + 1], x)
      ensures all[i] == [] ==> CountAll(sinp, x) == CountAll(all[..i + 1], x)
    {
      CountAllAppend(sinp, [all[i]], x);
      CountAllAppend(all[..i], [all[i]], x);
      assert CountAll([all[i]], x) == Count(all[i], x) + CountAll([all[i]][1..], x);
    }
  }

  // ---------- the rounds of merging ----------

  /** The files waiting, and the outputs of merges that are running or have finished. */
  datatype Queue<T> = Queue(files: seq<seq<T>>, running: seq<Option<seq<T>>>, ready: seq<Option<seq<T>>>) {
    function Pending(): nat {
      |running| + |ready|
    }
  }

  /** Every record of the input is in exactly one file or running merge, and all of them are sorted. */
  ghost predicate Conserved<T(!new)>(lt: (T, T) -> bool, inputs: seq<seq<T>>, q: Queue<T>) {
    && TotalOrder(lt) && AllSorted(lt, q.files) && ResultsSorted(lt, q.running) && ResultsSorted(lt, q.ready)
    && forall x: T :: CountAll(q.files, x) + ResultCount(q.running, x) + ResultCount(q.ready, x) == CountAll(inputs, x)
  }

  ghost predicate ResultsSorted<T(!new)>(lt: (T, T) -> bool, results: seq<Option<seq<T>>>) {
    forall k: nat :: k < |results| && results[k].Some? ==> Sorted(lt, results[k].value)
  }

  ghost function ResultCount<T>(results: seq<Option<seq<T>>>, x: T): nat {
    if results == [] then 0
      else (if results[0].Some? then Count(results[0].value, x) else 0) + ResultCount(results[1..], x)
  }

  lemma {:induction false} ResultCountAppend<T>(a: seq<Option<seq<T>>>, b: seq<Option<seq<T>>>, x: T)
    ensures ResultCount(a + b, x) == ResultCount(a, x) + ResultCount(b, x)
  {
    if a == [] {
      assert a + b == b;
    } else {
      assert (a + b)[1..] == a[1..] + b;
      ResultCountAppend(a[1..], b, x);
    }
  }

  lemma ResultWithout<T>(results: seq<Option<seq<T>>>, k: nat, x: T)
    requires k < |results|
    ensures ResultCount(results, x) ==
      ResultCount(results[..k] + results[k + 1..], x) + if results[k].Some? then Count(results[k].value, x) else 0
  {
    assert results == results[..k] + ([results[k]] + results[k + 1..]);
    ResultCountAppend(results[..k], [results[k]] + results[k + 1..], x);
    ResultCountAppend([results[k]], results[k + 1..], x);
    ResultCountAppend(results[..k], results[k + 1..], x);
    assert ResultCount([results[k]][1..], x) == 0;
  }

  /** A running merge completes. */
  method Finish<T(!new)>(ghost lt: (T, T) -> bool, ghost inputs: seq<seq<T>>, q: Queue<T>, k: nat)
    returns (q': Queue<T>)
    requires Conserved(lt, inputs, q) && k < |q.running|
    ensures Conserved(lt, inputs, q') && q'.files == q.files && |q'.running| == |q.running| - 1 &&
      |q'.ready| == |q.ready| + 1
  {
    q' := Queue(q.files, q.running[..k] + q.running[k + 1..], q.ready + [q.running[k]]);
    forall x: T
      ensures ResultCount(q'.running, x) + ResultCount(q'.ready, x) ==
        ResultCount(q.running, x) + ResultCount(q.ready, x)
    {
      ResultWithout(q.running, k, x);
      ResultWithout(q'.ready, |q.ready|, x);
      assert q'.ready[..|q.ready|] + q'.ready[|q.ready| + 1..] == q.ready;
    }
  }

  /** `GetAny` and `files.push_back`: any finished merge; one without output adds no file. */
  method Collect<T(!new)>(ghost lt: (T, T) -> bool, ghost inputs: seq<seq<T>>, q: Queue<T>, k: nat)
    returns (q': Queue<T>)
    requires Conserved(lt, inputs, q) && k < |q.ready|
    ensures Conserved(lt, inputs, q') && q'.running == q.running && |q'.ready| == |q.ready| - 1 &&
      |q'.files| <= |q.files| + 1
  {
    var rest := q.ready[..k] + q.ready[k + 1..];
    q' := Queue(if q.ready[k].Some? then q.files + [q.ready[k].value] else q.files, q.running, rest);
    forall x: T
      ensures CountAll(q'.files, x) + ResultCount(q'.ready, x) == CountAll(q.files, x) + ResultCount(q.ready, x)
    {
      ResultWithout(q.ready, k, x);
      if q.ready[k].Some? {
        CountWithout(q'.files, |q.files|, x);
        assert q'.files[..|q.files|] + q'.files[|q.files| + 1..] == q.files;
      }
    }
  }

  /** Take up to kmerge files from the front of the queue and start merging them. */
  method Launch<T(!new)>(lt: (T, T) -> bool, ghost inputs: seq<seq<T>>, q: Queue<T>, kmerge: nat) returns (q': Queue<T>)
    requires Conserved(lt, inputs, q)
    ensures Conserved(lt, inputs, q') && q'.ready == q.ready && |q'.running| == |q.running| + 1
    ensures |q'.files| == if kmerge <= |q.files| then |q.files| - kmerge else 0
  {
    var n := if kmerge <= |q.files| then kmerge else |q.files|;
    var istreams := q.files[..n];
    forall k: nat | k < n
      ensures Sorted(lt, istreams[k])
    {
      assert Sorted(lt, q.files[k]);
    }
    var merged := MergeStreams(lt, istreams);
    q' := Queue(q.files[n..], q.running + [merged], q.ready);
    forall x: T
      ensures CountAll(q'.files, x) + ResultCount(q'.running, x) == CountAll(q.files, x) + ResultCount(q.running, x)
    {
      CountAllAppend(istreams, q'.files, x);
      assert istreams + q'.files == q.files;
      ResultWithout(q'.running, |q.running|, x);
      assert q'.running[..|q.running|] + q'.running[|q.running| + 1..] == q.running;
    }
  }

  /**
   The inner loop: results are collected while there are too few files, finished merges, or too many running ones.
   Before every test any of the running merges may have finished.
   */
  method CollectLoop<T(!new)>(ghost lt: (T, T) -> bool, ghost inputs: seq<seq<T>>, q: Queue<T>, kmerge: nat,
                              merges: nat) returns (q': Queue<T>)
    requires Conserved(lt, inputs, q) && merges > 0
    ensures Conserved(lt, inputs, q') && |q'.files| + q'.Pending() <= |q.files| + q.Pending()
    ensures q'.Pending() == 0 || |q'.files| >= kmerge
  {
    q' := SomeFinish(lt, inputs, q);
    while (|q'.files| < kmerge && q'.Pending() > 0) || |q'.ready| > 0 || |q'.running| >= merges
      invariant Conserved(lt, inputs, q') && |q'.files| + q'.Pending() <= |q.files| + q.Pending()
      decreases q'.Pending()
    {
      if |q'.ready| == 0 {
        var k :| 0 <= k < |q'.running|;
        q' := Finish(lt, inputs, q', k);
      }
      var k :| 0 <= k < |q'.ready|;
      q' := Collect(lt, inputs, q', k);
      q' := SomeFinish(lt, inputs, q');
    }
  }

  /** However many merges finish in the meantime. */
  method SomeFinish<T(!new)>(ghost lt: (T, T) -> bool, ghost inputs: seq<seq<T>>, q: Queue<T>) returns (q': Queue<T>)
    requires Conserved(lt, inputs, q)
    ensures Conserved(lt, inputs, q') && q'.files == q.files && q'.Pending() == q.Pending()
  {
    q' := q;
    var n :| 0 <= n <= |q.running|;
    while n > 0
      invariant Conserved(lt, inputs, q') && q'.files == q.files && q'.Pending() == q.Pending() && n <= |q'.running|
      decreases n
    {
      var k :| 0 <= k < |q'.running|;
      q' := Finish(lt, inputs, q', k);
      n := n - 1;
    }
  }

  /** `merge`: rounds of merging until one file is left, in whatever order the merges finish. */
  method Merge<T(!new)>(lt: (T, T) -> bool, inputs: seq<seq<T>>, kmerge: nat, merges: nat) returns (out: Option<seq<T>>)
    requires TotalOrder(lt) && AllSorted(lt, inputs) && (kmerge >= 2 || |inputs| <= 1) && merges > 0
    ensures out.Some? ==> IsMerge(lt, inputs, out.value)
    ensures out.None? ==> forall x: T :: CountAll(inputs, x) == 0
  {
    var q := Queue(inputs, [], []);
    while |q.files| > 1 || q.Pending() > 0
      invariant Conserved(lt, inputs, q) && (q.Pending() == 0 || |q.files| >= kmerge)
      invariant kmerge >= 2 || (|q.files| <= 1 && q.Pending() == 0)
      decreases |q.files| + q.Pending()
    {
      q := Launch(lt, inputs, q, kmerge);
      q := CollectLoop(lt, inputs, q, kmerge, merges);
    }
    if |q.files| > 0 {
      out := Some(q.files[0]);
      assert Sorted(lt, q.files[0]);
      forall x: T
        ensures Count(q.files[0], x) == CountAll(inputs, x)
      {
        assert CountAll(q.files, x) == Count(q.files[0], x) + CountAll(q.files[1..], x);
      }
    } else {
      out := None;
    }
  }

  // ---------- splitting the input into sorted blocks ----------

  /** `std::sort` on a block, as insertion. */
  function InsertRecord<T(!new)>(lt: (T, T) -> bool, x: T, s: seq<T>): seq<T> {
    if s == [] || !lt(s[0], x) then [x] + s else [s[0]] + InsertRecord(lt, x, s[1..])
  }

  function SortBlock<T(!new)>(lt: (T, T) -> bool, s: seq<T>): seq<T> {
    if s == [] then [] else InsertRecord(lt, s[0], SortBlock(lt, s[1..]))
  }

  lemma {:induction false} InsertKeepsOrder<T(!new)>(lt: (T, T) -> bool, x: T, s: seq<T>)
    requires TotalOrder(lt) && Sorted(lt, s)
    ensures Sorted(lt, InsertRecord(lt, x, s)) && forall y ::
      Count(InsertRecord(lt, x, s), y) == Count(s, y) + if x == y then 1 else 0
    ensures forall y :: y in InsertRecord(lt, x, s) <==> y == x || y in s
  {
    if s == [] || !lt(s[0], x) {
      assert ([x] + s)[1..] == s;
      forall j | 0 <= j < |s|
        ensures !lt(s[j], x)
      {
        if j > 0 {
          assert !lt(s[j], s[0]);
        }
      }
    } else {
      var rest := InsertRecord(lt, x, s[1..]);
      InsertKeepsOrder(lt, x, s[1..]);
      assert ([s[0]] + rest)[1..] == rest;
      forall j | 0 <= j < |rest|
        ensures !lt(rest[j], s[0])
      {
        assert rest[j] in rest;
        if rest[j] != x {
          var k :| 0 <= k < |s[1..]| && s[1..][k] == rest[j];
          assert s[k + 1] == rest[j];
        }
      }
    }
  }

  lemma {:induction false} SortBlockSorts<T(!new)>(lt: (T, T) -> bool, s: seq<T>)
    requires TotalOrder(lt)
    ensures Sorted(lt, SortBlock(lt, s)) && forall y :: Count(SortBlock(lt, s), y) == Count(s, y)
  {
    if s != [] {
      SortBlockSorts(lt, s[1..]);
      InsertKeepsOrder(lt, s[0], SortBlock(lt, s[1..]));
    }
  }

  /** `split`: sorted blocks of the input, collected in whatever order their writers finish. */
  method Split<T(!new)>(lt: (T, T) -> bool, input: seq<T>, blockSize: nat) returns (files: seq<seq<T>>)
    requires TotalOrder(lt) && blockSize > 0
    ensures AllSorted(lt, files) && forall x: T :: CountAll(files, x) == Count(input, x)
  {
    files := [];
    var pos := 0;
    while pos < |input|
      invariant 0 <= pos <= |input| && AllSorted(lt, files)
      invariant forall x: T :: CountAll(files, x) == Count(input[..pos], x)
    {
      var end := if blockSize <= |input| - pos then pos + blockSize else |input|;
      var k :| 0 <= k <= |files|;
      files := AddBlock(lt, input, pos, end, files, k);
      pos := end;
    }
    assert input[..pos] == input;
  }

  method AddBlock<T(!new)>(lt: (T, T) -> bool, input: seq<T>, pos: nat, end: nat, files: seq<seq<T>>, k: nat)
    returns (files': seq<seq<T>>)
    requires TotalOrder(lt) && pos <= end <= |input| && k <= |files| && AllSorted(lt, files)
    requires forall x: T :: CountAll(files, x) == Count(input[..pos], x)
    ensures AllSorted(lt, files') && forall x: T :: CountAll(files', x) == Count(input[..end], x)
  {
    var block := SortBlock(lt, input[pos..end]);
    SortBlockSorts(lt, input[pos..end]);
    files' := files[..k] + [block] + files[k..];
    assert files'[k] == block && files'[..k] + files'[k + 1..] == files;
    forall i: nat | i < |files'|
      ensures Sorted(lt, files'[i])
    {
      if i != k {
        assert files'[i] == files[if i < k then i else i - 1];
      }
    }
    forall x: T
      ensures CountAll(files', x) == Count(input[..end], x)
    {
      CountWithout(files', k, x);
      CountAppend(input[..pos], input[pos..end], x);
      assert input[..pos] + input[pos..end] == input[..end];
    }
  }

  lemma {:induction false} CountIsMultiplicity<T>(s: seq<T>, x: T)
    ensures Count(s, x) == multiset(s)[x]
  {
    if s != [] {
      CountIsMultiplicity(s[1..], x);
      assert s == [s[0]] + s[1..];
    }
  }

  /** Equal counts are equal multisets. */
  lemma SameMultiset<T>(s: seq<T>, t: seq<T>)
    requires forall x: T :: Count(s, x) == Count(t, x)
    ensures multiset(s) == multiset(t)
  {
    forall x: T
      ensures multiset(s)[x] == multiset(t)[x]
    {
      CountIsMultiplicity(s, x);
      CountIsMultiplicity(t, x);
    }
  }

  /** `sort`: split and merge leave one file, the sorted input; none if there was no input. */
  method Sort<T(!new)>(lt: (T, T) -> bool, input: seq<T>, blockSize: nat, kmerge: nat, merges: nat)
    returns (out: Option<seq<T>>)
    requires TotalOrder(lt) && blockSize > 0 && kmerge >= 2 && merges > 0
    ensures out.Some? ==> Sorted(lt, out.value) && multiset(out.value) == multiset(input)
    ensures out.None? ==> input == []
  {
    var files := Split(lt, input, blockSize);
    out := Merge(lt, files, kmerge, merges);
    if out.None? && input != [] {
      assert Count(input, input[0]) > 0;
      assert false;
    }
    if out.Some? {
      SameMultiset(out.value, input);
    }
  }
}

/** MBFSort: the external sort of a list of edges by their Bloom hash (update_utility/MBFSort/MBFSort.cpp 43-119). */
module EdgeSort {
  import opened BloomHash
  import opened EdgeOrder
  import opened ExternalSort

  function EdgeLess(crc: Crc, setBits: nat): (SimpleEdge, SimpleEdge) -> bool {
    (a: SimpleEdge, b: SimpleEdge) => Less(crc, setBits, a, b)
  }

  /** The comparator meets what the merges ask of it, whatever the CRC. */
  lemma EdgesAreTotallyOrdered(crc: Crc, setBits: nat)
    ensures TotalOrder(EdgeLess(crc, setBits))
  {
    var lt := EdgeLess(crc, setBits);
    forall a, b
      ensures lt(a, b) ==> !lt(b, a)
      ensures a != b ==> lt(a, b) || lt(b, a)
    {
      LessIsStrictTotalOrder(crc, setBits, a, b);
    }
    forall a, b, c | lt(a, b) && lt(b, c)
      ensures lt(a, c)
    {
      LessIsTransitive(crc, setBits, a, b, c);
    }
  }

  method SortEdges(crc: Crc, setBits: nat, edges: seq<SimpleEdge>, blockSize: nat, kmerge: nat, merges: nat)
    returns (out: Option<seq<SimpleEdge>>)
    requires blockSize > 0 && kmerge >= 2 && merges > 0
    ensures out.Some? ==> Sorted(EdgeLess(crc, setBits), out.value) && multiset(out.value) == multiset(edges)
    ensures out.Some? ==>
      forall i, j :: 0 <= i < j < |out.value| ==> !ComesFirst(crc, setBits, out.value[j], out.value[i])
    ensures out.None? ==> edges == []
  {
    EdgesAreTotallyOrdered(crc, setBits);
    out := Sort(EdgeLess(crc, setBits), edges, blockSize, kmerge, merges);
    if out.Some? {
      forall i, j | 0 <= i < j < |out.value|
        ensures !ComesFirst(crc, setBits, out.value[j], out.value[i])
      {
        assert !EdgeLess(crc, setBits)(out.value[j], out.value[i]);
        LessIsComesFirst(crc, setBits, out.value[j], out.value[i]);
      }
    }
  }
}
