/**
 The blocked shuffle and unshuffle of core/bitshuffle_core.c, driven by the pointer chain of core/iochain.c:
 full blocks, a shorter last block, and fewer than eight leftover elements copied as they are.
 */
module BitshuffleBlocks {
  import opened Bitshuffle
  import opened BitshufflePasses
  import opened BitshuffleSimd
  import opened BitshuffleInverse

  const IOC_SIZE := 33
  const BSHUF_BLOCKED_MULT := 8
  const BSHUF_MIN_RECOMMEND_BLOCK := 128
  const BSHUF_TARGET_BLOCK_SIZE_B := 8192

  // ---------- the pointer chain ----------

  /** The ring of input and output positions, each slot filled by the iteration before the one that reads it. */
  class IoChain {
    var next: nat
    const inPl: array<nat>
    const outPl: array<nat>

    ghost predicate Valid()
      reads this
    {
      inPl.Length == outPl.Length == IOC_SIZE && inPl != outPl
    }

    /** Another array than the two rings. */
    ghost predicate Apart(o: object) {
      o != inPl && o != outPl
    }

    /** The positions the next iteration will be given. */
    ghost function In(): nat
      requires Valid()
      reads this, inPl
    {
      inPl[next % IOC_SIZE]
    }

    ghost function Out(): nat
      requires Valid()
      reads this, outPl
    {
      outPl[next % IOC_SIZE]
    }

    constructor (in0: nat, out0: nat)
      ensures Valid() && fresh(inPl) && fresh(outPl) && next == 0 && In() == in0 && Out() == out0
    {
      next := 0;
      inPl := new nat[IOC_SIZE];
      outPl := new nat[IOC_SIZE];
      new;
      inPl[0] := in0;
      outPl[0] := out0;
    }

    method GetIn() returns (thisIter: nat, ptr: nat)
      requires Valid()
      modifies this`next
      ensures Valid() && thisIter == old(next) && next == old(next) + 1 && ptr == old(In())
    {
      thisIter := next;
      next := next + 1;
      ptr := inPl[thisIter % IOC_SIZE];
    }

    method SetNextIn(thisIter: nat, ptr: nat)
      requires Valid()
      modifies inPl
      ensures inPl[..] == old(inPl[..])[(thisIter + 1) % IOC_SIZE := ptr]
    {
      inPl[(thisIter + 1) % IOC_SIZE] := ptr;
    }

    method GetOut(thisIter: nat) returns (ptr: nat)
      requires Valid()
      ensures ptr == outPl[thisIter % IOC_SIZE]
    {
      ptr := outPl[thisIter % IOC_SIZE];
    }

    method SetNextOut(thisIter: nat, ptr: nat)
      requires Valid()
      modifies outPl
      ensures outPl[..] == old(outPl[..])[(thisIter + 1) % IOC_SIZE := ptr]
    {
      outPl[(thisIter + 1) % IOC_SIZE] := ptr;
    }

    /** Take the current positions and leave them, moved on, for the next iteration. */
    method Advance(bytes: nat) returns (from: nat, to: nat)
      requires Valid()
      modifies this`next, inPl, outPl
      ensures Valid() && from == old(In()) && to == old(Out()) && In() == from + bytes && Out() == to + bytes
    {
      var thisIter;
      thisIter, from := GetIn();
      SetNextIn(thisIter, from + bytes);
      to := GetOut(thisIter);
      SetNextOut(thisIter, to + bytes);
    }
  }

  // ---------- what the blocked form computes ----------

  datatype Form = Scalar | Sse | Avx

  /** Which of the two block functions is passed to the wrapper. */
  datatype Direction = Shuffle | Unshuffle

  ghost predicate Turned(dir: Direction, src: seq<bv8>, dst: seq<bv8>, n: nat, es: nat) {
    if dir.Shuffle? then Transpose(src, dst, n / 8, es) else Transpose(dst, src, n / 8, es)
  }

  /** The `bytes` bytes of n elements at `from` have been (un)shuffled to the same place. */
  ghost predicate BlockAt(dir: Direction, src: seq<bv8>, dst: seq<bv8>, from: nat, bytes: nat, n: nat, es: nat) {
    from + bytes <= |src| == |dst| && Turned(dir, src[from..from + bytes], dst[from..from + bytes], n, es)
  }

  ghost predicate FullBlocksAt(dir: Direction, src: seq<bv8>, dst: seq<bv8>, blocks: nat, bytes: nat, block: nat,
                               es: nat) {
    forall b: nat :: b < blocks ==> BlockAt(dir, src, dst, At(b, bytes, 0), bytes, block, es)
  }

  /** So many full blocks, then one of `last` elements, then bytes that are copied. */
  ghost predicate BlockedInto(dir: Direction, src: seq<bv8>, dst: seq<bv8>, blocks: nat, bytes: nat, block: nat,
                              lastBytes: nat,
                              last: nat, es: nat) {
    && |src| == |dst|
    && FullBlocksAt(dir, src, dst, blocks, bytes, block, es)
    && BlockAt(dir, src, dst, At(blocks, bytes, 0), lastBytes, last, es)
    && src[At(blocks, bytes, lastBytes)..] == dst[At(blocks, bytes, lastBytes)..]
  }

  /** The number of elements in the shorter last block. */
  function LastBlock(size: nat, block: nat): nat
    requires block > 0
  {
    size % block - size % block % BSHUF_BLOCKED_MULT
  }

  ghost predicate Blocked(dir: Direction, src: seq<bv8>, dst: seq<bv8>, size: nat, es: nat, block: nat)
    requires block > 0
  {
    && |src| == size * es
    && BlockedInto(dir, src, dst, size / block, block * es, block, LastBlock(size, block) * es, LastBlock(size, block),
      es)
  }

  /** Full blocks, last block and leftover lie end to end and fill the buffer. */
  lemma Layout(size: nat, es: nat, block: nat, blocks: nat, last: nat)
    requires block > 0 && block % 8 == 0 && blocks == size / block && last == LastBlock(size, block)
    ensures At(blocks, block * es, last * es) + size % 8 * es == size * es
    ensures last % 8 == 0
  {
    LayoutElements(size, block, blocks, last);
    LayoutBytes(size, es, block, blocks, last, size % 8);
  }

  lemma LayoutElements(size: nat, block: nat, blocks: nat, last: nat)
    requires block > 0 && block % 8 == 0 && blocks == size / block && last == LastBlock(size, block)
    ensures size == block * blocks + last + size % 8 && last % 8 == 0
  {
    BlockMultiple(block, blocks);
    RestOfSum(block * blocks, size % block);
  }

  lemma RestOfSum(a: nat, b: nat)
    requires a % 8 == 0
    ensures (a + b) % 8 == b % 8
  {
  }

  lemma LayoutBytes(size: nat, es: nat, block: nat, blocks: nat, last: nat, rest: nat)
    requires size == block * blocks + last + rest
    ensures At(blocks, block * es, last * es) + rest * es == size * es
  {
    assert size * es == block * blocks * es + last * es + rest * es;
    assert block * blocks * es == blocks * (block * es);
  }

  lemma BlockMultiple(block: nat, q: nat)
    requires block % 8 == 0
    ensures block * q % 8 == 0
  {
    assert block * q == 8 * (block / 8 * q);
  }

  /** The blocks before the last boundary lie before it. */
  lemma BlockEnds(b: nat, blocks: nat, bytes: nat)
    requires b < blocks
    ensures At(b, bytes, 0) + bytes == At(b + 1, bytes, 0) <= At(blocks, bytes, 0)
  {
    MulMonotone(b + 1, blocks, bytes);
  }

  lemma BlockUnique(plain: seq<bv8>, shuffled: seq<bv8>, plain': seq<bv8>, from: nat, bytes: nat, n: nat, es: nat,
                    k: nat)
    requires BlockAt(Shuffle, plain, shuffled, from, bytes, n, es) &&
      BlockAt(Unshuffle, shuffled, plain', from, bytes, n, es)
    requires from <= k < from + bytes
    ensures plain[k] == plain'[k]
  {
    var to := from + bytes;
    TransposeInjective(plain[from..to], plain'[from..to], shuffled[from..to], n / 8, es);
    assert plain[k] == plain[from..to][k - from];
    assert plain'[k] == plain'[from..to][k - from];
  }

  /** Unshuffling what was shuffled gives every byte back, wherever blocks and leftover fall. */
  lemma BlockedInverse(plain: seq<bv8>, shuffled: seq<bv8>, plain': seq<bv8>, size: nat, es: nat, block: nat)
    requires block > 0
    requires Blocked(Shuffle, plain, shuffled, size, es, block) && Blocked(Unshuffle, shuffled, plain', size, es, block)
    ensures plain == plain'
  {
    BlockedIntoInverse(plain, shuffled, plain', size / block, block * es, block, LastBlock(size, block) * es,
      LastBlock(size, block), es);
  }

  lemma BlockedIntoInverse(plain: seq<bv8>, shuffled: seq<bv8>, plain': seq<bv8>, blocks: nat, bytes: nat, block: nat,
                           lastBytes: nat,
                           last: nat, es: nat)
    requires BlockedInto(Shuffle, plain, shuffled, blocks, bytes, block, lastBytes, last, es)
    requires BlockedInto(Unshuffle, shuffled, plain', blocks, bytes, block, lastBytes, last, es)
    ensures plain == plain'
  {
    forall k | 0 <= k < |plain|
      ensures plain[k] == plain'[k]
    {
      BlockedByte(plain, shuffled, plain', blocks, bytes, block, lastBytes, last, es, k);
    }
  }

  lemma BlockedByte(plain: seq<bv8>, shuffled: seq<bv8>, plain': seq<bv8>, blocks: nat, bytes: nat, block: nat,
                    lastBytes: nat,
                    last: nat, es: nat, k: nat)
    requires k < |plain|
    requires BlockedInto(Shuffle, plain, shuffled, blocks, bytes, block, lastBytes, last, es)
    requires BlockedInto(Unshuffle, shuffled, plain', blocks, bytes, block, lastBytes, last, es)
    ensures plain[k] == plain'[k]
  {
    var full, tail := At(blocks, bytes, 0), At(blocks, bytes, lastBytes);
    if k < full {
      var b, c := AtSurjective(k, blocks, bytes);
      BlockUnique(plain, shuffled, plain', At(b, bytes, 0), bytes, block, es, k);
    } else if k < tail {
      BlockUnique(plain, shuffled, plain', full, lastBytes, last, es, k);
    } else {
      assert plain[k] == plain[tail..][k - tail] && plain'[k] == plain'[tail..][k - tail];
    }
  }

  // ---------- the drivers ----------

  /** `bshuf_bitshuffle_block`, `bshuf_bitunshuffle_block`. */
  method RunBlock(dir: Direction, form: Form, c: IoChain, inp: seq<bv8>, out: array<bv8>, n: nat, es: nat,
                  ghost bytes: nat) returns (count: int)
    requires bytes == n * es && n % 8 == 0
    requires c.Valid() && c.In() == c.Out() && c.In() + bytes <= |inp| == out.Length
    requires c.Apart(out)
    modifies c`next, c.inPl, c.outPl, out
    ensures c.Valid() && c.In() == c.Out() == old(c.In()) + bytes && count == bytes
    ensures BlockAt(dir, inp, out[..], old(c.In()), bytes, n, es)
    ensures out[..old(c.In())] == old(out[..])[..old(c.In())]
  {
    var from, to := c.Advance(n * es);
    count := TurnAt(dir, form, inp, out, from, to, n, es, bytes);
  }

  method TurnAt(dir: Direction, form: Form, inp: seq<bv8>, out: array<bv8>, from: nat, to: nat, n: nat, es: nat,
                ghost bytes: nat)
    returns (count: int)
    requires bytes == n * es && n % 8 == 0 && from == to && from + bytes <= |inp| == out.Length
    modifies out
    ensures count == bytes && BlockAt(dir, inp, out[..], from, bytes, n, es)
    ensures out[..from] == old(out[..])[..from]
  {
    var len, part := n * es, new bv8[0];
    count, part := TurnBlock(dir, form, inp[from..from + len], n, es);
    Paste(part, out, to);
    PastedBlock(dir, inp, part[..], out[..], from, bytes, n, es);
  }

  lemma PastedBlock(dir: Direction, inp: seq<bv8>, part: seq<bv8>, out: seq<bv8>, from: nat, bytes: nat, n: nat,
                    es: nat)
    requires from + bytes <= |inp| == |out| && Turned(dir, inp[from..from + bytes], part, n, es)
    requires out[from..from + bytes] == part
    ensures BlockAt(dir, inp, out, from, bytes, n, es)
  {
  }

  /** `bshuf_trans_bit_elem` or `bshuf_untrans_bit_elem`, in the form the build selects. */
  method TurnBlock(dir: Direction, form: Form, inp: seq<bv8>, n: nat, es: nat) returns (count: int, part: array<bv8>)
    requires |inp| == n * es && n % 8 == 0
    ensures fresh(part) && part.Length == |inp| == count && Turned(dir, inp, part[..], n, es)
  {
    part := new bv8[n * es];
    if dir.Unshuffle? {
      if form.Scalar? {
        count := UntransBitElem(inp, part, n, es);
      } else {
        count := UntransBitElemSimd(inp, part, n, es, form.Avx?);
      }
    } else if form.Scalar? {
      count := TransBitElemScalar(inp, part, n, es);
    } else {
      count := TransBitElemSimd(inp, part, n, es, if form.Sse? then 2 else 4);
    }
  }

  /** The bytes written through a pointer to `to`. */
  method Paste(part: array<bv8>, out: array<bv8>, to: nat)
    requires to + part.Length <= out.Length && part != out
    modifies out
    ensures out[..] == old(out[..])[..to] + part[..] + old(out[..])[to + part.Length..]
  {
    forall k | 0 <= k < part.Length {
      out[to + k] := part[k];
    }
  }

  /** `bshuf_default_block_size`: the largest block of at most 8192 bytes, though never under 128 elements. */
  function DefaultBlockSize(es: nat): (block: nat)
    requires es > 0
    ensures block % 8 == 0 && block >= BSHUF_MIN_RECOMMEND_BLOCK
    ensures block > BSHUF_MIN_RECOMMEND_BLOCK ==> block <= BSHUF_TARGET_BLOCK_SIZE_B / es < block + 8
  {
    var block := BSHUF_TARGET_BLOCK_SIZE_B / es / BSHUF_BLOCKED_MULT * BSHUF_BLOCKED_MULT;
    if block > BSHUF_MIN_RECOMMEND_BLOCK then block else BSHUF_MIN_RECOMMEND_BLOCK
  }

  /** It fits 8192 bytes unless it is the least, and no multiple of 8 beyond 128 that fits is larger. */
  lemma DefaultIsLargest(es: nat, b: nat)
    requires es > 0
    ensures DefaultBlockSize(es) == 128 || DefaultBlockSize(es) * es <= 8192
    ensures b % 8 == 0 && b > 128 && b * es <= 8192 ==> b <= DefaultBlockSize(es)
    ensures DefaultBlockSize(es) % 8 == 0 && DefaultBlockSize(es) >= 128
  {
    var q := 8192 / es;
    QuotientBounds(8192, es, q);
    var block := q / 8 * 8;
    MulMonotone(block, q, es);
    if b % 8 == 0 && b * es <= 8192 {
      if b > q {
        MulMonotone(q + 1, b, es);
        assert false;
      }
      assert b == b / 8 * 8 && b / 8 <= q / 8;
    }
  }

  lemma QuotientBounds(x: nat, d: nat, q: nat)
    requires d > 0 && q == x / d
    ensures q * d <= x < (q + 1) * d
  {
    assert x == q * d + x % d;
  }

  /** The block size in force for a requested one. */
  function EffectiveBlock(requested: nat, es: nat): (block: nat)
    requires requested > 0 || es > 0
    ensures block > 0 && (requested % 8 == 0 ==> block % 8 == 0)
    ensures requested > 0 ==> block == requested
    ensures requested == 0 ==> block == DefaultBlockSize(es)
  {
    if requested == 0 then DefaultBlockSize(es) else requested
  }

  /** What comes further on leaves a block as it was. */
  lemma EarlierBlock(dir: Direction, src: seq<bv8>, dst: seq<bv8>, dst': seq<bv8>, from: nat, bytes: nat, n: nat,
                     es: nat, upTo: nat)
    requires BlockAt(dir, src, dst, from, bytes, n, es) && from + bytes <= upTo <= |dst| == |dst'|
    requires dst[..upTo] == dst'[..upTo]
    ensures BlockAt(dir, src, dst', from, bytes, n, es)
  {
    assert dst[from..from + bytes] == dst[..upTo][from..from + bytes];
    assert dst'[from..from + bytes] == dst'[..upTo][from..from + bytes];
  }

  lemma EarlierBlocks(dir: Direction, src: seq<bv8>, dst: seq<bv8>, dst': seq<bv8>, blocks: nat, bytes: nat,
                      block: nat, es: nat)
    requires FullBlocksAt(dir, src, dst, blocks, bytes, block, es) && |dst| == |dst'|
    requires At(blocks, bytes, 0) <= |dst| && dst[..At(blocks, bytes, 0)] == dst'[..At(blocks, bytes, 0)]
    ensures FullBlocksAt(dir, src, dst', blocks, bytes, block, es)
  {
    forall b: nat | b < blocks
      ensures BlockAt(dir, src, dst', At(b, bytes, 0), bytes, block, es)
    {
      BlockEnds(b, blocks, bytes);
      EarlierBlock(dir, src, dst, dst', At(b, bytes, 0), bytes, block, es, At(blocks, bytes, 0));
    }
  }

  /** `bshuf_blocked_wrap_fun`. */
  method BlockedWrap(dir: Direction, form: Form, inp: seq<bv8>, out: array<bv8>, size: nat, es: nat, requested: nat)
    returns (count: int)
    requires |inp| == size * es == out.Length && (requested > 0 || es > 0)
    modifies out
    ensures requested % 8 != 0 ==> count == -81 && out[..] == old(out[..])
    ensures requested % 8 == 0 ==>
      count == size * es && Blocked(dir, inp, out[..], size, es, EffectiveBlock(requested, es))
  {
    var c := new IoChain(0, 0);
    assert c.Apart(out);
    var block := if requested == 0 then DefaultBlockSize(es) else requested;
    if block % BSHUF_BLOCKED_MULT != 0 {
      return -81;
    }
    var blocks, last := size / block, LastBlock(size, block);
    Layout(size, es, block, blocks, last);
    var leftover := size % BSHUF_BLOCKED_MULT * es;
    count := WrapBlocks(dir, form, c, inp, out, blocks, block, block * es, last, last * es, leftover, es);
  }

  method WrapBlocks(dir: Direction, form: Form, c: IoChain, inp: seq<bv8>, out: array<bv8>, blocks: nat, block: nat,
                    ghost bytes: nat,
                    last: nat, ghost lastBytes: nat, leftover: nat, es: nat) returns (count: int)
    requires bytes == block * es && block % 8 == 0 && lastBytes == last * es && last % 8 == 0
    requires At(blocks, bytes, lastBytes) + leftover == |inp| == out.Length
    requires c.Valid() && c.In() == c.Out() == 0
    requires c.Apart(out)
    modifies c`next, c.inPl, c.outPl, out
    ensures count == |inp| && BlockedInto(dir, inp, out[..], blocks, bytes, block, lastBytes, last, es)
  {
    var cum := FullBlocks(dir, form, c, inp, out, blocks, block, bytes, es);
    count := MaybeLastBlock(dir, form, c, inp, out, blocks, block, bytes, last, lastBytes, es);
    var from, to := c.Advance(leftover);
    CopyLeftover(dir, inp, out, from, to, leftover, blocks, bytes, block, lastBytes, last, es);
    count := cum + count + leftover;
  }

  /** `memcpy(last_out, last_in, leftover_bytes)`. */
  method CopyLeftover(dir: Direction, inp: seq<bv8>, out: array<bv8>, from: nat, to: nat, leftover: nat,
                      ghost blocks: nat, ghost bytes: nat,
                      ghost block: nat, ghost lastBytes: nat, ghost last: nat, ghost es: nat)
    requires from == to == At(blocks, bytes, lastBytes) && to + leftover == out.Length == |inp|
    requires FullBlocksAt(dir, inp, out[..], blocks, bytes, block, es)
    requires BlockAt(dir, inp, out[..], At(blocks, bytes, 0), lastBytes, last, es)
    modifies out
    ensures BlockedInto(dir, inp, out[..], blocks, bytes, block, lastBytes, last, es)
  {
    ghost var before := out[..];
    ghost var full := At(blocks, bytes, 0);
    forall k | 0 <= k < leftover {
      out[to + k] := inp[from + k];
    }
    assert before[..full] == out[..full] && before[..to] == out[..to];
    EarlierBlocks(dir, inp, before, out[..], blocks, bytes, block, es);
    EarlierBlock(dir, inp, before, out[..], full, lastBytes, last, es, to);
  }

  method MaybeLastBlock(dir: Direction, form: Form, c: IoChain, inp: seq<bv8>, out: array<bv8>, blocks: nat,
                        block: nat, ghost bytes: nat,
                        last: nat, ghost lastBytes: nat, es: nat) returns (count: int)
    requires lastBytes == last * es && last % 8 == 0
    requires At(blocks, bytes, lastBytes) <= |inp| == out.Length
    requires c.Valid() && c.In() == c.Out() == At(blocks, bytes, 0)
    requires FullBlocksAt(dir, inp, out[..], blocks, bytes, block, es)
    requires c.Apart(out)
    modifies c`next, c.inPl, c.outPl, out
    ensures c.Valid() && c.In() == c.Out() == old(c.In()) + lastBytes && count == lastBytes
    ensures FullBlocksAt(dir, inp, out[..], blocks, bytes, block, es)
    ensures BlockAt(dir, inp, out[..], At(blocks, bytes, 0), lastBytes, last, es)
  {
    count := 0;
    if last != 0 {
      ghost var before := out[..];
      count := RunBlock(dir, form, c, inp, out, last, es, lastBytes);
      EarlierBlocks(dir, inp, before, out[..], blocks, bytes, block, es);
    }
  }

  method FullBlocks(dir: Direction, form: Form, c: IoChain, inp: seq<bv8>, out: array<bv8>, blocks: nat, block: nat,
                    ghost bytes: nat,
                    es: nat) returns (cum: int)
    requires bytes == block * es && block % 8 == 0
    requires At(blocks, bytes, 0) <= |inp| == out.Length
    requires c.Valid() && c.In() == c.Out() == 0
    requires c.Apart(out)
    modifies c`next, c.inPl, c.outPl, out
    ensures c.Valid() && c.In() == c.Out() == At(blocks, bytes, 0) == cum
    ensures FullBlocksAt(dir, inp, out[..], blocks, bytes, block, es)
  {
    cum := 0;
    var ii := 0;
    while ii < blocks
      invariant 0 <= ii <= blocks
      invariant c.Valid() && c.In() == c.Out() == At(ii, bytes, 0) == cum
      invariant FullBlocksAt(dir, inp, out[..], ii, bytes, block, es)
    {
      BlockEnds(ii, blocks, bytes);
      ghost var before := out[..];
      var count := RunBlock(dir, form, c, inp, out, block, es, bytes);
      EarlierBlocks(dir, inp, before, out[..], ii, bytes, block, es);
      cum := cum + count;
      ii := ii + 1;
    }
  }

  /** Shuffling and unshuffling, in any form and with any legal block size, gives the bytes back. */
  method RoundTrip(form: Form, inp: seq<bv8>, size: nat, es: nat, requested: nat) returns (back: seq<bv8>)
    requires |inp| == size * es && (requested > 0 || es > 0) && requested % 8 == 0
    ensures back == inp
  {
    var shuffled, plain := new bv8[size * es], new bv8[size * es];
    var count := BlockedWrap(Shuffle, form, inp, shuffled, size, es, requested);
    count := BlockedWrap(Unshuffle, form, shuffled[..], plain, size, es, requested);
    BlockedInverse(inp, shuffled[..], plain[..], size, es, EffectiveBlock(requested, es));
    back := plain[..];
  }
}
