/** Unpacking a blockindexed leaf in blocks of several elements by typed assignments: the copy macro moves its
    destination along but not its source, so that every block gets the same bytes, the first ones after the part of
    an instance that was handed over block by block. */
module TypedCopy {
  import opened Dataloops
  import opened LeafBlocks
  import opened Memory

  /* ---------- which bytes are drawn ---------- */

  /** Where byte k of a window comes from, counted from the window's start in the stream buffer: the first `head`
      bytes are drawn one by one, all others from the `period` bytes behind them. */
  function Source(k: nat, head: nat, period: nat): (r: nat)
    requires period >= 1
    ensures r <= k
  {
    if k < head then k else head + (k - head) % period
  }

  ghost function Drawn(s: seq<byte>, pos: nat, head: nat, period: nat, len: nat): (r: seq<byte>)
    requires period >= 1 && pos + len <= |s|
    ensures |r| == len
  {
    seq(len, k requires 0 <= k < len => s[pos + Source(k, head, period)])
  }

  lemma DrawnNext(s: seq<byte>, pos: nat, head: nat, period: nat, len: nat)
    requires period >= 1 && pos + len < |s|
    ensures Drawn(s, pos, head, period, len + 1)
         == Drawn(s, pos, head, period, len) + [s[pos + Source(len, head, period)]]
  {
  }

  lemma DrawnIs(s: seq<byte>, pos: nat, head: nat, period: nat, len: nat)
    requires period >= 1 && pos + len <= |s|
    ensures Drawn(s, pos, head, period, len) == s[pos..pos + len]
       <==> forall k: nat | k < len :: s[pos + Source(k, head, period)] == s[pos + k]
  {
    hide Source;
    var drawn, plain := Drawn(s, pos, head, period, len), s[pos..pos + len];
    assert forall k: nat | k < len :: drawn[k] == s[pos + Source(k, head, period)] && plain[k] == s[pos + k];
    if drawn == plain {
      forall k: nat | k < len ensures s[pos + Source(k, head, period)] == s[pos + k] {
        assert drawn[k] == plain[k];
      }
    }
  }

  /** The bytes that a run of the given length draws without going back. */
  ghost predicate Straight(k: nat, head: nat, period: nat, from: nat, len: nat)
    requires period >= 1
  {
    forall j: nat | k <= j < k + len :: Source(j, head, period) == from + (j - k)
  }

  lemma StraightHead(k: nat, head: nat, period: nat, len: nat)
    requires period >= 1 && k + len <= head
    ensures Straight(k, head, period, k, len)
  {
  }

  lemma StraightBlock(k: nat, head: nat, period: nat, len: nat)
    requires period >= 1 && k >= head && (k - head) % period == 0 && len <= period
    ensures Straight(k, head, period, head, len)
  {
    forall j: nat | k <= j < k + len ensures Source(j, head, period) == head + (j - k) {
      DivIs(j - head, period, (k - head) / period, j - k);
    }
  }

  /** When the offsets are distinct, drawing in this way stores the right bytes if and only if each byte has the
      value of the one drawn in its place: the data repeats the first `period` bytes behind the head. */
  lemma DrawnRight(mem: seq<byte>, origin: int, offs: seq<int>, drawn: seq<byte>, right: seq<byte>)
    requires |drawn| == |right| == |offs| && Inside(offs, origin, |mem|) && Distinct(offs)
    ensures Scatter(mem, origin, offs, drawn) == Scatter(mem, origin, offs, right) <==> drawn == right
  {
    GatherScatter(mem, origin, offs, drawn);
    GatherScatter(mem, origin, offs, right);
  }

  /* ---------- positions ---------- */

  /** What is left of the instance that offset `first` lies in, if it does not begin there. */
  function HeadOf(first: nat, inst: nat): (r: nat)
    requires inst >= 1
    ensures r < inst && (first + r) % inst == 0
  {
    DivMod(first, inst);
    var q, m := first / inst, first % inst;
    assert m == 0 ==> (first + 0) % inst == 0;
    assert m > 0 ==> (first + (inst - m)) % inst == 0 by {
      if m > 0 {
        Times(q, 1, inst);
        DivIs(first + (inst - m), inst, q + 1, 0);
      }
    }
    if m == 0 then 0 else inst - m
  }

  /** Inside an instance that began before the head ended, the head is not yet over. */
  lemma InHead(first: nat, inst: nat, off: nat, len: nat)
    requires inst >= 1 && first <= off < first + HeadOf(first, inst)
    requires off % inst + len <= inst
    ensures off + len <= first + HeadOf(first, inst)
  {
    var b := first + HeadOf(first, inst);
    var q := b / inst;
    assert b == q * inst;
    assert q >= 1 by {
      if q == 0 {
        assert 0 * inst == 0;
      }
    }
    Times(q - 1, 1, inst);
    DivIs(off, inst, q - 1, off - (q - 1) * inst);
  }

  /** Where an instance begins, the head is over, by a whole number of instances. */
  lemma AfterHead(first: nat, inst: nat, off: nat, count: nat, period: nat)
    requires inst >= 1 && first <= off && off % inst == 0 && period >= 1 && inst == count * period
    ensures off >= first + HeadOf(first, inst) && (off - (first + HeadOf(first, inst))) % period == 0
  {
    var b := first + HeadOf(first, inst);
    var p, q := off / inst, b / inst;
    assert off == p * inst && b == q * inst;
    if p < q {
      MulLe(p + 1, q, inst);
      Times(p, 1, inst);
    }
    Times(q, p - q, inst);
    Multiple(p - q, count, period);
  }

  lemma Multiple(a: nat, b: nat, d: nat)
    requires d >= 1
    ensures (a * (b * d)) % d == 0
  {
    assert a * (b * d) == (a * b) * d + 0;
    DivIs(a * (b * d), d, a * b, 0);
  }

  /** The bytes of a block, and of an instance of the leaf. */
  function PeriodOf(leaf: Loop): nat {
    leaf.shape.BlockSize(0) * leaf.elSize
  }

  function InstanceOf(leaf: Loop): nat {
    BlocksLeft(leaf.shape, 0) * leaf.elSize
  }

  lemma InstanceIs(leaf: Loop)
    requires leaf.Leaf? && leaf.WellFormed() && leaf.shape.BlockIndexed?
    ensures PeriodOf(leaf) >= 1 && InstanceOf(leaf) >= 1
    ensures InstanceOf(leaf) == leaf.shape.Count() * PeriodOf(leaf)
  {
    var c, b, z := leaf.shape.Count(), leaf.shape.BlockSize(0), leaf.elSize;
    UniformLeft(leaf.shape, 0, b);
    MulLe(1, b, z);
    assert (c * b) * z == c * (b * z);
    MulLe(1, c, b * z);
  }

  /* ---------- the piece functions ---------- */

  /** m2m_params, for unpacking the bytes first..first + total - 1 of a stream whose leaf is `leaf`. */
  class TypedParams {
    const user: array<byte>
    const origin: int
    const stream: array<byte>
    var streambuf: nat

    ghost const leaf: Loop
    ghost const first: nat
    ghost const total: nat
    ghost const start: nat
    ghost var emitted: seq<int>
    ghost var user0: seq<byte>
    ghost var stream0: seq<byte>

    ghost predicate TypedLeaf() {
      && leaf.Leaf? && leaf.WellFormed() && leaf.shape.BlockIndexed?
      && PeriodOf(leaf) >= 1 && InstanceOf(leaf) == leaf.shape.Count() * PeriodOf(leaf)
    }

    ghost function Head(): nat
      requires InstanceOf(leaf) >= 1
    {
      HeadOf(first, InstanceOf(leaf))
    }

    /** What has been written so far. */
    ghost predicate Written()
      reads this, user, stream
    {
      && TypedLeaf() && user != stream && start + total <= stream.Length && InstanceOf(leaf) >= 1
      && |user0| == user.Length && stream0 == stream[..]
      && |emitted| <= total && Inside(emitted, origin, user.Length)
      && user[..] == Scatter(user0, origin, emitted, Drawn(stream0, start, Head(), PeriodOf(leaf), |emitted|))
    }

    /** The source pointer has passed the head only. */
    ghost predicate Valid()
      reads this, user, stream
    {
      && Written()
      && streambuf == start + (if |emitted| < Head() then |emitted| else Head())
      && (|emitted| <= Head() || (first + |emitted|) % InstanceOf(leaf) == 0 || |emitted| == total)
    }

    constructor (user: array<byte>, origin: int, stream: array<byte>, pos: nat, ghost leaf: Loop, ghost first: nat,
                 ghost total: nat)
      requires user != stream && pos + total <= stream.Length
      requires leaf.Leaf? && leaf.WellFormed() && leaf.shape.BlockIndexed?
      ensures Valid() && emitted == [] && user0 == user[..] && stream0 == stream[..]
      ensures this.user == user && this.origin == origin && this.stream == stream && start == pos
      ensures this.leaf == leaf && this.first == first && this.total == total
    {
      this.user, this.origin, this.stream, streambuf := user, origin, stream, pos;
      this.leaf, this.first, this.total, start := leaf, first, total, pos;
      emitted, user0, stream0 := [], user[..], stream[..];
      new;
      InstanceIs(leaf);
    }

    ghost predicate Room(bytes: seq<int>)
      reads this
    {
      |emitted| + |bytes| <= total && Inside(bytes, origin, user.Length)
    }

    ghost predicate SameRun(user0_: seq<byte>, stream0_: seq<byte>)
      reads this
    {
      user0 == user0_ && stream0 == stream0_
    }

    method PutByte(off: int, src: nat)
      requires Written() && |emitted| < total && 0 <= origin + off < user.Length
      requires src == start + Source(|emitted|, Head(), PeriodOf(leaf))
      modifies this`emitted, user
      ensures Written() && emitted == old(emitted) + [off] && SameRun(old(user0), old(stream0))
    {
      hide Scatter, Inside, Source, HeadOf;
      ghost var k := |emitted|;
      ghost var done := Drawn(stream0, start, Head(), PeriodOf(leaf), k);
      DrawnNext(stream0, start, Head(), PeriodOf(leaf), k);
      ScatterOne(user0, origin, emitted, done, off, stream0[src]);
      user[origin + off] := stream[src];
      emitted := emitted + [off];
    }

    /** `len` bytes from index src of the stream to offset off. */
    method CopyRun(off: int, len: nat, src: nat)
      requires Written() && Room(Run(off, len))
      requires src >= start && Straight(|emitted|, Head(), PeriodOf(leaf), src - start, len)
      modifies this`emitted, user
      ensures Written() && emitted == old(emitted) + Run(off, len) && SameRun(old(user0), old(stream0))
    {
      hide Scatter, Source, Drawn, TypedLeaf, HeadOf;
      assert forall j: nat | j < len :: Run(off, len)[j] == off + j;
      for i := 0 to len
        invariant Written() && emitted == old(emitted) + Run(off, i) && SameRun(old(user0), old(stream0))
      {
        assert Run(off, len)[i] == off + i;
        PutByte(off + i, src + i);
        assert Run(off, i + 1) == Run(off, i) + [off + i];
      }
    }

    /** Part of an instance that did not begin in the window: the source pointer moves along. */
    method Contig(n: nat, elSize: nat, relOff: int)
      requires Valid() && n * elSize >= 1 && Room(Run(relOff, n * elSize))
      requires 0 < (first + |emitted|) % InstanceOf(leaf) <= InstanceOf(leaf) - n * elSize
      modifies this`streambuf, this`emitted, user
      ensures Valid() && emitted == old(emitted) + Run(relOff, n * elSize) && SameRun(old(user0), old(stream0))
    {
      hide Scatter, Drawn, HeadOf, TypedLeaf, Inside, Straight;
      StillHead(n * elSize);
      CopyRun(relOff, n * elSize, streambuf);
      streambuf := streambuf + n * elSize;
    }

    lemma StillHead(len: nat)
      requires Valid() && 1 <= len <= total - |emitted|
      requires 0 < (first + |emitted|) % InstanceOf(leaf) <= InstanceOf(leaf) - len
      ensures InstanceOf(leaf) >= 1 && PeriodOf(leaf) >= 1
      ensures |emitted| + len <= Head() && streambuf == start + |emitted|
      ensures Straight(|emitted|, Head(), PeriodOf(leaf), |emitted|, len)
    {
      InHead(first, InstanceOf(leaf), first + |emitted|, len);
      StraightHead(|emitted|, Head(), PeriodOf(leaf), len);
    }

    /** Behind the head, a whole number of periods. */
    ghost predicate AtPeriod()
      requires InstanceOf(leaf) >= 1 && PeriodOf(leaf) >= 1
      reads this
    {
      |emitted| >= Head() && (|emitted| - Head()) % PeriodOf(leaf) == 0
    }

    lemma HeadOver()
      requires Valid() && (first + |emitted|) % InstanceOf(leaf) == 0
      ensures InstanceOf(leaf) >= 1 && PeriodOf(leaf) >= 1 && AtPeriod() && streambuf == start + Head()
    {
      AfterHead(first, InstanceOf(leaf), first + |emitted|, leaf.shape.Count(), PeriodOf(leaf));
    }

    /** A block of at most one period. */
    lemma BlockRun(relOff: int, i: nat, left: nat, len: nat)
      requires Written() && 1 <= left <= BlocksLeft(leaf.shape, i) && Room(Taken(leaf, relOff, i, left))
      requires len == if left < leaf.shape.BlockSize(0) then left else leaf.shape.BlockSize(0)
      ensures i < |leaf.shape.bioffsets| && 1 <= len <= left && PeriodOf(leaf) >= 1 && InstanceOf(leaf) >= 1
      ensures 1 <= len * leaf.elSize <= PeriodOf(leaf) && (len < left ==> len * leaf.elSize == PeriodOf(leaf))
      ensures left - len <= BlocksLeft(leaf.shape, i + 1)
      ensures Taken(leaf, relOff, i, left)
           == Run(relOff + leaf.shape.bioffsets[i], len * leaf.elSize) + Taken(leaf, relOff, i + 1, left - len)
      ensures Room(Run(relOff + leaf.shape.bioffsets[i], len * leaf.elSize))
    {
      hide Scatter, Drawn;
      TakenBlock(leaf, relOff, i, left, len, relOff + leaf.shape.bioffsets[i]);
      MulLe(len, leaf.shape.BlockSize(0), leaf.elSize);
      MulLe(1, len, leaf.elSize);
      InsideAppend(Run(relOff + leaf.shape.bioffsets[i], len * leaf.elSize), Taken(leaf, relOff, i + 1, left - len),
                   origin, user.Length);
    }

    method CopyBlock(off: int, size: nat, ghost tail: seq<int>)
      requires Written() && AtPeriod() && streambuf == start + Head()
      requires 1 <= size <= PeriodOf(leaf) && Room(Run(off, size) + tail)
      modifies this`emitted, user
      ensures Written() && SameRun(old(user0), old(stream0)) && Room(tail)
      ensures emitted == old(emitted) + Run(off, size) && (size == PeriodOf(leaf) ==> AtPeriod())
    {
      hide Written, TypedLeaf, Inside, HeadOf, Straight, Source;
      ghost var k := |emitted|;
      StraightBlock(k, Head(), PeriodOf(leaf), size);
      InsideAppend(Run(off, size), tail, origin, user.Length);
      CopyRun(off, size, streambuf);
      if size == PeriodOf(leaf) {
        DivStep(k - Head() + size, size);
      }
    }

    /** The loop over blocks of several elements: every block from the same place, and the source pointer stays
        there. */
    method BlkIdx(n: nat, blocklen: nat, offsetarray: seq<int>, elSize: nat, relOff: int)
      requires Valid() && leaf.shape == BlockIndexed(blocklen, offsetarray) && leaf.elSize == elSize
      requires 1 <= n <= BlocksLeft(leaf.shape, 0) && Room(Taken(leaf, relOff, 0, n))
      requires (first + |emitted|) % InstanceOf(leaf) == 0
      requires n == BlocksLeft(leaf.shape, 0) || |emitted| + n * elSize == total
      modifies this`emitted, user
      ensures Valid() && emitted == old(emitted) + Taken(leaf, relOff, 0, n) && SameRun(old(user0), old(stream0))
    {
      hide Drawn, Scatter, HeadOf, Taken, BlocksLeft, Inside, Source;
      HeadOver();
      ghost var before := emitted;
      var blocksLeft: nat, i := n, 0;
      while blocksLeft > 0
        invariant Written() && SameRun(old(user0), old(stream0))
        invariant blocksLeft <= BlocksLeft(leaf.shape, i) && Room(Taken(leaf, relOff, i, blocksLeft))
        invariant emitted + Taken(leaf, relOff, i, blocksLeft) == before + Taken(leaf, relOff, 0, n)
        invariant blocksLeft > 0 ==> AtPeriod()
      {
        var len := if blocklen > blocksLeft then blocksLeft else blocklen;
        BlockRun(relOff, i, blocksLeft, len);
        ghost var mid, run := emitted, Run(relOff + offsetarray[i], len * elSize);
        ghost var tail := Taken(leaf, relOff, i + 1, blocksLeft - len);
        CopyBlock(relOff + offsetarray[i], len * elSize, tail);
        Assoc(mid, run, tail);
        blocksLeft := blocksLeft - len;
        i := i + 1;
      }
      TakenZero(leaf, relOff, i);
      Ended(relOff, n, before);
    }

    lemma Ended(relOff: int, n: nat, before: seq<int>)
      requires Written() && emitted == before + Taken(leaf, relOff, 0, n) && streambuf == start + Head()
      requires n <= BlocksLeft(leaf.shape, 0) && |before| >= Head() && (first + |before|) % InstanceOf(leaf) == 0
      requires n == BlocksLeft(leaf.shape, 0) || |before| + n * leaf.elSize == total
      ensures Valid()
    {
      hide Scatter, Drawn, HeadOf, Inside;
      TakenLen(leaf, relOff, 0, n);
      if n == BlocksLeft(leaf.shape, 0) {
        DivStep(first + |emitted|, InstanceOf(leaf));
      }
    }
  }
}
