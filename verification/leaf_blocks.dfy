/** Leaf loops block by block: the first n elements from a block on, and what is left after them. */
module LeafBlocks {
  import opened Dataloops

  /** Elements in blocks i, i + 1, ... */
  function BlocksLeft(s: Shape, i: nat): nat
    decreases s.Count() - i
  {
    if i >= s.Count() then 0 else s.BlockSize(i) + BlocksLeft(s, i + 1)
  }

  /** The bytes of the first n elements of leaf l from block i on. */
  ghost function Taken(l: Loop, b: int, i: nat, n: nat): seq<int>
    decreases l.shape.Count() - i
  {
    if i >= l.shape.Count() then []
    else if n <= l.shape.BlockSize(i) then Run(b + l.shape.Offset(i), n * l.elSize)
    else
      Run(b + l.shape.Offset(i), l.shape.BlockSize(i) * l.elSize)
      + Taken(l, b, i + 1, n - l.shape.BlockSize(i))
  }

  /** The bytes after them. */
  ghost function Dropped(l: Loop, b: int, i: nat, n: nat): seq<int>
    decreases l.shape.Count() - i
  {
    if i >= l.shape.Count() then []
    else if n < l.shape.BlockSize(i) then
      Run(b + l.shape.Offset(i) + n * l.elSize, (l.shape.BlockSize(i) - n) * l.elSize)
      + BlocksFrom(l, b, i + 1)
    else Dropped(l, b, i + 1, n - l.shape.BlockSize(i))
  }

  lemma Times(a: nat, b: nat, c: nat)
    ensures (a + b) * c == a * c + b * c
  {
  }

  lemma SplitRun(b: int, n: nat, m: nat, sz: nat)
    requires n <= m
    ensures Run(b, n * sz) + Run(b + n * sz, (m - n) * sz) == Run(b, m * sz)
  {
    Times(n, m - n, sz);
    RunAppend(b, n * sz, (m - n) * sz);
  }

  lemma {:induction false} TakenZero(l: Loop, b: int, i: nat)
    ensures Taken(l, b, i, 0) == []
    decreases l.shape.Count() - i
  {
    if i < l.shape.Count() {
      assert 0 * l.elSize == 0;
    }
  }

  lemma {:induction false} DroppedZero(l: Loop, b: int, i: nat)
    requires l.Leaf?
    ensures Dropped(l, b, i, 0) == BlocksFrom(l, b, i)
    decreases l.shape.Count() - i
  {
    if i < l.shape.Count() {
      LeafElems(l, b + l.shape.Offset(i), l.shape.BlockSize(i));
      assert 0 * l.elSize == 0;
      if l.shape.BlockSize(i) == 0 {
        DroppedZero(l, b, i + 1);
      }
    }
  }

  lemma {:induction false} TakenLen(l: Loop, b: int, i: nat, n: nat)
    requires n <= BlocksLeft(l.shape, i)
    ensures |Taken(l, b, i, n)| == n * l.elSize
    decreases l.shape.Count() - i
  {
    MulLe(0, n, l.elSize);
    if i >= l.shape.Count() {
      assert n * l.elSize == 0;
    } else if n > l.shape.BlockSize(i) {
      var bs := l.shape.BlockSize(i);
      TakenLen(l, b, i + 1, n - bs);
      MulLe(0, bs, l.elSize);
      Times(bs, n - bs, l.elSize);
      var head, tail := bs * l.elSize, Taken(l, b, i + 1, n - bs);
      assert Taken(l, b, i, n) == Run(b + l.shape.Offset(i), head) + tail;
    }
  }

  /** The two parts are the whole. */
  lemma {:induction false} TakenDropped(l: Loop, b: int, i: nat, n: nat)
    requires l.Leaf?
    requires n <= BlocksLeft(l.shape, i)
    ensures BlocksFrom(l, b, i) == Taken(l, b, i, n) + Dropped(l, b, i, n)
    decreases l.shape.Count() - i
  {
    if i < l.shape.Count() {
      var o, bs := b + l.shape.Offset(i), l.shape.BlockSize(i);
      LeafElems(l, o, bs);
      var rest := BlocksFrom(l, b, i + 1);
      assert BlocksFrom(l, b, i) == Run(o, bs * l.elSize) + rest;
      if n < bs {
        SplitRun(o, n, bs, l.elSize);
        Assoc(Run(o, n * l.elSize), Run(o + n * l.elSize, (bs - n) * l.elSize), rest);
      } else if n == bs {
        DroppedZero(l, b, i + 1);
      } else {
        TakenDropped(l, b, i + 1, n - bs);
        Assoc(Run(o, bs * l.elSize), Taken(l, b, i + 1, n - bs), Dropped(l, b, i + 1, n - bs));
      }
    }
  }

  /** A leaf's size is a whole number of elements. */
  lemma {:induction false} LeafLen(l: Loop, b: int, i: nat)
    requires l.Leaf?
    ensures |BlocksFrom(l, b, i)| == BlocksLeft(l.shape, i) * l.elSize
    decreases l.shape.Count() - i
  {
    if i < l.shape.Count() {
      ElemsLen(l, b + l.shape.Offset(i), l.shape.BlockSize(i));
      LeafLen(l, b, i + 1);
      Times(l.shape.BlockSize(i), BlocksLeft(l.shape, i + 1), l.elSize);
    }
  }

  lemma DivMod(n: nat, d: nat)
    requires d >= 1
    ensures n / d >= 0 && n % d >= 0
    ensures WholeAndPart(n, d, n / d, n % d)
  {
  }

  lemma TimesNext(k: nat, d: int)
    requires k >= 1
    ensures k * d == d + (k - 1) * d
    ensures d >= 0 ==> (k - 1) * d >= 0
  {
  }

  lemma {:induction false} SumSame(n: nat, v: nat)
    ensures Sum(Same(n, v)) == n * v
    decreases n
  {
    if n > 0 {
      assert Same(n, v)[1..] == Same(n - 1, v);
      SumSame(n - 1, v);
      TimesNext(n, v);
    } else {
      assert n * v == 0;
    }
  }

  lemma OffsetZero(s: Shape)
    requires s.Vector?
    ensures s.Offset(0) == 0
  {
  }

  lemma OffsetNext(s: Shape, i: nat)
    requires s.Vector?
    ensures s.Offset(i + 1) == s.Offset(i) + s.stride
  {
    TimesNext(i + 1, s.stride);
  }

  /** k whole blocks of d elements and a part of r < d elements. */
  ghost predicate WholeAndPart(n: nat, d: nat, k: nat, r: nat) {
    n == k * d + r && r < d
  }

  lemma WholePart(n: nat, d: nat, k: nat, r: nat)
    requires WholeAndPart(n, d, k, r)
    ensures k == 0 ==> n == r
    ensures k >= 1 ==> n >= d && WholeAndPart(n - d, d, k - 1, r)
  {
    if k >= 1 {
      TimesNext(k, d);
    }
  }

  lemma MulLe(a: nat, b: nat, d: nat)
    requires a <= b
    ensures a * d <= b * d
  {
  }

  lemma DivIs(n: nat, d: nat, q: nat, r: nat)
    requires n == q * d + r && r < d
    ensures n / d == q && n % d == r
  {
    var q' := n / d;
    Times(q, 1, d);
    Times(q', 1, d);
    if q < q' {
      MulLe(q + 1, q', d);
    } else if q' < q {
      MulLe(q' + 1, q, d);
    }
  }

  lemma DivStep(n: nat, d: nat)
    requires d >= 1 && n >= d
    ensures n / d == (n - d) / d + 1 && n % d == (n - d) % d
  {
    var q, r := (n - d) / d, (n - d) % d;
    assert (q + 1) * d == q * d + d;
    DivIs(n, d, q + 1, r);
  }

  /** With equal blocks the position after n elements is a quotient and a remainder. */
  lemma {:induction false} DroppedUniform(l: Loop, b: int, i: nat, n: nat, bs: nat)
    requires bs >= 1
    requires forall j: nat | j < l.shape.Count() :: l.shape.BlockSize(j) == bs
    requires n <= BlocksLeft(l.shape, i) && i <= l.shape.Count()
    ensures i + n / bs <= l.shape.Count()
    ensures i + n / bs == l.shape.Count() ==> n % bs == 0
    ensures Dropped(l, b, i, n) == Dropped(l, b, i + n / bs, n % bs)
    decreases n
  {
    if n < bs {
      DivIs(n, bs, 0, n);
    } else {
      DroppedUniform(l, b, i + 1, n - bs, bs);
      DivStep(n, bs);
    }
  }

  lemma {:induction false} UniformLeft(s: Shape, i: nat, bs: nat)
    requires forall j: nat | j < s.Count() :: s.BlockSize(j) == bs
    requires i <= s.Count()
    ensures BlocksLeft(s, i) == (s.Count() - i) * bs
    decreases s.Count() - i
  {
    if i < s.Count() {
      UniformLeft(s, i + 1, bs);
      Times(1, s.Count() - i - 1, bs);
    }
  }

  lemma {:induction false} SumLeft(s: Shape, i: nat)
    requires s.Indexed? && i <= |s.blocksizes|
    ensures BlocksLeft(s, i) == Sum(s.blocksizes[i..])
    decreases s.Count() - i
  {
    if i < s.Count() {
      SumLeft(s, i + 1);
      assert s.blocksizes[i..][1..] == s.blocksizes[i + 1..];
    }
  }

  /** The cached number of elements that the engine asks an indexed piece function for. */
  lemma TotalLeft(s: Shape)
    requires s.Indexed? && s.Positive()
    ensures s.totalBlocks == BlocksLeft(s, 0)
  {
    SumLeft(s, 0);
    assert s.blocksizes[0..] == s.blocksizes;
  }

  /** A vector piece function is given the blocks from the current one on as a vector of its own. */
  lemma {:induction false} TakenRebased(l: Loop, b: int, i: nat, m: Loop, b': int, j: nat, n: nat)
    requires l.Leaf? && m.Leaf? && l.elSize == m.elSize
    requires l.shape.Vector? && m.shape.Vector?
    requires l.shape.vblocksize == m.shape.vblocksize && l.shape.stride == m.shape.stride
    requires i <= l.shape.Count() && j <= m.shape.Count()
    requires l.shape.Count() - i == m.shape.Count() - j
    requires b + l.shape.Offset(i) == b' + m.shape.Offset(j)
    ensures Taken(l, b, i, n) == Taken(m, b', j, n)
    ensures BlocksLeft(l.shape, i) == BlocksLeft(m.shape, j)
    decreases l.shape.Count() - i
  {
    if i < l.shape.Count() {
      assert (i + 1) * l.shape.stride == i * l.shape.stride + l.shape.stride;
      assert (j + 1) * l.shape.stride == j * l.shape.stride + l.shape.stride;
      TakenRebased(l, b, i + 1, m, b', j + 1,
                   if n <= l.shape.vblocksize then 0 else n - l.shape.vblocksize);
    }
  }

  /** The first block split off. */
  lemma TakenUnfold(l: Loop, b: int, i: nat, n: nat)
    requires i < l.shape.Count() && n >= l.shape.BlockSize(i)
    ensures Taken(l, b, i, n)
         == Run(b + l.shape.Offset(i), l.shape.BlockSize(i) * l.elSize)
            + Taken(l, b, i + 1, n - l.shape.BlockSize(i))
  {
    if n == l.shape.BlockSize(i) {
      TakenZero(l, b, i + 1);
    }
  }

  /** The first block of what is taken, whole or in part. */
  lemma TakenBlock(l: Loop, b: int, i: nat, left: nat, n: nat, off: int)
    requires i < l.shape.Count() && off == b + l.shape.Offset(i)
    requires n == if left < l.shape.BlockSize(i) then left else l.shape.BlockSize(i)
    ensures Taken(l, b, i, left) == Run(off, n * l.elSize) + Taken(l, b, i + 1, left - n)
  {
    if left < l.shape.BlockSize(i) {
      TakenZero(l, b, i + 1);
    } else {
      TakenUnfold(l, b, i, left);
    }
  }

  /** Fewer elements are a prefix of more. */
  lemma RunPrefix(b: int, p: nat, q: nat, rest: seq<int>)
    requires p <= q
    ensures Run(b, p) <= Run(b, q) <= Run(b, q) + rest
  {
  }

  lemma PrefixBoth(x: seq<int>, s: seq<int>, t: seq<int>)
    requires s <= t
    ensures x + s <= x + t
  {
  }

  lemma {:induction false} TakenMonotone(l: Loop, b: int, i: nat, m: nat, n: nat)
    requires m <= n <= BlocksLeft(l.shape, i)
    ensures Taken(l, b, i, m) <= Taken(l, b, i, n)
    decreases l.shape.Count() - i
  {
    if i < l.shape.Count() {
      var bs, o := l.shape.BlockSize(i), b + l.shape.Offset(i);
      hide Run, Shape.Offset, Shape.BlockSize;
      var whole, part, more := Product(bs, l.elSize), Product(m, l.elSize), Product(n, l.elSize);
      if m > bs {
        TakenMonotone(l, b, i + 1, m - bs, n - bs);
        PrefixBoth(Run(o, whole), Taken(l, b, i + 1, m - bs), Taken(l, b, i + 1, n - bs));
      } else if n > bs {
        MulLe(m, bs, l.elSize);
        RunPrefix(o, part, whole, Taken(l, b, i + 1, n - bs));
      } else {
        MulLe(m, n, l.elSize);
        RunPrefix(o, part, more, []);
      }
    }
  }

  function Product(a: nat, b: nat): (r: nat)
    ensures r == a * b
  {
    a * b
  }

  lemma TakenPrefix(l: Loop, b: int, i: nat, m: nat, n: nat)
    requires m <= n <= BlocksLeft(l.shape, i)
    ensures |Taken(l, b, i, m)| <= |Taken(l, b, i, n)|
    ensures Taken(l, b, i, m) == Taken(l, b, i, n)[..|Taken(l, b, i, m)|]
  {
    TakenMonotone(l, b, i, m, n);
  }

  lemma FirstTaken(l: Loop, b: int, i: nat, n: nat)
    requires i < l.shape.Count() && n >= 1 && l.elSize >= 1 && l.shape.BlockSize(i) >= 1
    ensures |Taken(l, b, i, n)| >= 1 && Taken(l, b, i, n)[0] == b + l.shape.Offset(i)
  {
    MulLe(1, n, l.elSize);
    MulLe(1, l.shape.BlockSize(i), l.elSize);
  }

  lemma TakenAll(l: Loop, b: int, i: nat)
    requires l.Leaf?
    ensures Taken(l, b, i, BlocksLeft(l.shape, i)) == BlocksFrom(l, b, i)
  {
    TakenDropped(l, b, i, BlocksLeft(l.shape, i));
    TakenLen(l, b, i, BlocksLeft(l.shape, i));
    LeafLen(l, b, i);
  }
}
