/** How much a level has left, and where a leaf stands in the stream. */
module LevelSizes {
  import opened Dataloops
  import opened LeafBlocks
  import opened SegmentStack

  lemma {:induction false} BlocksSize(l: Loop, b: int, i: nat)
    ensures |BlocksFrom(l, b, i)| == BlocksLeft(l.shape, i) * ElemSize(l)
    decreases l.shape.Count() - i
  {
    if i < l.shape.Count() {
      ElemsLen(l, b + l.shape.Offset(i), l.shape.BlockSize(i));
      BlocksSize(l, b, i + 1);
      Times(l.shape.BlockSize(i), BlocksLeft(l.shape, i + 1), ElemSize(l));
    }
  }

  /** Elements of a level not yet begun. */
  function Unbegun(e: Elm): nat {
    e.curBlock + BlocksLeft(e.loop.shape, e.Index() + 1)
  }

  lemma PendLen(e: Elm)
    requires Active(e)
    ensures |Pend(e)| == Unbegun(e) * ElemSize(e.loop)
  {
    ElemsLen(e.loop, NextBase(e), e.curBlock);
    BlocksSize(e.loop, e.origOffset, e.Index() + 1);
    Times(e.curBlock, BlocksLeft(e.loop.shape, e.Index() + 1), ElemSize(e.loop));
  }

  lemma LeftHere(e: Elm)
    requires Active(e) && e.origCount == e.loop.shape.Count()
    ensures BlocksLeft(e.loop.shape, e.Index())
         == e.loop.shape.BlockSize(e.Index()) + BlocksLeft(e.loop.shape, e.Index() + 1)
  {
  }

  lemma {:induction false} LeftMonotone(s: Shape, i: nat, j: nat)
    requires i <= j
    ensures BlocksLeft(s, i) >= BlocksLeft(s, j)
    ensures i < j && i < s.Count() ==> BlocksLeft(s, i) >= s.BlockSize(i) + BlocksLeft(s, j)
    decreases j - i
  {
    if i < j {
      LeftMonotone(s, i + 1, j);
    }
  }

  /** A leaf with some elements left. */
  lemma LeafBound(e: Elm)
    requires Active(e) && e.loop.Leaf? && e.loop.WellFormed() && e.origCount == e.loop.shape.Count()
    ensures 1 <= |Pend(e)| <= Size(e.loop)
  {
    PendLen(e);
    Nonempty(e.loop, 0);
    ElemLen(e.loop, 0);
    BlocksSize(e.loop, 0, 0);
    LeftMonotone(e.loop.shape, 0, e.Index());
    LeftHere(e);
    var E := ElemSize(e.loop);
    assert Size(e.loop) == BlocksLeft(e.loop.shape, 0) * E;
    hide Pend, ElemSize, Size;
    MulLe(Unbegun(e), BlocksLeft(e.loop.shape, 0), E);
    MulLe(1, Unbegun(e), E);
  }

  /* ---------- whole instances of the leaf ---------- */

  lemma WholeTimes(n: nat, x: nat, d: nat)
    requires d >= 1 && x % d == 0
    ensures (n * x) % d == 0
  {
    var q := x / d;
    assert n * (q * d) == (n * q) * d + 0;
    DivIs(n * x, d, n * q, 0);
  }

  lemma WholeSum(x: nat, y: nat, d: nat)
    requires d >= 1 && x % d == 0 && y % d == 0
    ensures (x + y) % d == 0
  {
    Times(x / d, y / d, d);
    DivIs(x + y, d, x / d + y / d, 0);
  }

  lemma {:induction false} SizeWhole(l: Loop)
    requires l.WellFormed()
    ensures Size(l.LeafLoop()) >= 1 && Size(l) % Size(l.LeafLoop()) == 0
    decreases l
  {
    Nonempty(l, 0);
    if l.Node? {
      SizeWhole(l.child);
      BlocksSize(l, 0, 0);
      WholeTimes(BlocksLeft(l.shape, 0), Size(l.child), Size(l.LeafLoop()));
    } else {
      DivIs(Size(l), Size(l), 1, 0);
    }
  }

  lemma NodeWhole(root: Loop, s: seq<Elm>, sp: nat, k: nat)
    requires Stack(root, s, sp) && k < sp
    ensures Size(root.LeafLoop()) >= 1 && |Pend(s[k])| % Size(root.LeafLoop()) == 0
  {
    var l := LoopAt(root, k);
    LoopAtStep(root, k);
    LeafOf(root, k);
    assert Loaded(s[k], l) && Busy(s[k]);
    SizeWhole(l.child);
    PendLen(s[k]);
    WholeTimes(Unbegun(s[k]), Size(l.child), Size(root.LeafLoop()));
  }

  lemma {:induction false} LeafOf(l: Loop, k: nat)
    requires k < l.Depth()
    ensures LoopAt(l, k).LeafLoop() == l.LeafLoop()
  {
    if k > 0 {
      LeafOf(l.child, k - 1);
    }
  }

  lemma {:induction false} OuterWhole(root: Loop, s: seq<Elm>, sp: nat, k: nat)
    requires Stack(root, s, sp) && k <= sp
    ensures Size(root.LeafLoop()) >= 1 && |Outer(s, k)| % Size(root.LeafLoop()) == 0
    decreases k
  {
    hide Pend, Size, Loaded, Fresh, Busy, Active;
    SizeWhole(root);
    if k > 0 {
      OuterWhole(root, s, sp, k - 1);
      NodeWhole(root, s, sp, k - 1);
      WholeSum(|Pend(s[k - 1])|, |Outer(s, k - 1)|, Size(root.LeafLoop()));
    }
  }

  /** The stream offset tells how much of the instance of the leaf has passed. */
  lemma LeafPlace(root: Loop, s: seq<Elm>, sp: nat, off: nat)
    requires Stack(root, s, sp) && s[sp].loop.Leaf? && |Rest(s, sp)| + off == Size(root)
    ensures var inst, left := Size(root.LeafLoop()), |Pend(s[sp])|;
      1 <= left <= inst && off % inst == if left == inst then 0 else inst - left
  {
    LoopAtStep(root, sp);
    assert Loaded(s[sp], LoopAt(root, sp));
    LeafBound(s[sp]);
    SizeWhole(root);
    OuterWhole(root, s, sp, sp);
    PlaceIs(Size(root), |Outer(s, sp)|, |Pend(s[sp])|, off, Size(root.LeafLoop()));
  }

  lemma PlaceIs(total: nat, outer: nat, left: nat, off: nat, inst: nat)
    requires 1 <= left <= inst && total % inst == 0 && outer % inst == 0 && left + outer + off == total
    ensures off % inst == if left == inst then 0 else inst - left
  {
    var k := WholeDiff(total, outer, inst);
    PlaceFrom(k, left, off, inst);
  }

  lemma WholeDiff(x: nat, y: nat, d: nat) returns (k: nat)
    requires d >= 1 && x % d == 0 && y % d == 0 && x >= y
    ensures x - y == k * d
  {
    var p, q := x / d, y / d;
    if p < q {
      MulLe(p + 1, q, d);
      Times(p, 1, d);
    }
    k := p - q;
    Times(k, q, d);
  }

  lemma PlaceFrom(k: nat, left: nat, off: nat, inst: nat)
    requires 1 <= left <= inst && off + left == k * inst
    ensures off % inst == if left == inst then 0 else inst - left
  {
    assert k >= 1 by {
      if k == 0 {
        assert 0 * inst == 0;
      }
    }
    Times(k - 1, 1, inst);
    DivIs(off, inst, k - 1, inst - left);
  }

  /** At the start of an instance, all of it is left; else less than that. */
  lemma StartPlace(e: Elm)
    requires Active(e) && e.loop.Leaf? && e.loop.WellFormed() && e.origCount == e.loop.shape.Count()
    ensures Size(e.loop) == BlocksLeft(e.loop.shape, 0) * e.loop.elSize
    ensures |Pend(e)| == Size(e.loop) <==> e.Index() == 0 && e.curBlock == e.loop.shape.BlockSize(0)
    ensures e.curBlock * e.loop.elSize <= |Pend(e)|
  {
    LeafLen(e.loop, 0, 0);
    BlocksSize(e.loop, 0, 0);
    PendLen(e);
    LeftHere(e);
    LeftMonotone(e.loop.shape, 0, e.Index());
    assert ElemSize(e.loop) == e.loop.elSize;
    MulLe(e.curBlock, Unbegun(e), e.loop.elSize);
    assert e.loop.shape.BlockSize(0) >= 1;
    if e.Index() > 0 || e.curBlock < e.loop.shape.BlockSize(0) {
      MulLe(Unbegun(e) + 1, BlocksLeft(e.loop.shape, 0), e.loop.elSize);
      Times(Unbegun(e), 1, e.loop.elSize);
    }
  }
}
