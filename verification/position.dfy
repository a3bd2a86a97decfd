/** The fast forms and the plain one stop in the same state: where a segment stands is determined by how much of
    the stream it has passed, whatever piece functions and windows brought it there. */
module Positions {
  import opened Dataloops
  import opened LeafBlocks
  import opened LevelSizes
  import opened SegmentOrder
  import opened SegmentStack
  import opened Segments
  import opened Histories

  /** The elements of a level not yet begun tell the block and what is left of it. */
  lemma SamePlace(e: Elm, f: Elm)
    requires Active(e) && Active(f) && e.loop == f.loop && e.loop.WellFormed()
    requires e.origCount == f.origCount == e.loop.shape.Count()
    requires e.loop.Node? ==> Busy(e) && Busy(f)
    requires Unbegun(e) == Unbegun(f)
    ensures e.curCount == f.curCount && e.curBlock == f.curBlock
  {
    var s := e.loop.shape;
    if e.Index() < f.Index() {
      LeftMonotone(s, e.Index() + 1, f.Index());
      BlockOnward(s, f.Index());
    } else if f.Index() < e.Index() {
      LeftMonotone(s, f.Index() + 1, e.Index());
      BlockOnward(s, e.Index());
    }
  }

  lemma BlockOnward(s: Shape, i: nat)
    requires i < s.Count()
    ensures BlocksLeft(s, i) == s.BlockSize(i) + BlocksLeft(s, i + 1)
  {
  }

  /** Whole elements and a last one in progress are determined by their total length. */
  lemma OneSplit(m: nat, n: nat, E: nat, a: nat, b: nat)
    requires 1 <= a <= E && 1 <= b <= E && Span(m, E) + a == Span(n, E) + b
    ensures m == n && a == b
  {
    Times(m, 1, E);
    Times(n, 1, E);
    if m < n {
      MulLe(m + 1, n, E);
    } else if n < m {
      MulLe(n + 1, m, E);
    }
  }

  lemma SameFactor(m: nat, n: nat, E: nat)
    requires E >= 1 && Span(m, E) == Span(n, E)
    ensures m == n
  {
    Times(m, 1, E);
    Times(n, 1, E);
    if m < n {
      MulLe(m + 1, n, E);
    } else if n < m {
      MulLe(n + 1, m, E);
    }
  }

  /** The leaf on top. */
  lemma LeafLeftOver(root: Loop, s: seq<Elm>, sp: nat, E: nat)
    requires Stack(root, s, sp) && s[sp].loop.Leaf? && E == ElemSize(LoopAt(root, sp))
    ensures E >= 1 && Inner(s, sp, sp) == Span(Unbegun(s[sp]), E)
  {
    LoopAtStep(root, sp);
    assert Loaded(s[sp], LoopAt(root, sp));
    PendLen(s[sp]);
    Nonempty(LoopAt(root, sp), 0);
  }

  lemma LevelReady(root: Loop, s: seq<Elm>, sp: nat, k: nat)
    requires Stack(root, s, sp) && s[sp].loop.Leaf? && k <= sp
    ensures Active(s[k]) && s[k].loop == LoopAt(root, k) && s[k].loop.WellFormed()
    ensures s[k].origCount == s[k].loop.shape.Count() && (s[k].loop.Node? ==> Busy(s[k]))
  {
    LoopAtStep(root, k);
    assert Loaded(s[k], LoopAt(root, k));
    if k < sp {
      assert Busy(s[k]);
    }
  }

  /** Level k of two stacks with as much left there and below. */
  lemma SameLevel(root: Loop, s: seq<Elm>, t: seq<Elm>, sp: nat, k: nat)
    requires Stack(root, s, sp) && Stack(root, t, sp) && s[sp].loop.Leaf? && t[sp].loop.Leaf? && k <= sp
    requires Inner(s, sp, k) == Inner(t, sp, k)
    ensures s[k].curCount == t[k].curCount && s[k].curBlock == t[k].curBlock
    ensures k < sp ==> Inner(s, sp, k + 1) == Inner(t, sp, k + 1)
  {
    LevelReady(root, s, sp, k);
    LevelReady(root, t, sp, k);
    var E := ElemSize(LoopAt(root, k));
    hide Stack, Inner, Unbegun, ElemSize, Active, Busy, Span;
    if k < sp {
      NodeLeft(root, s, sp, k, E);
      NodeLeft(root, t, sp, k, E);
      OneSplit(Unbegun(s[k]), Unbegun(t[k]), E, Inner(s, sp, k + 1), Inner(t, sp, k + 1));
    } else {
      LeafLeftOver(root, s, sp, E);
      LeafLeftOver(root, t, sp, E);
      SameFactor(Unbegun(s[k]), Unbegun(t[k]), E);
    }
    SamePlace(s[k], t[k]);
  }

  lemma {:induction false} SameLevels(root: Loop, s: seq<Elm>, t: seq<Elm>, sp: nat, k: nat)
    requires Stack(root, s, sp) && Stack(root, t, sp) && s[sp].loop.Leaf? && t[sp].loop.Leaf? && k <= sp
    requires Inner(s, sp, 0) == Inner(t, sp, 0)
    ensures s[k].curCount == t[k].curCount && s[k].curBlock == t[k].curBlock
    ensures Inner(s, sp, k) == Inner(t, sp, k)
    decreases k
  {
    if k > 0 {
      SameLevels(root, s, t, sp, k - 1);
      SameLevel(root, s, t, sp, k - 1);
    }
    SameLevel(root, s, t, sp, k);
  }

  /** The next byte of a stack whose top is a leaf. */
  lemma NextByte(root: Loop, s: seq<Elm>, sp: nat)
    requires Stack(root, s, sp) && s[sp].loop.Leaf?
    ensures Rest(s, sp) != [] && Rest(s, sp)[0] == s[sp].curOffset
  {
    var e := s[sp];
    LoopAtStep(root, sp);
    assert Loaded(e, LoopAt(root, sp));
    assert Elems(e.loop, e.curOffset, e.curBlock) == Elem(e.loop, e.curOffset)
                                                    + Elems(e.loop, e.curOffset + e.loop.Step(), e.curBlock - 1);
    assert |Elem(e.loop, e.curOffset)| >= 1 && Elem(e.loop, e.curOffset)[0] == e.curOffset;
  }

  /** Two segments of one loop that have passed as much of the stream are at the same block of every level, with
      the same elements left there; if they are on the same stream, they are at the same byte. */
  lemma SamePosition(a: Segment, b: Segment)
    requires a.Valid() && a.AtLeaf() && b.Valid() && b.AtLeaf() && a.root == b.root
    requires a.streamOff == b.streamOff && |a.stream| == |b.stream|
    ensures a.curSp == b.curSp
    ensures forall k: nat | k <= a.curSp ::
              a.stackelm[k].curCount == b.stackelm[k].curCount && a.stackelm[k].curBlock == b.stackelm[k].curBlock
    ensures a.curSp >= 0 && a.stream == b.stream ==>
              a.stackelm[a.curSp].curOffset == b.stackelm[b.curSp].curOffset
  {
    var root, s, t := a.root, a.stackelm[..], b.stackelm[..];
    SegmentRest(a);
    SegmentRest(b);
    if a.curSp >= 0 {
      SameStack(root, s, t, a.curSp);
    }
  }

  /** What is left tells whether the segment is at the end; otherwise it is at the one leaf. */
  lemma SegmentRest(a: Segment)
    requires a.Valid() && a.AtLeaf()
    ensures Stack(a.root, a.stackelm[..], a.curSp) && Rest(a.stackelm[..], a.curSp) == a.stream[a.streamOff..]
    ensures -1 <= a.curSp < a.root.Depth() <= a.stackelm.Length
    ensures a.curSp == -1 <==> a.streamOff == |a.stream|
    ensures a.curSp >= 0 ==> a.curSp == a.root.Depth() - 1 && a.stackelm[a.curSp].loop.Leaf?
  {
    if a.curSp >= 0 {
      RestNonempty(a.root, a.stackelm[..], a.curSp);
      LoopAtStep(a.root, a.curSp);
      assert Loaded(a.stackelm[..][a.curSp], LoopAt(a.root, a.curSp));
    }
  }

  lemma SameStack(root: Loop, s: seq<Elm>, t: seq<Elm>, sp: nat)
    requires Stack(root, s, sp) && Stack(root, t, sp) && s[sp].loop.Leaf? && t[sp].loop.Leaf?
    requires |Rest(s, sp)| == |Rest(t, sp)|
    ensures forall k: nat | k <= sp :: s[k].curCount == t[k].curCount && s[k].curBlock == t[k].curBlock
    ensures Rest(s, sp) == Rest(t, sp) ==> s[sp].curOffset == t[sp].curOffset
  {
    WholeInner(root, s, sp);
    WholeInner(root, t, sp);
    NextByte(root, s, sp);
    NextByte(root, t, sp);
    hide Stack, Rest, Inner;
    forall k: nat | k <= sp ensures s[k].curCount == t[k].curCount && s[k].curBlock == t[k].curBlock {
      SameLevels(root, s, t, sp, k);
    }
  }

  /* ---------- the whole state ---------- */

  /** Levels in order that are at the same block lie at the same place. */
  lemma {:induction false} SamePlaces(s: seq<Elm>, t: seq<Elm>, sp: nat, depth: nat, k: nat)
    requires Orderly(s, sp, depth) && Orderly(t, sp, depth) && k <= sp && s[0].origOffset == t[0].origOffset
    requires forall j: nat | j <= sp :: s[j].loop == t[j].loop && s[j].origCount == t[j].origCount
    requires forall j: nat | j <= sp :: s[j].curCount == t[j].curCount && s[j].curBlock == t[j].curBlock
    ensures s[k].origOffset == t[k].origOffset
    decreases k
  {
    if k > 0 {
      SamePlaces(s, t, sp, depth, k - 1);
      assert RightPlace(s, k - 1) && RightPlace(t, k - 1);
    }
  }

  /** In order, and at the same position, all that a run or a reset reads is the same: for every level being
      processed the block, what is left of it, and where the level lies; for every node, the block size that it
      carries; and for the leaf, the offset of the next byte. */
  lemma SameFields(a: Segment, b: Segment)
    requires a.Valid() && a.AtLeaf() && b.Valid() && b.AtLeaf() && a.root == b.root && a.orderly && b.orderly
    requires a.streamOff == b.streamOff && |a.stream| == |b.stream|
    ensures a.curSp == b.curSp && a.root.Depth() <= a.stackelm.Length && a.root.Depth() <= b.stackelm.Length
    ensures forall k: nat | k <= a.curSp ::
              && a.stackelm[k].curCount == b.stackelm[k].curCount && a.stackelm[k].curBlock == b.stackelm[k].curBlock
              && a.stackelm[k].origOffset == b.stackelm[k].origOffset
    ensures forall k: nat | k < a.root.Depth() && LoopAt(a.root, k).Node? ::
              a.stackelm[k].origBlock == b.stackelm[k].origBlock
    ensures a.curSp >= 0 ==> a.stackelm[a.curSp].curOffset == b.stackelm[b.curSp].curOffset
  {
    hide Rest, Orderly, Stack, Active;
    SamePosition(a, b);
    SegmentRest(a);
    SegmentRest(b);
    SameInOrder(a.root, a.stackelm[..], b.stackelm[..], a.curSp);
  }

  lemma SameInOrder(root: Loop, s: seq<Elm>, t: seq<Elm>, sp: int)
    requires Stack(root, s, sp) && Stack(root, t, sp) && Orderly(s, sp, root.Depth()) && Orderly(t, sp, root.Depth())
    requires s[0].origOffset == t[0].origOffset && (sp >= 0 ==> s[sp].loop.Leaf?)
    requires forall k: nat | k <= sp :: s[k].curCount == t[k].curCount && s[k].curBlock == t[k].curBlock
    ensures forall k: nat | k <= sp :: s[k].origOffset == t[k].origOffset
    ensures forall k: nat | k < root.Depth() && LoopAt(root, k).Node? :: s[k].origBlock == t[k].origBlock
    ensures sp >= 0 ==> s[sp].curOffset == t[sp].curOffset
  {
    hide Fresh, Busy, Active;
    forall k: nat | k < root.Depth()
      ensures s[k].loop == t[k].loop == LoopAt(root, k) && s[k].origCount == t[k].origCount
      ensures LoopAt(root, k).Node? ==> s[k].origBlock == t[k].origBlock
    {
      assert Loaded(s[k], LoopAt(root, k)) && Loaded(t[k], LoopAt(root, k));
      assert RightSize(s, sp, k) && RightSize(t, sp, k);
    }
    forall k: nat | k <= sp ensures s[k].origOffset == t[k].origOffset {
      SamePlaces(s, t, sp, root.Depth(), k);
    }
    if sp >= 0 {
      SameLeaf(root, s, t, sp);
    }
  }

  lemma SameLeaf(root: Loop, s: seq<Elm>, t: seq<Elm>, sp: nat)
    requires Stack(root, s, sp) && Stack(root, t, sp) && s[sp].loop.Leaf? && s[sp].loop == t[sp].loop
    requires s[sp].origOffset == t[sp].origOffset && s[sp].curBlock == t[sp].curBlock
    requires s[sp].origCount == t[sp].origCount && s[sp].curCount == t[sp].curCount
    ensures s[sp].curOffset == t[sp].curOffset
  {
  }

  lemma {:induction false} SameEntering(l: Loop, b: int, s: seq<Elm>, t: seq<Elm>)
    requires l.Depth() <= |s| && l.Depth() <= |t|
    requires forall k: nat | k < l.Depth() && LoopAt(l, k).Node? :: s[k].origBlock == t[k].origBlock
    ensures Entering(l, b, s) == Entering(l, b, t)
    decreases l
  {
    if l.Node? {
      assert LoopAt(l, 0) == l;
      forall k: nat | k < l.child.Depth() && LoopAt(l.child, k).Node?
        ensures s[1..][k].origBlock == t[1..][k].origBlock
      {
        assert LoopAt(l, k + 1) == LoopAt(l.child, k);
      }
      SameEntering(l.child, b + l.shape.Offset(0) + Displacement(l, s), s[1..], t[1..]);
    }
  }

  /** So every later run, from wherever it starts, draws on the same stream. */
  lemma SameOnward(a: Segment, b: Segment, first: nat)
    requires a.Valid() && a.AtLeaf() && b.Valid() && b.AtLeaf() && a.root == b.root && a.orderly && b.orderly
    requires a.streamOff == b.streamOff && a.stream == b.stream
    ensures a.stackelm.Length >= 1 && b.stackelm.Length >= 1 && a.StreamFor(first) == b.StreamFor(first)
  {
    SameFields(a, b);
    var s, t := [Started(a.stackelm[0])] + a.stackelm[1..], [Started(b.stackelm[0])] + b.stackelm[1..];
    assert Loaded(a.stackelm[0], LoopAt(a.root, 0)) && Loaded(b.stackelm[0], LoopAt(b.root, 0));
    forall k: nat | k < a.root.Depth() && LoopAt(a.root, k).Node? ensures s[k].origBlock == t[k].origBlock {
      if k > 0 {
        assert s[k] == a.stackelm[..][k] && t[k] == b.stackelm[..][k];
      }
    }
    SameEntering(a.root, 0, s, t);
  }
}
