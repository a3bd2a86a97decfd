/** Where a segment stands that has passed some elements of every level: which blocks it is in, and what a reset there
    makes of the stream. */
module Paths {
  import opened Dataloops
  import opened LeafBlocks
  import opened LevelSizes
  import opened SegmentStack
  import opened SegmentOrder
  import opened Displacements
  import opened Segments
  import opened Histories

  /* ---------- elements of all levels ---------- */

  /** An element of every node, counted from the start of its instance. */
  ghost predicate IsPath(l: Loop, ns: seq<nat>)
    decreases l
  {
    l.Node? ==> ns != [] && ns[0] < BlocksLeft(l.shape, 0) && IsPath(l.child, ns[1..])
  }

  /** How many bytes lie before these elements of the first instances. */
  ghost function PathBytes(l: Loop, ns: seq<nat>): nat
    requires IsPath(l, ns)
    decreases l
  {
    if l.Leaf? then 0 else ns[0] * ElemSize(l) + PathBytes(l.child, ns[1..])
  }

  /** Element n is in block i. */
  predicate InBlockNo(s: Shape, n: nat, i: nat) {
    i < s.Count() && BlocksLeft(s, 0) - BlocksLeft(s, i) <= n < BlocksLeft(s, 0) - BlocksLeft(s, i + 1)
  }

  lemma ChildSize(l: Loop)
    requires l.Node? && l.WellFormed()
    ensures ElemSize(l) == Size(l.child) >= 1 && l.shape.BlockSize(0) >= 1
    ensures l.shape.BlockSize(0) * ElemSize(l) >= ElemSize(l)
    ensures Size(l) >= l.shape.BlockSize(0) * ElemSize(l)
    ensures Size(l) == BlocksLeft(l.shape, 0) * ElemSize(l)
  {
    Nonempty(l, 0);
    var o := l.shape.Offset(0);
    ElemsLen(l, o, l.shape.BlockSize(0));
    BlocksSize(l, 0, 0);
    assert Bytes(l, 0) == Elems(l, 0 + o, l.shape.BlockSize(0)) + BlocksFrom(l, 0, 1);
    MulLe(1, l.shape.BlockSize(0), ElemSize(l));
  }

  /** The place is inside the first instance, and at an element of the leaf. */
  lemma {:induction false} PathInside(l: Loop, ns: seq<nat>)
    requires l.WellFormed() && IsPath(l, ns)
    ensures PathBytes(l, ns) < Size(l) && l.LeafSize() >= 1 && PathBytes(l, ns) % l.LeafSize() == 0
    decreases l
  {
    LeafSizePositive(l);
    Nonempty(l, 0);
    if l.Node? {
      PathInside(l.child, ns[1..]);
      ChildSize(l);
      MulLe(ns[0] + 1, BlocksLeft(l.shape, 0), ElemSize(l));
      Times(ns[0], 1, ElemSize(l));
      ElementsWhole(l.child);
      WholeTimes(ns[0], Size(l.child), l.LeafSize());
      WholeSum(ns[0] * ElemSize(l), PathBytes(l.child, ns[1..]), l.LeafSize());
    }
  }

  /** An instance is a whole number of the leaf's elements. */
  lemma {:induction false} ElementsWhole(l: Loop)
    requires l.WellFormed()
    ensures l.LeafSize() >= 1 && Size(l) % l.LeafSize() == 0
    decreases l
  {
    LeafSizePositive(l);
    if l.Node? {
      ElementsWhole(l.child);
      ChildSize(l);
      WholeTimes(BlocksLeft(l.shape, 0), Size(l.child), l.LeafSize());
    } else {
      LeafLen(l, 0, 0);
      DivIs(Size(l), l.elSize, BlocksLeft(l.shape, 0), 0);
    }
  }

  lemma LevelUnder(root: Loop, s: seq<Elm>, sp: nat, j: nat)
    requires Stack(root, s, sp) && s[sp].loop.Leaf? && j < sp
    ensures sp < |s| && sp < root.Depth() && LoopAt(root, j).Node? && s[j].loop == LoopAt(root, j)
    ensures s[j].origCount == LoopAt(root, j).shape.Count() && Busy(s[j])
    ensures LoopAt(root, j + 1) == LoopAt(root, j).child && LoopAt(root, j).WellFormed()
  {
    LoopAtStep(root, j);
    assert Loaded(s[j], LoopAt(root, j));
  }

  /** One level: the element in progress. */
  lemma OnElement(root: Loop, s: seq<Elm>, sp: nat, k: nat, ns: seq<nat>)
    requires Stack(root, s, sp) && s[sp].loop.Leaf? && k < sp && IsPath(LoopAt(root, k), ns)
    requires Inner(s, sp, k) + PathBytes(LoopAt(root, k), ns) == Size(LoopAt(root, k))
    ensures LoopAt(root, k).Node? && LoopAt(root, k + 1) == LoopAt(root, k).child
    ensures Unbegun(s[k]) + ns[0] + 1 == BlocksLeft(LoopAt(root, k).shape, 0)
    ensures Inner(s, sp, k + 1) + PathBytes(LoopAt(root, k + 1), ns[1..]) == Size(LoopAt(root, k + 1))
  {
    LevelUnder(root, s, sp, k);
    var l := LoopAt(root, k);
    var total, E, q := BlocksLeft(l.shape, 0), ElemSize(l), PathBytes(l.child, ns[1..]);
    ChildSize(l);
    PathInside(l.child, ns[1..]);
    NodeLeft(root, s, sp, k, E);
    hide Inner, Size, ElemSize, Unbegun, Stack;
    Times(total - ns[0], ns[0], E);
    OneBusy(total - ns[0], Unbegun(s[k]), E, Inner(s, sp, k + 1), q);
  }

  /** All levels. */
  lemma {:induction false} OnPath(root: Loop, s: seq<Elm>, sp: nat, ns: seq<nat>, k: nat)
    requires Stack(root, s, sp) && s[sp].loop.Leaf? && k <= sp && IsPath(root, ns)
    requires |Rest(s, sp)| + PathBytes(root, ns) == Size(root)
    ensures k <= |ns| && IsPath(LoopAt(root, k), ns[k..])
    ensures Inner(s, sp, k) + PathBytes(LoopAt(root, k), ns[k..]) == Size(LoopAt(root, k))
    decreases k
  {
    hide Stack, Rest, Inner, Size, PathBytes;
    if k == 0 {
      WholeInner(root, s, sp);
      assert ns[0..] == ns;
    } else {
      OnPath(root, s, sp, ns, k - 1);
      OnElement(root, s, sp, k - 1, ns[k - 1..]);
      assert ns[k - 1..][1..] == ns[k..];
    }
  }

  /** Each level is in the block of its element. */
  lemma BlockOnPath(root: Loop, s: seq<Elm>, sp: nat, ns: seq<nat>, k: nat, i: nat)
    requires Stack(root, s, sp) && s[sp].loop.Leaf? && k < sp && IsPath(root, ns)
    requires |Rest(s, sp)| + PathBytes(root, ns) == Size(root)
    requires k < |ns| && InBlockNo(LoopAt(root, k).shape, ns[k], i)
    ensures s[k].Index() == i
  {
    hide Rest, Inner, Size, PathBytes;
    OnPath(root, s, sp, ns, k);
    OnElement(root, s, sp, k, ns[k..]);
    LevelUnder(root, s, sp, k);
    hide Stack;
    BlockOf(s[k], i);
  }

  lemma BlockOf(e: Elm, i: nat)
    requires Busy(e) && e.origCount == e.loop.shape.Count() && i < e.origCount
    requires BlocksLeft(e.loop.shape, i + 1) < Unbegun(e) + 1 <= BlocksLeft(e.loop.shape, i)
    ensures e.Index() == i
  {
    var s := e.loop.shape;
    if e.Index() < i {
      LeftMonotone(s, e.Index() + 1, i);
    } else if e.Index() > i {
      LeftHere(e);
      LeftMonotone(s, i + 1, e.Index());
    }
  }

  /* ---------- segments on a path ---------- */

  /** A segment that has run in order up to the elements of a path. */
  ghost predicate StandsOn(seg: Segment, ns: seq<nat>)
    reads seg, seg.stackelm
  {
    && seg.Valid() && seg.AtLeaf() && seg.orderly
    && IsPath(seg.root, ns) && seg.streamOff == PathBytes(seg.root, ns)
  }

  lemma StackOnPath(seg: Segment, ns: seq<nat>)
    requires StandsOn(seg, ns)
    ensures seg.root.WellFormed() && 0 <= seg.curSp == seg.root.Depth() - 1 < seg.stackelm.Length
    ensures var s := seg.stackelm[..];
      && Stack(seg.root, s, seg.curSp) && s[seg.curSp].loop.Leaf? && Orderly(s, seg.curSp, seg.root.Depth())
      && |Rest(s, seg.curSp)| + PathBytes(seg.root, ns) == Size(seg.root)
  {
    PathInside(seg.root, ns);
    seg.NotAtEnd();
    LoopAtStep(seg.root, seg.curSp);
  }

  /** Every node carries the size of its block. */
  lemma SizeOnPath(root: Loop, s: seq<Elm>, sp: nat, ns: seq<nat>, k: nat, i: nat)
    requires Stack(root, s, sp) && s[sp].loop.Leaf? && Orderly(s, sp, root.Depth()) && k < sp && IsPath(root, ns)
    requires |Rest(s, sp)| + PathBytes(root, ns) == Size(root)
    requires k < |ns| && InBlockNo(LoopAt(root, k).shape, ns[k], i)
    ensures s[k].origBlock == LoopAt(root, k).shape.BlockSize(i)
  {
    hide Rest, PathBytes, Size;
    BlockOnPath(root, s, sp, ns, k, i);
    LevelUnder(root, s, sp, k);
    assert RightSize(s, sp, k);
  }

  /** The sizes of the blocks that the elements are in. */
  ghost predicate Matches(l: Loop, ns: seq<nat>, below: seq<Elm>)
    decreases l
  {
    l.Node? ==>
      && ns != [] && below != []
      && (exists i: nat :: InBlockNo(l.shape, ns[0], i) && below[0].origBlock == l.shape.BlockSize(i))
      && Matches(l.child, ns[1..], below[1..])
  }

  /** What entering a loop delivers depends on those sizes only. */
  lemma {:induction false} EnteringOnPath(root: Loop, s: seq<Elm>, sp: nat, ns: seq<nat>, k: nat, below: seq<Elm>,
                                          b: int)
    requires Stack(root, s, sp) && s[sp].loop.Leaf? && Orderly(s, sp, root.Depth()) && k <= sp && IsPath(root, ns)
    requires |Rest(s, sp)| + PathBytes(root, ns) == Size(root)
    requires k <= |ns| && Matches(LoopAt(root, k), ns[k..], below)
    ensures Entering(LoopAt(root, k), b, s[k..]) == Entering(LoopAt(root, k), b, below)
    decreases sp - k
  {
    hide Stack, Rest, PathBytes, Size, Orderly, IsPath;
    LeafOnly(root, s, sp, k);
    var l := LoopAt(root, k);
    if k < sp {
      var i: nat :| InBlockNo(l.shape, ns[k..][0], i) && below[0].origBlock == l.shape.BlockSize(i);
      SizeOnPath(root, s, sp, ns, k, i);
      assert ns[k..][1..] == ns[k + 1..] && s[k..][1..] == s[k + 1..] && s[k..][0] == s[k];
      EnteringOnPath(root, s, sp, ns, k + 1, below[1..], b + l.shape.Offset(0) + Displacement(l, s[k..]));
    }
  }

  lemma LeafOnly(root: Loop, s: seq<Elm>, sp: nat, k: nat)
    requires Stack(root, s, sp) && s[sp].loop.Leaf? && k <= sp
    ensures sp < |s| && sp < root.Depth() && (LoopAt(root, k).Leaf? <==> k == sp)
    ensures k < sp ==> LoopAt(root, k + 1) == LoopAt(root, k).child
  {
    LoopAtStep(root, k);
    LoopAtStep(root, sp);
    assert Loaded(s[sp], LoopAt(root, sp));
  }

  /** What a segment on a path draws on when it starts over. */
  lemma StreamOnPath(seg: Segment, ns: seq<nat>, below: seq<Elm>)
    requires StandsOn(seg, ns) && seg.streamOff > 0 && seg.root.Node? && Matches(seg.root, ns, below)
    requires below[0].origBlock == seg.root.shape.BlockSize(0)
    ensures seg.stackelm.Length >= 1 && seg.StreamFor(0) == Entering(seg.root, 0, below)
  {
    hide Segment.Valid, Segment.AtLeaf, Rest, PathBytes, Orderly;
    StackOnPath(seg, ns);
    var root, s := seg.root, seg.stackelm[..];
    var t := [Started(s[0])] + s[1..];
    LevelUnder(root, s, seg.curSp, 0);
    assert t[1..] == s[1..] && ns[0..] == ns;
    EnteringOnPath(root, s, seg.curSp, ns, 1, below[1..], root.shape.Offset(0) + Displacement(root, below));
    assert seg.stackelm[1..] == s[1..] && s[0] == seg.stackelm[0];
  }

  /** Every choice of block sizes is the one on some path. */
  lemma {:induction false} PathFor(l: Loop, below: seq<Elm>) returns (ns: seq<nat>)
    requires l.WellFormed() && LoadedBelow(l, below)
    ensures IsPath(l, ns) && Matches(l, ns, below)
    decreases l
  {
    if l.Node? {
      var rest := PathFor(l.child, below[1..]);
      var i: nat :| i < l.shape.Count() && l.shape.BlockSize(i) == below[0].origBlock;
      LeftMonotone(l.shape, 0, i);
      var n: nat := BlocksLeft(l.shape, 0) - BlocksLeft(l.shape, i);
      assert l.shape.BlockSize(i) >= 1;
      assert InBlockNo(l.shape, n, i);
      ns := [n] + rest;
      assert ns[1..] == rest;
    } else {
      ns := [];
    }
  }
}
