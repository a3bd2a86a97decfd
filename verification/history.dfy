/** Which histories of windows keep a segment on the byte map of its loop. */
module Histories {
  import opened Dataloops
  import opened LeafBlocks
  import opened LevelSizes
  import opened SegmentStack
  import opened Displacements
  import opened Segments
  import opened Pieces

  /** A run that goes back keeps a segment on the byte map of its loop if and only if no level under
      the root holds a block size that displaces it. */
  lemma ReplayExact(seg: Segment, first: nat)
    requires seg.Valid() && seg.Exact()
    ensures seg.StreamFor(first) == Bytes(seg.root, 0)
       <==> first >= seg.streamOff
            || (seg.root.Node? ==> NoDisplacement(seg.root.child, seg.stackelm[1..]))
  {
    var root, s := seg.root, seg.stackelm[..];
    var e := Started(s[0]);
    var below := [e] + s[1..];
    assert LoopAt(root, 0) == root;
    assert root.shape.Count() >= 1;
    assert HasBlockSize(root.shape, root.shape.BlockSize(0));
    LevelsUpdate(root, s, 0, e);
    LevelsBelow(root, s[0 := e], 0);
    assert below == s[0 := e][0..];
    ResetExact(root, 0, below);
    assert below[1..] == s[1..];
    if root.Node? {
      assert Displacement(root, below) == 0;
    }
  }

  /** With the block sizes of a resettable loop every history stays on the byte map. */
  lemma AlwaysExact(seg: Segment, first: nat)
    requires seg.Valid() && seg.Exact() && Resettable(seg.root)
    ensures seg.StreamFor(first) == Bytes(seg.root, 0)
  {
    ReplayExact(seg, first);
    var root, s := seg.root, seg.stackelm[..];
    if root.Node? {
      LevelsBelow(root, s, 1);
      assert LoopAt(root, 1) == LoopAt(root.child, 0) == root.child;
      UniformNoDisplacement(root.child, s[1..]);
    }
  }

  /** A segment at the end of the stream can start over whatever its loop. */
  lemma CompletedReplay(seg: Segment)
    requires seg.Valid() && seg.Parked() && seg.streamOff == Size(seg.root)
    ensures seg.StreamFor(0) == Bytes(seg.root, 0)
  {
    var root, s := seg.root, seg.stackelm[..];
    if seg.curSp >= 0 {
      RestNonempty(root, s, seg.curSp);
    }
    Nonempty(root, 0);
    var below := [Started(s[0])] + s[1..];
    assert LoopAt(root, 0) == root;
    EnteringFresh(root, 0, below);
  }

  /* ---------- where a segment stands ---------- */

  /** The bytes left at level k and under it. */
  ghost function Inner(s: seq<Elm>, sp: nat, k: nat): nat
    requires k <= sp < |s|
    decreases sp - k
  {
    |Pend(s[k])| + if k == sp then 0 else Inner(s, sp, k + 1)
  }

  lemma {:induction false} InnerOuter(s: seq<Elm>, sp: nat, k: nat)
    requires k <= sp < |s|
    ensures |Outer(s, k)| + Inner(s, sp, k) == |Outer(s, sp)| + |Pend(s[sp])|
    decreases sp - k
  {
    hide Pend;
    if k < sp {
      InnerOuter(s, sp, k + 1);
      assert Outer(s, k + 1) == Pend(s[k]) + Outer(s, k);
    }
  }

  lemma WholeInner(root: Loop, s: seq<Elm>, sp: nat)
    requires Stack(root, s, sp) && s[sp].loop.Leaf?
    ensures Inner(s, sp, 0) == |Rest(s, sp)|
  {
    InnerOuter(s, sp, 0);
  }

  /** At each level something is left, and no more than one instance. */
  lemma {:induction false} InnerBound(root: Loop, s: seq<Elm>, sp: nat, k: nat)
    requires Stack(root, s, sp) && s[sp].loop.Leaf? && k <= sp
    ensures 1 <= Inner(s, sp, k) <= Size(LoopAt(root, k))
    decreases sp - k
  {
    LoopAtStep(root, k);
    assert Loaded(s[k], LoopAt(root, k));
    if k < sp {
      InnerBound(root, s, sp, k + 1);
      LoopAtStep(root, k + 1);
      assert Busy(s[k]) && ElemSize(LoopAt(root, k)) == Size(LoopAt(root, k + 1));
      hide Pend, ElemSize, Size, Stack;
      BusyBound(s[k], Inner(s, sp, k + 1));
    } else {
      hide Pend, ElemSize, Size, Stack;
      LeafBound(s[k]);
    }
  }

  /** A node with one element in progress. */
  lemma BusyBound(e: Elm, inner: nat)
    requires Busy(e) && e.loop.WellFormed() && e.origCount == e.loop.shape.Count() && 1 <= inner <= ElemSize(e.loop)
    ensures 1 <= |Pend(e)| + inner <= Size(e.loop)
  {
    PendLen(e);
    BlocksSize(e.loop, 0, 0);
    LeftMonotone(e.loop.shape, 0, e.Index());
    LeftHere(e);
    var E := ElemSize(e.loop);
    assert Size(e.loop) == BlocksLeft(e.loop.shape, 0) * E;
    hide Pend, ElemSize, Size;
    MulLe(Unbegun(e) + 1, BlocksLeft(e.loop.shape, 0), E);
    Times(Unbegun(e), 1, E);
  }

  /** The bytes of m elements of E bytes. */
  function Span(m: nat, E: nat): nat {
    m * E
  }

  /** m whole elements and a last one of which `inner` bytes are left, against M whole elements. */
  lemma OneBusy(M: nat, m: nat, E: nat, inner: nat, p: nat)
    requires 1 <= inner <= E && p < E
    requires Span(M, E) == Span(m, E) + inner + p
    ensures M == m + 1 && inner + p == E
  {
    Times(m, 1, E);
    Times(m, 2, E);
    if M <= m {
      MulLe(M, m, E);
    } else if M > m + 1 {
      MulLe(m + 2, M, E);
    }
  }

  lemma NodeBusy(root: Loop, s: seq<Elm>, sp: nat, k: nat)
    requires Stack(root, s, sp) && s[sp].loop.Leaf? && k < sp
    ensures sp < |s| && k + 1 < root.Depth() && s[k].loop == LoopAt(root, k) && Active(s[k])
    ensures 1 <= Inner(s, sp, k + 1) <= ElemSize(LoopAt(root, k))
  {
    LoopAtStep(root, k);
    LoopAtStep(root, k + 1);
    assert Loaded(s[k], LoopAt(root, k)) && Busy(s[k]);
    InnerBound(root, s, sp, k + 1);
  }

  /** A node level: whole elements, and one in progress further down. */
  lemma NodeLeft(root: Loop, s: seq<Elm>, sp: nat, k: nat, E: nat)
    requires Stack(root, s, sp) && s[sp].loop.Leaf? && k < sp && E == ElemSize(LoopAt(root, k))
    ensures Inner(s, sp, k) == Span(Unbegun(s[k]), E) + Inner(s, sp, k + 1)
    ensures 1 <= Inner(s, sp, k + 1) <= E
  {
    hide Stack, Active, Pend, Unbegun, ElemSize, Size;
    NodeBusy(root, s, sp, k);
    PendLen(s[k]);
  }

  /** An instance of level k is an element of the level above. */
  lemma OneUp(root: Loop, s: seq<Elm>, sp: nat, k: nat, p: nat) returns (total: nat, E: nat)
    requires Stack(root, s, sp) && s[sp].loop.Leaf? && 1 <= k <= sp && p < Size(LoopAt(root, k))
    ensures sp < |s| && k < root.Depth() && p < Size(LoopAt(root, k - 1)) == Span(total, E)
    ensures total == BlocksLeft(LoopAt(root, k - 1).shape, 0)
    ensures E == ElemSize(LoopAt(root, k - 1)) == Size(LoopAt(root, k))
  {
    var l := LoopAt(root, k - 1);
    LoopAtStep(root, k - 1);
    BlocksSize(l, 0, 0);
    FirstElement(l, p);
    total, E := BlocksLeft(l.shape, 0), ElemSize(l);
  }

  /** If only the first p bytes of an instance have passed, it is the first one of the level above. */
  lemma OneDown(root: Loop, s: seq<Elm>, sp: nat, k: nat, p: nat)
    requires Stack(root, s, sp) && s[sp].loop.Leaf? && 1 <= k <= sp
    requires p < Size(LoopAt(root, k)) && Inner(s, sp, k - 1) + p == Size(LoopAt(root, k - 1))
    ensures Inner(s, sp, k) + p == Size(LoopAt(root, k))
  {
    hide *;
    var total, E := OneUp(root, s, sp, k, p);
    NodeLeft(root, s, sp, k - 1, E);
    OneBusy(total, Unbegun(s[k - 1]), E, Inner(s, sp, k), p);
  }

  /** While the first instance of level k is being processed, the levels above are at their start. */
  lemma {:induction false} FirstInstance(root: Loop, s: seq<Elm>, sp: nat, k: nat, p: nat)
    requires Stack(root, s, sp) && s[sp].loop.Leaf? && k <= sp
    requires p < Size(LoopAt(root, k))
    requires |Rest(s, sp)| + p == Size(root)
    ensures Inner(s, sp, k) + p == Size(LoopAt(root, k))
    decreases k
  {
    if k == 0 {
      WholeInner(root, s, sp);
    } else {
      var _, _ := OneUp(root, s, sp, k, p);
      FirstInstance(root, s, sp, k - 1, p);
      OneDown(root, s, sp, k, p);
    }
  }

  /** A segment that stands before block i of the first instance of level k has the rest of that instance left. */
  lemma FirstLeft(root: Loop, s: seq<Elm>, sp: nat, k: nat, i: nat, p: nat, total: nat, E: nat)
    requires Stack(root, s, sp) && s[sp].loop.Leaf? && k < sp
    requires 1 <= i < LoopAt(root, k).shape.Count() && p == BlockStart(LoopAt(root, k), i)
    requires |Rest(s, sp)| + p == Size(root)
    requires total == BlocksLeft(LoopAt(root, k).shape, 0) && E == ElemSize(LoopAt(root, k))
    ensures Inner(s, sp, k) + p == Span(total, E)
  {
    var l := LoopAt(root, k);
    LoopAtStep(root, k);
    BlocksSize(l, 0, 0);
    assert Size(l) == Span(total, E) && k <= sp;
    hide *;
    BlockStartInside(l, i);
    FirstInstance(root, s, sp, k, p);
  }

  /** Such a segment is in that block. */
  lemma StandsAt(root: Loop, s: seq<Elm>, sp: nat, k: nat, i: nat, p: nat)
    requires Stack(root, s, sp) && s[sp].loop.Leaf? && k < sp
    requires 1 <= i < LoopAt(root, k).shape.Count()
    requires p == BlockStart(LoopAt(root, k), i)
    requires |Rest(s, sp)| + p == Size(root)
    ensures s[k].Index() == i && s[k].origBlock == LoopAt(root, k).shape.BlockSize(i)
  {
    var e, l := s[k], LoopAt(root, k);
    LoopAtStep(root, k);
    assert Loaded(e, l) && Busy(e) && l.shape.BlockSize(i) >= 1;
    InsideLevel(root, s, sp, k, i, p, e);
    InBlock(e, i);
  }

  /** The elements not yet begun are those after that block's first one. */
  lemma InsideLevel(root: Loop, s: seq<Elm>, sp: nat, k: nat, i: nat, p: nat, e: Elm)
    requires Stack(root, s, sp) && s[sp].loop.Leaf? && k < sp && e == s[k] && e.loop == LoopAt(root, k)
    requires 1 <= i < e.loop.shape.Count() && p == BlockStart(e.loop, i)
    requires |Rest(s, sp)| + p == Size(root)
    ensures BlocksLeft(e.loop.shape, i) == Unbegun(e) + 1
    ensures k + 1 <= sp < |s| && Inner(s, sp, k + 1) == ElemSize(e.loop)
  {
    var l := e.loop;
    var total, left, E := BlocksLeft(l.shape, 0), BlocksLeft(l.shape, i), ElemSize(l);
    BlockStartIs(l, i, p, E);
    hide *;
    NodeLeft(root, s, sp, k, E);
    FirstLeft(root, s, sp, k, i, p, total, E);
    OneLess(left, Unbegun(e), E, Inner(s, sp, k + 1));
  }

  /** The elements not yet begun tell the block. */
  lemma InBlock(e: Elm, i: nat)
    requires Busy(e) && e.origCount == e.loop.shape.Count()
    requires BlocksLeft(e.loop.shape, i) == Unbegun(e) + 1
    requires i < e.origCount && e.loop.shape.BlockSize(i) >= 1
    ensures e.Index() == i
  {
    if e.Index() < i {
      LeftMonotone(e.loop.shape, e.Index() + 1, i);
    } else if e.Index() > i {
      LeftMonotone(e.loop.shape, i, e.Index());
    }
  }

  lemma OneLess(M: nat, m: nat, E: nat, inner: nat)
    requires 1 <= inner <= E
    requires Span(M, E) == Span(m, E) + inner
    ensures M == m + 1 && inner == E
  {
    Times(m, 2, E);
    if M <= m {
      MulLe(M, m, E);
    } else if M > m + 1 {
      MulLe(m + 2, M, E);
    }
  }

  /** The stream position at which block i of the first instance of l begins. */
  ghost function BlockStart(l: Loop, i: nat): int {
    (BlocksLeft(l.shape, 0) - BlocksLeft(l.shape, i)) * ElemSize(l)
  }

  lemma BlockStartIs(l: Loop, i: nat, p: nat, E: nat)
    requires p == BlockStart(l, i) && E == ElemSize(l) && i < l.shape.Count()
    ensures p + Span(BlocksLeft(l.shape, i), E) == Span(BlocksLeft(l.shape, 0), E)
  {
    LeftMonotone(l.shape, 0, i);
    Times(BlocksLeft(l.shape, 0) - BlocksLeft(l.shape, i), BlocksLeft(l.shape, i), E);
  }

  lemma BlockStartInside(l: Loop, i: nat)
    requires l.WellFormed() && 1 <= i < l.shape.Count()
    ensures 0 < BlockStart(l, i) < Size(l)
  {
    BlocksSize(l, 0, 0);
    LeftMonotone(l.shape, 0, i);
    assert l.shape.BlockSize(0) >= 1 && l.shape.BlockSize(i) >= 1;
    Nonempty(l, 0);
    var before, left := BlocksLeft(l.shape, 0) - BlocksLeft(l.shape, i), BlocksLeft(l.shape, i);
    Times(before, left, ElemSize(l));
    MulLe(1, before, ElemSize(l));
    MulLe(1, left, ElemSize(l));
  }

  /* ---------- loops that cannot always be reset ---------- */

  /** A node level under the root with a block whose size displaces the level. */
  ghost predicate Displaces(root: Loop, k: nat, i: nat) {
    && 1 <= k < root.Depth() && LoopAt(root, k).Node?
    && 1 <= i < LoopAt(root, k).shape.Count()
    && LoopAt(root, k).elExtent != 0
    && LoopAt(root, k).shape.BlockSize(i) != LoopAt(root, k).shape.BlockSize(0)
  }

  lemma {:induction false} NotUniform(root: Loop, k: nat) returns (j: nat, i: nat)
    requires 1 <= k < root.Depth() && !Uniform(LoopAt(root, k))
    ensures Displaces(root, j, i)
    decreases root.Depth() - k
  {
    var l := LoopAt(root, k);
    LoopAtStep(root, k);
    if l.elExtent != 0 && !(forall n: nat | n < l.shape.Count() :: l.shape.BlockSize(n) == l.shape.BlockSize(0)) {
      j := k;
      i :| i < l.shape.Count() && l.shape.BlockSize(i) != l.shape.BlockSize(0);
    } else {
      j, i := NotUniform(root, k + 1);
    }
  }

  /** A loop that is not resettable has such a level. */
  lemma NotResettable(root: Loop) returns (k: nat, i: nat)
    requires !Resettable(root)
    ensures Displaces(root, k, i)
  {
    assert LoopAt(root, 1) == LoopAt(root.child, 0) == root.child;
    k, i := NotUniform(root, 1);
  }

  lemma {:induction false} DisplacedBelow(root: Loop, s: seq<Elm>, j: nat, k: nat, i: nat)
    requires Levels(root, s) && Displaces(root, k, i) && 1 <= j <= k
    requires s[k].origBlock == LoopAt(root, k).shape.BlockSize(i)
    ensures !NoDisplacement(LoopAt(root, j), s[j..])
    decreases k - j
  {
    LoopAtStep(root, j);
    assert s[j..][0] == s[j];
    if j < k {
      LoopAtStep(root, k);
      DisplacedBelow(root, s, j + 1, k, i);
      assert s[j..][1..] == s[j + 1..];
    }
  }

  lemma {:induction false} WholeElements(l: Loop) returns (n: nat)
    ensures ElemSize(l) == n * l.LeafSize()
    decreases l
  {
    if l.Leaf? {
      n := 1;
      assert ElemSize(l) == l.elSize;
    } else {
      var m := WholeElements(l.child);
      BlocksSize(l.child, 0, 0);
      var blocks := BlocksLeft(l.child.shape, 0);
      n := blocks * m;
      assert Elem(l, 0) == Bytes(l.child, 0) == BlocksFrom(l.child, 0, 0);
      SameProduct(blocks, ElemSize(l.child), m * l.LeafSize());
      Reassoc(blocks, m, l.LeafSize());
    }
  }

  lemma SameProduct(a: nat, b: nat, c: nat)
    requires b == c
    ensures a * b == a * c
  {
  }

  lemma Reassoc(a: nat, b: nat, c: nat)
    ensures a * (b * c) == (a * b) * c
  {
  }

  lemma BlockStartAligned(root: Loop, k: nat, i: nat)
    requires root.WellFormed() && Displaces(root, k, i)
    ensures 0 < BlockStart(LoopAt(root, k), i) < Size(LoopAt(root, k)) <= Size(root)
    ensures root.LeafSize() >= 1 && BlockStart(LoopAt(root, k), i) % root.LeafSize() == 0
  {
    var l := LoopAt(root, k);
    LoopAtStep(root, k);
    BlockStartInside(l, i);
    SizeShrinks(root, k);
    var n := WholeElements(l);
    LeftMonotone(l.shape, 0, i);
    var c := BlocksLeft(l.shape, 0) - BlocksLeft(l.shape, i);
    Reassoc(c, n, root.LeafSize());
    DivIs(c * n * root.LeafSize(), root.LeafSize(), c * n, 0);
  }

  lemma {:induction false} SizeShrinks(root: Loop, k: nat)
    requires root.WellFormed() && k < root.Depth()
    ensures Size(LoopAt(root, k)) <= Size(root)
    decreases k
  {
    if k > 0 {
      SizeShrinks(root, k - 1);
      var l := LoopAt(root, k - 1);
      LoopAtStep(root, k - 1);
      BytesFirst(l, 0);
      ElemLen(l, l.shape.Offset(0));
    }
  }

  /** For every loop that is not resettable some history fails: after a run that stops inside the
      displacing block, a run from the start delivers another stream. */
  method FailingHistory(root: Loop, ghost k: nat, ghost i: nat, p: nat) returns (seg: Segment)
    requires root.WellFormed() && root.Depth() < MAX_DATATYPE_DEPTH
    requires Displaces(root, k, i) && p == BlockStart(LoopAt(root, k), i)
    ensures fresh(seg) && seg.Valid() && seg.root == root
    ensures !seg.Exact()
  {
    BlockStartAligned(root, k, i);
    seg := new Segment(0, root);
    assert p - p % root.LeafSize() == p;
    var q := seg.Manipulate(0, p, NoPieces);
    LeftOver(seg, k, i);
    ReplayExact(seg, 0);
    q := seg.Manipulate(0, root.LeafSize(), NoPieces);
  }

  /** A segment that stands before such a block has its size left over. */
  lemma LeftOver(seg: Segment, k: nat, i: nat)
    requires seg.Valid() && seg.AtLeaf() && Displaces(seg.root, k, i)
    requires seg.streamOff == BlockStart(LoopAt(seg.root, k), i)
    ensures seg.root.Node? && seg.stackelm.Length >= 1
    ensures LoadedBelow(seg.root.child, seg.stackelm[1..]) && !NoDisplacement(seg.root.child, seg.stackelm[1..])
  {
    var root, s, sp := seg.root, seg.stackelm[..], seg.curSp;
    BlockStartAligned(root, k, i);
    LoopAtStep(root, k);
    seg.NotAtEnd();
    LoopAtStep(root, sp);
    StandsAt(root, s, sp, k, i, seg.streamOff);
    DisplacedBelow(root, s, 1, k, i);
    LevelsBelow(root, s, 1);
    assert LoopAt(root, 1) == LoopAt(root.child, 0) == root.child;
    assert s[1..] == seg.stackelm[1..];
  }
}
