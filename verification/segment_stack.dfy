/** The stack of a segment as a value: what each level still has to deliver, the steps of the
    interpreter on it, and the stream that the whole stack stands for. */
module SegmentStack {
  import opened Dataloops

  const MAX_DATATYPE_DEPTH: nat := 16

  /** One stack element (the reloading flag is left out: it is only ever set below struct loops). */
  datatype Elm = Elm(
    loop: Loop,
    origCount: nat,
    curCount: nat,
    origBlock: nat,
    curBlock: nat,
    origOffset: int,
    curOffset: int)
  {
    /** The block being processed. */
    function Index(): nat {
      if curCount <= origCount then origCount - curCount else 0
    }
  }

  /** Fields set when the level is loaded: `n` is some block size of the shape. */
  ghost predicate HasBlockSize(s: Shape, n: nat) {
    exists i: nat :: i < s.Count() && s.BlockSize(i) == n
  }

  ghost predicate Loaded(e: Elm, l: Loop) {
    && e.loop == l
    && e.origCount == l.shape.Count()
    && HasBlockSize(l.shape, e.origBlock)
  }

  /** A level that is being processed. */
  ghost predicate Active(e: Elm) {
    && 1 <= e.curCount <= e.origCount
    && e.curBlock <= e.loop.shape.BlockSize(e.Index())
    && (e.loop.Leaf? ==>
          && e.curBlock >= 1
          && e.curOffset == e.origOffset + e.loop.shape.Offset(e.Index())
                            + (e.loop.shape.BlockSize(e.Index()) - e.curBlock) * e.loop.elSize)
    && (e.loop.Node? && e.loop.shape.Contig? ==> e.curOffset == e.origOffset)
    && (e.loop.Node? && e.Index() >= 1 ==> e.origBlock == e.loop.shape.BlockSize(e.Index()))
  }

  /** A level with one of its elements being processed further down. */
  ghost predicate Busy(e: Elm) {
    Active(e) && e.curBlock < e.loop.shape.BlockSize(e.Index())
  }

  /** Where the next element of the level starts; for nodes this is what the push computes. */
  function NextBase(e: Elm): int {
    if e.loop.Leaf? then e.curOffset
    else
      var blockIndex := e.origBlock - e.curBlock;
      match e.loop.shape
      case Contig(_) => e.curOffset + blockIndex * e.loop.elExtent
      case Vector(_, _, stride) => e.origOffset + e.Index() * stride + blockIndex * e.loop.elExtent
      case BlockIndexed(_, _) =>
        e.origOffset + blockIndex * e.loop.elExtent + e.loop.shape.Offset(e.Index())
      case Indexed(_, _, _) =>
        e.origOffset + blockIndex * e.loop.elExtent + e.loop.shape.Offset(e.Index())
  }

  /** The bytes a level has still to deliver. */
  ghost function Pend(e: Elm): seq<int> {
    if e.curCount == 0 then []
    else Elems(e.loop, NextBase(e), e.curBlock) + BlocksFrom(e.loop, e.origOffset, e.Index() + 1)
  }

  /* ---------- left-over block sizes ---------- */

  /** The levels from l down carry the size of their first block in origBlock, as after a load. */
  ghost predicate Fresh(l: Loop, below: seq<Elm>) {
    l.Node? ==> below != [] && below[0].origBlock == l.shape.BlockSize(0) && Fresh(l.child, below[1..])
  }

  /** What entering loop l at b delivers when the levels below still carry old origBlock values:
      a push does not set origBlock, so the first block of each node is displaced by the difference. */
  ghost function Entering(l: Loop, b: int, below: seq<Elm>): seq<int>
    decreases l
  {
    if l.Leaf? || below == [] then Bytes(l, b)
    else
      var first := b + l.shape.Offset(0) + Displacement(l, below);
      Entering(l.child, first, below[1..])
      + AfterFirst(l, first, b)
  }

  /** How far the first block of node l is displaced. */
  ghost function Displacement(l: Loop, below: seq<Elm>): int
    requires below != []
  {
    (below[0].origBlock - l.shape.BlockSize(0)) * l.elExtent
  }

  /** The rest of l after its first element, which lies at `first`. */
  ghost function AfterFirst(l: Loop, first: int, b: int): seq<int> {
    Elems(l, first + l.Step(), if l.shape.BlockSize(0) == 0 then 0 else l.shape.BlockSize(0) - 1)
    + BlocksFrom(l, b, 1)
  }

  lemma BytesFirst(l: Loop, b: int)
    requires l.WellFormed()
    ensures Bytes(l, b)
         == Elem(l, b + l.shape.Offset(0)) + AfterFirst(l, b + l.shape.Offset(0), b)
  {
    assert l.shape.BlockSize(0) >= 1;
    var o := b + l.shape.Offset(0);
    assert Elems(l, o, l.shape.BlockSize(0)) == Elem(l, o) + Elems(l, o + l.Step(), l.shape.BlockSize(0) - 1);
    Assoc(Elem(l, o), Elems(l, o + l.Step(), l.shape.BlockSize(0) - 1), BlocksFrom(l, b, 1));
  }

  lemma {:induction false} EnteringFresh(l: Loop, b: int, below: seq<Elm>)
    requires l.WellFormed()
    requires Fresh(l, below)
    ensures Entering(l, b, below) == Bytes(l, b)
    decreases l
  {
    if l.Node? {
      EnteringFresh(l.child, b + l.shape.Offset(0), below[1..]);
      BytesFirst(l, b);
      assert Displacement(l, below) == 0;
    }
  }

  lemma AfterFirstLen(l: Loop, first: int, b: int, first': int, b': int)
    ensures |AfterFirst(l, first, b)| == |AfterFirst(l, first', b')|
  {
    var n := if l.shape.BlockSize(0) == 0 then 0 else l.shape.BlockSize(0) - 1;
    ElemsLen(l, first + l.Step(), n);
    ElemsLen(l, first' + l.Step(), n);
    BlocksLen(l, b, 1);
    BlocksLen(l, b', 1);
  }

  lemma {:induction false} EnteringLen(l: Loop, b: int, below: seq<Elm>)
    requires l.WellFormed()
    ensures |Entering(l, b, below)| == Size(l)
    decreases l
  {
    BytesLen(l, b);
    if l.Node? && below != [] {
      var plain := b + l.shape.Offset(0);
      var first := plain + Displacement(l, below);
      EnteringLen(l.child, first, below[1..]);
      BytesLen(l.child, plain);
      BytesFirst(l, b);
      AfterFirstLen(l, first, b, plain, b);
    }
  }

  /* ---------- the whole stack ---------- */

  ghost predicate Levels(root: Loop, s: seq<Elm>) {
    && root.WellFormed()
    && root.Depth() <= |s|
    && forall k: nat | k < root.Depth() :: Loaded(s[k], LoopAt(root, k))
  }

  /** The pending bytes of the levels under level k, innermost first. */
  ghost function Outer(s: seq<Elm>, k: nat): seq<int>
    requires k <= |s|
  {
    if k == 0 then [] else Pend(s[k - 1]) + Outer(s, k - 1)
  }

  ghost predicate Stack(root: Loop, s: seq<Elm>, sp: int) {
    && Levels(root, s)
    && -1 <= sp < root.Depth()
    && (forall k: nat {:trigger Busy(s[k])} | k < sp :: Busy(s[k]))
    && (sp >= 0 ==> Active(s[sp]))
    && (sp == -1 ==> Fresh(root, s))
    && (sp >= 0 && s[sp].loop.Node? && s[sp].curBlock == 0 ==> Fresh(s[sp].loop.child, s[sp + 1..]))
  }

  /** What the top level delivers, with the left-over block sizes below it. */
  ghost function Top(e: Elm, below: seq<Elm>): seq<int> {
    if e.loop.Leaf? || e.curBlock == 0 || e.curCount == 0 then Pend(e)
    else
      Entering(e.loop.child, NextBase(e), below)
      + (Elems(e.loop, NextBase(e) + e.loop.elExtent, e.curBlock - 1)
         + BlocksFrom(e.loop, e.origOffset, e.Index() + 1))
  }

  /** The rest of the stream. */
  ghost function Rest(s: seq<Elm>, sp: int): seq<int>
    requires -1 <= sp < |s|
  {
    if sp == -1 then [] else Top(s[sp], s[sp + 1..]) + Outer(s, sp)
  }

  lemma TopFresh(e: Elm, below: seq<Elm>)
    requires e.loop.WellFormed()
    requires e.loop.Node? ==> Fresh(e.loop.child, below)
    ensures Top(e, below) == Pend(e)
  {
    if !(e.loop.Leaf? || e.curBlock == 0 || e.curCount == 0) {
      EnteringFresh(e.loop.child, NextBase(e), below);
      Assoc(Elem(e.loop, NextBase(e)), Elems(e.loop, NextBase(e) + e.loop.elExtent, e.curBlock - 1),
            BlocksFrom(e.loop, e.origOffset, e.Index() + 1));
    }
  }

  /* ---------- steps on the stack ---------- */

  lemma {:induction false} OuterFrame(s: seq<Elm>, t: seq<Elm>, k: nat)
    requires k <= |s| && k <= |t|
    requires forall j: nat | j < k :: s[j] == t[j]
    ensures Outer(s, k) == Outer(t, k)
  {
    if k > 0 {
      OuterFrame(s, t, k - 1);
    }
  }

  /** The level that a push starts: all but loop, origCount and origBlock are set. */
  function Entered(n: Elm, base: int): Elm {
    n.(origOffset := base,
       curCount := n.origCount,
       curBlock := if n.loop.shape.Indexed? then n.loop.shape.BlockSize(0) else n.origBlock,
       curOffset := match n.loop.shape
                    case Contig(_) => base
                    case Vector(_, _, _) => base
                    case BlockIndexed(_, _) => base + n.loop.shape.Offset(0)
                    case Indexed(_, _, _) => base + n.loop.shape.Offset(0))
  }

  lemma NextBaseIs(e: Elm)
    requires Active(e) && e.loop.Node?
    ensures NextBase(e) == e.origOffset + e.loop.shape.Offset(e.Index())
                           + (e.origBlock - e.curBlock) * e.loop.elExtent
  {
  }

  /** A fresh entry delivers what entering the loop delivers. */
  lemma EnteredTop(n: Elm, l: Loop, base: int, below: seq<Elm>)
    requires Loaded(n, l) && l.WellFormed()
    ensures Active(Entered(n, base)) && Loaded(Entered(n, base), l)
    ensures Entered(n, base).curBlock >= 1
    ensures Top(Entered(n, base), below) == Entering(l, base, [n] + below)
  {
    var e := Entered(n, base);
    assert l.shape.BlockSize(0) >= 1;
    assert e.curBlock == l.shape.BlockSize(0);
    assert e.Index() == 0;
    assert l.shape.Offset(0) == 0 || l.shape.BlockIndexed? || l.shape.Indexed?;
    if l.Leaf? {
      assert (l.shape.BlockSize(0) - e.curBlock) * l.elSize == 0;
      assert NextBase(e) == base + l.shape.Offset(0);
      assert BlocksFrom(l, base, 0)
          == Elems(l, base + l.shape.Offset(0), l.shape.BlockSize(0)) + BlocksFrom(l, base, 1);
    } else {
      NextBaseIs(e);
      assert ([n] + below)[1..] == below;
      assert NextBase(e) == base + l.shape.Offset(0) + Displacement(l, [n] + below);
    }
  }

  lemma LevelsUpdate(root: Loop, s: seq<Elm>, k: nat, e: Elm)
    requires Levels(root, s) && k < root.Depth()
    requires Loaded(e, LoopAt(root, k))
    ensures Levels(root, s[k := e])
  {
  }

  /** The level that was pushed from is one element further. */
  lemma PushedPend(e: Elm)
    requires Active(e) && e.loop.Node? && e.curBlock > 0
    ensures Busy(e.(curBlock := e.curBlock - 1))
    ensures Pend(e.(curBlock := e.curBlock - 1))
         == Elems(e.loop, NextBase(e) + e.loop.elExtent, e.curBlock - 1)
            + BlocksFrom(e.loop, e.origOffset, e.Index() + 1)
  {
    var e' := e.(curBlock := e.curBlock - 1);
    NextBaseIs(e);
    NextBaseIs(e');
    assert (e.origBlock - e'.curBlock) * e.loop.elExtent
        == (e.origBlock - e.curBlock) * e.loop.elExtent + e.loop.elExtent;
  }

  lemma PushedTop(e: Elm, n: Elm, below: seq<Elm>)
    requires Active(e) && e.loop.Node? && e.curBlock > 0
    requires Loaded(n, e.loop.child) && e.loop.child.WellFormed()
    ensures Top(e, [n] + below)
         == Top(Entered(n, NextBase(e)), below) + Pend(e.(curBlock := e.curBlock - 1))
  {
    EnteredTop(n, e.loop.child, NextBase(e), below);
    PushedPend(e);
  }

  function Pushed(s: seq<Elm>, sp: nat): seq<Elm>
    requires sp + 1 < |s| && s[sp].curBlock > 0
  {
    s[sp := s[sp].(curBlock := s[sp].curBlock - 1)]
     [sp + 1 := Entered(s[sp + 1], NextBase(s[sp]))]
  }

  lemma PushKeepsStack(root: Loop, s: seq<Elm>, sp: nat)
    requires Stack(root, s, sp)
    requires s[sp].loop.Node? && s[sp].curBlock > 0
    ensures sp + 1 < root.Depth()
    ensures Stack(root, Pushed(s, sp), sp + 1) && Pushed(s, sp)[sp + 1].curBlock >= 1
  {
    var e := s[sp];
    LoopAtStep(root, sp);
    EnteredTop(s[sp + 1], e.loop.child, NextBase(e), []);
    PushedPend(e);
    LevelsUpdate(root, s, sp, e.(curBlock := e.curBlock - 1));
    LevelsUpdate(root, s[sp := e.(curBlock := e.curBlock - 1)], sp + 1, Pushed(s, sp)[sp + 1]);
  }

  /** Pushing keeps the rest of the stream. */
  lemma PushKeepsRest(root: Loop, s: seq<Elm>, sp: nat)
    requires Stack(root, s, sp) && sp + 1 < root.Depth()
    requires s[sp].loop.Node? && s[sp].curBlock > 0
    ensures Rest(Pushed(s, sp), sp + 1) == Rest(s, sp)
  {
    var e, n, t := s[sp], s[sp + 1], Pushed(s, sp);
    LoopAtStep(root, sp);
    assert s[sp + 1..] == [n] + s[sp + 2..];
    assert t[sp + 2..] == s[sp + 2..];
    PushedTop(e, n, s[sp + 2..]);
    OuterFrame(s, t, sp);
    hide Top, Pend, Stack, Entered, NextBase, Levels;
    Assoc(Top(t[sp + 1], t[sp + 2..]), Pend(t[sp]), Outer(t, sp));
  }

  /** The end of a block that is not a leaf's. */
  function BlockDone(e: Elm): Elm
    requires e.curCount >= 1
  {
    var c := e.curCount - 1;
    var i := if c != 0 && c <= e.origCount then e.origCount - c else 0;
    var ob := if e.loop.shape.Indexed? then e.loop.shape.BlockSize(i) else e.origBlock;
    e.(curCount := c, origBlock := ob, curBlock := ob)
  }

  lemma NonIndexedBlock(e: Elm, l: Loop)
    requires Loaded(e, l) && !l.shape.Indexed?
    ensures forall i: nat :: l.shape.BlockSize(i) == e.origBlock
  {
  }

  /** Leaving the top level, everything from it down being as after a load. */
  lemma PopKeepsRest(root: Loop, s: seq<Elm>, sp: nat)
    requires Levels(root, s) && sp < root.Depth()
    requires forall k: nat {:trigger Busy(s[k])} | k < sp :: Busy(s[k])
    requires Fresh(LoopAt(root, sp), s[sp..])
    ensures Stack(root, s, sp - 1)
    ensures Rest(s, sp - 1) == Outer(s, sp)
  {
    if sp > 0 {
      LoopAtStep(root, sp - 1);
      assert Busy(s[sp - 1]);
      TopFresh(s[sp - 1], s[sp..]);
    }
  }

  /** A node whose block is done goes on with the next block, if there is one. */
  lemma BlockDonePend(e: Elm)
    requires Active(e) && e.loop.Node? && e.curBlock == 0 && Loaded(e, e.loop)
    requires e.loop.WellFormed()
    ensures var e' := BlockDone(e);
            && Loaded(e', e.loop)
            && Pend(e') == Pend(e)
            && (e'.curCount == 0 ==> e'.origBlock == e.loop.shape.BlockSize(0))
            && (e'.curCount > 0 ==> Active(e') && e'.curBlock >= 1)
  {
    var e', l := BlockDone(e), e.loop;
    if !l.shape.Indexed? {
      NonIndexedBlock(e, l);
    }
    assert Pend(e) == BlocksFrom(l, e.origOffset, e.Index() + 1);
    if e'.curCount == 0 {
      assert HasBlockSize(l.shape, l.shape.BlockSize(0));
    } else {
      var i := e'.Index();
      assert i == e.Index() + 1 && i < l.shape.Count();
      assert HasBlockSize(l.shape, l.shape.BlockSize(i));
      assert l.shape.BlockSize(i) >= 1;
      NextBaseIs(e');
      assert (e'.origBlock - e'.curBlock) * l.elExtent == 0;
    }
  }

  /** After the last block the level is left. */
  lemma LastBlockKeepsRest(root: Loop, s: seq<Elm>, sp: nat, t: seq<Elm>)
    requires Stack(root, s, sp)
    requires s[sp].loop.Node? && s[sp].curBlock == 0 && s[sp].curCount == 1
    requires t == s[sp := BlockDone(s[sp])]
    ensures Stack(root, t, sp - 1) && Rest(t, sp - 1) == Rest(s, sp)
  {
    var e, e' := s[sp], t[sp];
    LoopAtStep(root, sp);
    BlockDonePend(e);
    LevelsUpdate(root, s, sp, e');
    assert Fresh(LoopAt(root, sp), t[sp..]) by {
      assert t[sp..] == [e'] + s[sp + 1..];
    }
    PopKeepsRest(root, t, sp);
    OuterFrame(s, t, sp);
    assert Pend(e) == [];
  }

  /** After any other block the next one is begun. */
  lemma NextBlockKeepsRest(root: Loop, s: seq<Elm>, sp: nat, t: seq<Elm>)
    requires Stack(root, s, sp)
    requires s[sp].loop.Node? && s[sp].curBlock == 0 && s[sp].curCount > 1
    requires t == s[sp := BlockDone(s[sp])]
    ensures t[sp].curBlock >= 1 && Stack(root, t, sp) && Rest(t, sp) == Rest(s, sp)
  {
    LoopAtStep(root, sp);
    BlockDonePend(s[sp]);
    LevelsUpdate(root, s, sp, t[sp]);
    assert t[sp + 1..] == s[sp + 1..];
    TopFresh(t[sp], t[sp + 1..]);
    OuterFrame(s, t, sp);
  }

  /** A leaf level replaced by one that has delivered n bytes more. */
  lemma LeafKeepsRest(root: Loop, s: seq<Elm>, sp: nat, e': Elm, n: nat)
    requires Stack(root, s, sp)
    requires s[sp].loop.Leaf?
    requires Loaded(e', s[sp].loop) && Active(e')
    requires n <= |Pend(s[sp])| && Pend(e') == Pend(s[sp])[n..]
    ensures n <= |Rest(s, sp)|
    ensures Stack(root, s[sp := e'], sp) && Rest(s[sp := e'], sp) == Rest(s, sp)[n..]
  {
    var t := s[sp := e'];
    LoopAtStep(root, sp);
    OuterFrame(s, t, sp);
    LevelsUpdate(root, s, sp, e');
    DropAppend(Pend(s[sp]), Outer(s, sp), n);
  }

  /** A leaf level left after delivering all its n bytes. */
  lemma LeafPopKeepsRest(root: Loop, s: seq<Elm>, sp: nat, e': Elm, n: nat)
    requires Stack(root, s, sp)
    requires s[sp].loop.Leaf?
    requires Loaded(e', s[sp].loop)
    requires n == |Pend(s[sp])|
    ensures n <= |Rest(s, sp)|
    ensures Stack(root, s[sp := e'], sp - 1) && Rest(s[sp := e'], sp - 1) == Rest(s, sp)[n..]
  {
    var t := s[sp := e'];
    LoopAtStep(root, sp);
    OuterFrame(s, t, sp);
    LevelsUpdate(root, s, sp, e');
    PopKeepsRest(root, t, sp);
    DropAppend(Pend(s[sp]), Outer(s, sp), n);
  }

  /* ---------- loading and resetting ---------- */

  /** A level as loaded. */
  function Load(l: Loop): Elm {
    Elm(l, l.shape.Count(), l.shape.Count(), l.shape.BlockSize(0), 0, 0, 0)
  }

  /** Level 0 at the start of the stream; the reset sets its origBlock too. */
  function Started(e: Elm): Elm {
    e.(curCount := e.origCount,
       origBlock := e.loop.shape.BlockSize(0),
       curBlock := e.loop.shape.BlockSize(0),
       curOffset := e.origOffset + e.loop.shape.Offset(0))
  }

  /** After a reset the segment delivers the stream that entering the root delivers, with whatever
      block sizes the levels below happen to hold. */
  lemma StartedRest(root: Loop, s: seq<Elm>)
    requires Levels(root, s) && s[0].origOffset == 0
    ensures Stack(root, s[0 := Started(s[0])], 0)
    ensures Rest(s[0 := Started(s[0])], 0) == Entering(root, 0, [Started(s[0])] + s[1..])
  {
    var n := Started(s[0]);
    var t := s[0 := n];
    assert LoopAt(root, 0) == root;
    assert HasBlockSize(root.shape, root.shape.BlockSize(0));
    assert Loaded(n, root);
    assert forall k: nat | k < root.Depth() :: Loaded(t[k], LoopAt(root, k));
    assert n == Entered(n, 0);
    EnteredTop(n, root, 0, s[1..]);
    assert t[1..] == s[1..];
  }

  lemma LoadedLevels(root: Loop, s: seq<Elm>)
    requires root.WellFormed() && root.Depth() <= |s|
    requires forall k: nat | k < root.Depth() :: s[k] == Load(LoopAt(root, k))
    ensures Levels(root, s)
  {
    forall k: nat | k < root.Depth()
      ensures Loaded(s[k], LoopAt(root, k))
    {
      LoopAtStep(root, k);
      var sh := LoopAt(root, k).shape;
      assert sh.BlockSize(0) == s[k].origBlock && 0 < sh.Count();
    }
  }

  lemma {:induction false} LoadedFresh(l: Loop, s: seq<Elm>)
    requires l.Depth() <= |s|
    requires s[0].origBlock == l.shape.BlockSize(0)
    requires forall k: nat | 1 <= k < l.Depth() :: s[k] == Load(LoopAt(l, k))
    ensures Fresh(l, s)
    decreases l
  {
    if l.Node? {
      var t := s[1..];
      assert LoopAt(l, 1) == LoopAt(l.child, 0);
      forall k: nat | 1 <= k < l.child.Depth()
        ensures t[k] == Load(LoopAt(l.child, k))
      {
        assert LoopAt(l, k + 1) == LoopAt(l.child, k);
      }
      LoadedFresh(l.child, t);
    }
  }

  /** A loaded stack with level 0 started delivers the byte map. */
  lemma InitialRest(root: Loop, s: seq<Elm>)
    requires root.WellFormed() && root.Depth() <= |s|
    requires forall k: nat | k < root.Depth() :: s[k] == Load(LoopAt(root, k))
    ensures Stack(root, s[0 := Started(s[0])], 0)
    ensures Rest(s[0 := Started(s[0])], 0) == Bytes(root, 0)
    ensures s[0 := Started(s[0])][0].origOffset == 0
    ensures s[0 := Started(s[0])][0].curBlock >= 1
  {
    LoadedLevels(root, s);
    assert s[0] == Load(LoopAt(root, 0));
    StartedRest(root, s);
    var below := [Started(s[0])] + s[1..];
    LoadedFresh(root, below);
    EnteringFresh(root, 0, below);
    assert root.shape.BlockSize(0) >= 1;
  }

  /** With an element left on top there is something left of the stream. */
  lemma RestNonempty(root: Loop, s: seq<Elm>, sp: nat)
    requires Stack(root, s, sp) && s[sp].curBlock >= 1
    ensures |Rest(s, sp)| >= 1
  {
    var e := s[sp];
    LoopAtStep(root, sp);
    if e.loop.Leaf? {
      Nonempty(e.loop, NextBase(e));
    } else {
      EnteringLen(e.loop.child, NextBase(e), s[sp + 1..]);
      Nonempty(e.loop.child, 0);
    }
  }
}
