/** The segment: a stack machine over a loop that walks any window of the stream, can be resumed,
    and repositions itself by a reset and a silent replay. */
module Segments {
  import opened Dataloops
  import opened LeafBlocks
  import opened SegmentOrder
  import opened SegmentStack
  import opened LeafSteps
  import opened LeafCalls
  import opened Pieces
  import opened FlattenCount
  import opened LevelSizes

  const IGNORE_LAST: int := -1

  /** Where a run up to `last` stops on a stream of n bytes with elements of elSize bytes. */
  function Target(last: int, n: nat, elSize: nat): int
    requires elSize >= 1
  {
    if last == IGNORE_LAST || last >= n then n else last - last % elSize
  }

  /** The positions of a stream of n bytes. */
  ghost predicate Window(off: nat, last: int, n: nat) {
    off <= n && (last == IGNORE_LAST || off <= last)
  }

  /** Cutting a piece at `last` leaves whole elements, as many as fit. */
  lemma CutAtLast(off: nat, last: int, n: nat, elSize: nat)
    requires elSize >= 1 && off % elSize == 0 && Window(off, last, n)
    requires last != IGNORE_LAST && last < n
    ensures (last - off) / elSize >= 0
    ensures off + ((last - off) / elSize) * elSize == Target(last, n, elSize)
  {
    var q, r := (last - off) / elSize, (last - off) % elSize;
    var k := off / elSize;
    assert off == k * elSize;
    assert last == (k + q) * elSize + r by {
      Times(k, q, elSize);
    }
    DivIs(last, elSize, k + q, r);
  }

  lemma StepAligned(off: nat, n: nat, elSize: nat)
    requires elSize >= 1 && off % elSize == 0
    ensures (off + n * elSize) % elSize == 0
  {
    var k := off / elSize;
    assert off == k * elSize;
    Times(k, n, elSize);
    DivIs(off + n * elSize, elSize, k + n, 0);
  }

  lemma AlignedBelow(a: nat, last: nat, elSize: nat)
    requires elSize >= 1 && a % elSize == 0 && a <= last
    ensures a <= last - last % elSize
  {
    var k, q := a / elSize, last / elSize;
    assert a == k * elSize;
    assert last == q * elSize + last % elSize;
    if q < k {
      MulLe(q + 1, k, elSize);
      Times(q, 1, elSize);
    }
    MulLe(if k <= q then k else q, q, elSize);
  }

  /** A piece of n elements from an aligned offset, cut at `last` if need be, ends before the target. */
  lemma WithinTarget(off: nat, last: int, n: nat, elSize: nat, len: nat)
    requires elSize >= 1 && off % elSize == 0 && Window(off, last, len)
    requires off + n * elSize <= len
    requires last == IGNORE_LAST || off + n * elSize <= last
    ensures off + n * elSize <= Target(last, len, elSize) <= len
  {
    StepAligned(off, n, elSize);
    if last != IGNORE_LAST && last < len {
      AlignedBelow(off + n * elSize, last, elSize);
    }
  }

  /** The state of a segment: the stack has the rest of the stream still to deliver. */
  ghost predicate Consistent(root: Loop, s: seq<Elm>, sp: int, off: nat, stream: seq<int>, orderly: bool) {
    && Stack(root, s, sp)
    && s[0].origOffset == 0
    && |stream| == Size(root)
    && off <= |stream|
    && Rest(s, sp) == stream[off..]
    && root.LeafSize() >= 1 && off % root.LeafSize() == 0
    && (orderly ==> Orderly(s, sp, root.Depth()))
  }

  lemma Pushing(root: Loop, s: seq<Elm>, sp: int, off: nat, stream: seq<int>, orderly: bool)
    requires Consistent(root, s, sp, off, stream, orderly) && 0 <= sp < |s| && s[sp].loop.Node? && s[sp].curBlock > 0
    ensures sp + 1 < |s| && Consistent(root, Pushed(s, sp), sp + 1, off, stream, orderly)
    ensures Pushed(s, sp)[sp + 1].curBlock >= 1
  {
    hide Rest, Orderly;
    PushKeepsStack(root, s, sp);
    PushKeepsRest(root, s, sp);
    PushedFirst(root, s, sp);
    if orderly {
      PushKeepsOrder(root, s, sp);
    }
  }

  lemma PushedFirst(root: Loop, s: seq<Elm>, sp: nat)
    requires Stack(root, s, sp) && sp + 1 < root.Depth() && s[sp].loop.Node? && s[sp].curBlock > 0
    ensures Pushed(s, sp)[0].origOffset == s[0].origOffset
  {
  }

  lemma EndingBlock(root: Loop, s: seq<Elm>, sp: int, off: nat, stream: seq<int>, orderly: bool)
    requires Consistent(root, s, sp, off, stream, orderly) && 0 <= sp < |s| && s[sp].loop.Node? && s[sp].curBlock == 0
    ensures s[sp].curCount >= 1
    ensures var t := s[sp := BlockDone(s[sp])];
      && Consistent(root, t, if s[sp].curCount == 1 then sp - 1 else sp, off, stream, orderly)
      && (s[sp].curCount > 1 ==> t[sp].curBlock >= 1)
  {
    hide Rest, Orderly;
    var t := s[sp := BlockDone(s[sp])];
    if s[sp].curCount == 1 {
      LastBlockKeepsRest(root, s, sp, t);
    } else {
      NextBlockKeepsRest(root, s, sp, t);
    }
    if orderly {
      BlockDoneKeepsOrder(root, s, sp);
    }
  }

  /** What a leaf on top says about the stream ahead. */
  lemma TopLeaf(root: Loop, s: seq<Elm>, sp: int, off: nat, stream: seq<int>, orderly: bool, e: Elm, n: nat, k: nat)
    requires Consistent(root, s, sp, off, stream, orderly) && 0 <= sp < |s| && e == s[sp] && e.loop.Leaf?
    requires CanTake(e, n) && k == n * e.loop.elSize
    ensures ActiveLeaf(e) && e.loop.elSize == root.LeafSize() >= 1 && e.loop == root.LeafLoop()
    ensures off + k <= |stream| && stream[off..off + k] == LeafTaken(e, n)
    ensures k <= |Pend(e)| && Pend(e)[k..] == LeafLeft(e, n)
  {
    LoopAtStep(root, sp);
    LeafSplit(e, n);
    var t, r, o := LeafTaken(e, n), LeafLeft(e, n), Outer(s, sp);
    assert stream[off..] == t + r + o;
    assert |stream[off..]| >= k;
    assert stream[off..off + k] == stream[off..][..k] == t;
  }

  /** How much of the instance of the leaf on top has passed. */
  lemma TopInstance(root: Loop, s: seq<Elm>, sp: int, off: nat, stream: seq<int>, orderly: bool)
    requires Consistent(root, s, sp, off, stream, orderly) && 0 <= sp < |s| && s[sp].loop.Leaf?
    ensures InstancePlace(s[sp], off)
  {
    hide Pend, Size, Rest, Orderly;
    LoopAtStep(root, sp);
    assert Loaded(s[sp], LoopAt(root, sp));
    LeafPlace(root, s, sp, off);
  }

  /** The leaf on top is k bytes further, or left. */
  lemma LeafMoved(root: Loop, s: seq<Elm>, sp: int, off: nat, stream: seq<int>, orderly: bool, r: Elm, k: nat,
                  popped: bool)
    requires Consistent(root, s, sp, off, stream, orderly) && 0 <= sp < |s| && s[sp].loop.Leaf?
    requires k <= |Pend(s[sp])| && off + k <= |stream| && (off + k) % root.LeafSize() == 0
    requires Loaded(r, s[sp].loop) && r.origOffset == s[sp].origOffset
    requires if popped then Pend(s[sp])[k..] == [] else Active(r) && Pend(r) == Pend(s[sp])[k..]
    ensures Consistent(root, s[sp := r], if popped then sp - 1 else sp, off + k, stream, orderly)
  {
    hide Rest, Pend, Orderly;
    if popped {
      LeafPopKeepsRest(root, s, sp, r, k);
    } else {
      LeafKeepsRest(root, s, sp, r, k);
    }
    DropDrop(stream, off, k);
    if orderly {
      LeafKeepsOrder(s, sp, r, if popped then sp - 1 else sp, root.Depth());
    }
  }

  class Segment {
    const ptr: int               // buffer address
    const root: Loop             // the loop of level 0
    const stackelm: array<Elm>
    var curSp: int
    var streamOff: nat
    ghost var stream: seq<int>   // the stream that the segment delivers since the last reset
    ghost var orderly: bool      // no reset has come in the middle of the stream

    ghost predicate Valid()
      reads this, stackelm
    {
      && stackelm.Length == MAX_DATATYPE_DEPTH
      && Consistent(root, stackelm[..], curSp, streamOff, stream, orderly)
    }

    /** As between two runs: at the end, or with something left at the top level. */
    ghost predicate Parked()
      requires curSp < stackelm.Length
      reads this, stackelm
    {
      curSp >= 0 ==> stackelm[curSp].curBlock >= 1
    }

    /** As after a run: at the end, or within a leaf. */
    ghost predicate AtLeaf()
      requires curSp < stackelm.Length
      reads this, stackelm
    {
      curSp >= 0 ==> stackelm[curSp].loop.Leaf? && stackelm[curSp].curBlock >= 1
    }

    /** The segment delivers the byte map of its loop. */
    ghost predicate Exact()
      reads this
    {
      stream == Bytes(root, 0)
    }

    /** Segment_init with the loop chosen: the levels are loaded, level 0 is set up. */
    constructor (ptr: int, root: Loop)
      requires root.WellFormed() && root.Depth() < MAX_DATATYPE_DEPTH
      ensures Valid() && Parked() && Exact() && streamOff == 0 && orderly
      ensures this.ptr == ptr && this.root == root
      ensures fresh(stackelm)
    {
      var s := LoadStack(root);
      ghost var t := s[..];
      InitialRest(root, t);
      LoadedOrder(root, t);
      LoopAtStep(root, 0);
      s[0] := Started(s[0]);
      assert s[..] == t[0 := Started(t[0])];
      this.ptr, this.root := ptr, root;
      stackelm, curSp, streamOff := s, 0, 0;
      stream, orderly := Bytes(root, 0), true;
    }

    method Store(k: nat, e: Elm)
      requires k < stackelm.Length
      modifies stackelm
      ensures stackelm[..] == old(stackelm[..])[k := e]
    {
      stackelm[k] := e;
    }

    /** DLOOP_SEGMENT_PUSH and the setting of the new level. */
    method Push()
      requires Valid() && curSp >= 0
      requires stackelm[curSp].loop.Node? && stackelm[curSp].curBlock > 0
      modifies this`curSp, stackelm
      ensures Valid() && Parked() && curSp == old(curSp) + 1
    {
      hide Consistent, Pushed;
      TopPlace();
      Pushing(root, stackelm[..], curSp, streamOff, stream, orderly);
      StorePush(curSp);
      curSp := curSp + 1;
    }

    method StorePush(k: nat)
      requires k + 1 < stackelm.Length && stackelm[k].curBlock > 0
      modifies stackelm
      ensures stackelm[..] == Pushed(old(stackelm[..]), k)
    {
      hide Entered, NextBase;
      var e, n := stackelm[k], stackelm[k + 1];
      Store(k, e.(curBlock := e.curBlock - 1));
      Store(k + 1, Entered(n, NextBase(e)));
    }

    /** The end of a block of a node: the next block, or the level is popped. */
    method EndBlock()
      requires Valid() && curSp >= 0
      requires stackelm[curSp].loop.Node? && stackelm[curSp].curBlock == 0
      modifies this`curSp, stackelm
      ensures Valid()
      ensures old(stackelm[curSp].curCount) == 1 ==> curSp == old(curSp) - 1
      ensures old(stackelm[curSp].curCount) > 1 ==> curSp == old(curSp) && Parked()
    {
      hide Consistent, BlockDone;
      TopPlace();
      EndingBlock(root, stackelm[..], curSp, streamOff, stream, orderly);
      var last := stackelm[curSp].curCount == 1;
      Store(curSp, BlockDone(stackelm[curSp]));
      if last {
        curSp := curSp - 1;
      }
    }

    /** What a leaf on top says about the stream ahead. */
    lemma LeafAhead(e: Elm, n: nat)
      requires Valid() && curSp >= 0 && e == stackelm[curSp] && e.loop.Leaf?
      requires CanTake(e, n)
      ensures ActiveLeaf(e) && e.loop.elSize == root.LeafSize() >= 1 && e.loop == root.LeafLoop()
      ensures streamOff + n * e.loop.elSize <= |stream|
      ensures stream[streamOff..streamOff + n * e.loop.elSize] == LeafTaken(e, n)
      ensures n * e.loop.elSize <= |Pend(e)| && Pend(e)[n * e.loop.elSize..] == LeafLeft(e, n)
    {
      TopLeaf(root, stackelm[..], curSp, streamOff, stream, orderly, e, n, n * e.loop.elSize);
    }

    lemma TopMove(e: Elm, n: nat, k: nat)
      requires Valid() && curSp >= 0 && e == stackelm[curSp] && e.loop.Leaf? && CanTake(e, n)
      requires k == n * root.LeafSize()
      ensures root.LeafSize() >= 1 && streamOff + k <= |stream| && (streamOff + k) % root.LeafSize() == 0
      ensures k <= |Pend(e)| && Pend(e)[k..] == LeafLeft(e, n)
    {
      hide CanTake, Pend, LeafLeft, Rest;
      LeafAhead(e, n);
      StepAligned(streamOff, n, root.LeafSize());
    }

    lemma TopPlace()
      requires Valid() && curSp >= 0
      ensures curSp < stackelm.Length && root.LeafSize() >= 1
    {
    }

    /** The leaf on top replaced by one that is n elements further. */
    method ReplaceTop(r: Elm, n: nat)
      requires Valid() && curSp >= 0 && stackelm[curSp].loop.Leaf?
      requires CanTake(stackelm[curSp], n)
      requires Loaded(r, stackelm[curSp].loop) && Active(r)
      requires r.origOffset == stackelm[curSp].origOffset
      requires Pend(r) == LeafLeft(stackelm[curSp], n)
      modifies this`streamOff, stackelm
      ensures Valid() && AtLeaf() && curSp == old(curSp)
      ensures streamOff == old(streamOff) + n * root.LeafSize()
    {
      hide Consistent, CanTake, Pend, LeafLeft;
      TopPlace();
      ghost var e, k := stackelm[curSp], n * root.LeafSize();
      TopMove(e, n, k);
      LeafMoved(root, stackelm[..], curSp, streamOff, stream, orderly, r, k, false);
      Store(curSp, r);
      streamOff := streamOff + n * root.LeafSize();
    }

    /** The leaf on top left, all of it being processed. */
    method PopTop(r: Elm, n: nat)
      requires Valid() && curSp >= 0 && stackelm[curSp].loop.Leaf?
      requires CanTake(stackelm[curSp], n) && LeafLeft(stackelm[curSp], n) == []
      requires Loaded(r, stackelm[curSp].loop) && r.origOffset == stackelm[curSp].origOffset
      modifies this`curSp, this`streamOff, stackelm
      ensures Valid() && curSp == old(curSp) - 1
      ensures streamOff == old(streamOff) + n * root.LeafSize()
    {
      hide Consistent, CanTake, Pend, LeafLeft;
      TopPlace();
      ghost var e, k := stackelm[curSp], n * root.LeafSize();
      TopMove(e, n, k);
      LeafMoved(root, stackelm[..], curSp, streamOff, stream, orderly, r, k, true);
      Store(curSp, r);
      curSp, streamOff := curSp - 1, streamOff + n * root.LeafSize();
    }

    /** The update of the stack and the stream offset after a piece of n elements. */
    method Advance(n: nat)
      requires Valid() && curSp >= 0 && stackelm[curSp].loop.Leaf?
      requires n >= 1 && CanTake(stackelm[curSp], n)
      modifies this`curSp, this`streamOff, stackelm
      ensures Valid()
      ensures streamOff == old(streamOff) + n * root.LeafSize()
      ensures curSp == old(curSp) ==> AtLeaf()
      ensures curSp == old(curSp) || curSp == old(curSp) - 1
      ensures curSp < old(curSp) ==> n >= old(stackelm[curSp].curBlock) && LeafLeft(old(stackelm[curSp]), n) == []
    {
      var e := stackelm[curSp];
      LeafAhead(e, 0);
      if n < e.curBlock {
        var r := PartOfBlock(e, n);
        ReplaceTop(r, n);
      } else {
        var r, popped := WholeBlocks(e, n);
        if popped {
          PopTop(r, n);
        } else {
          ReplaceTop(r, n);
        }
      }
    }

    ghost predicate Apart(p: PieceSet)
      reads this
    {
      {this, stackelm} !! p.Footprint()
    }

    /** What the piece functions rely on: counting, on a run to the end with neighbours merged. */
    ghost predicate Ready(last: int, p: PieceSet)
      reads this
    {
      && (p.CountBlocks? ==>
            (last == IGNORE_LAST || last >= |stream|) && Separated(root.LeafLoop()))
      && p.MovesAlong(root.LeafLoop())
    }

    ghost function TargetOf(last: int): int
      requires root.LeafSize() >= 1
      reads this
    {
      Target(last, |stream|, root.LeafSize())
    }

    /** All that a run hands over, past and future, as long as nothing stops it. */
    ghost predicate Plan(p: PieceSet, last: int, all: seq<int>)
      requires p.Valid() && root.LeafSize() >= 1
      reads this, p.Footprint()
    {
      && streamOff <= TargetOf(last) <= |stream|
      && p.Fits(p.Frame().start, all) && p.Begins(p.Emitted(), streamOff, TargetOf(last))
      && (p.NoPieces? || all == p.Emitted() + stream[streamOff..TargetOf(last)])
    }

    /** The number of elements of the piece, reduced so as not to run past `last`. */
    method LimitBlocks(n: nat, last: int) returns (m: nat)
      requires Valid() && n >= 1 && Window(streamOff, last, |stream|)
      requires streamOff + n * root.LeafSize() <= |stream|
      ensures m <= n
      ensures streamOff + m * root.LeafSize() <= TargetOf(last) <= |stream|
      ensures m < n ==> streamOff + m * root.LeafSize() == TargetOf(last)
      ensures m < n ==> last != IGNORE_LAST && last < |stream|
    {
      var elSize := root.LeafSize();
      m := n;
      if last != IGNORE_LAST && streamOff + n * elSize > last {
        CutAtLast(streamOff, last, |stream|, elSize);
        m := (last - streamOff) / elSize;
        if m >= n {
          MulLe(n, m, elSize);
        }
      } else {
        WithinTarget(streamOff, last, n, elSize, |stream|);
      }
    }

    /** How a step or a run left things: what was handed over, and why it stopped. */
    ghost predicate Delivered(p: PieceSet, before: seq<int>, from: nat)
      requires p.Valid()
      reads this, p.Footprint()
    {
      && from <= streamOff <= |stream|
      && (p.NoPieces? || p.Emitted() == before + stream[from..streamOff])
    }

    ghost predicate Stopped(p: PieceSet, last: int)
      requires p.Valid() && root.LeafSize() >= 1
      reads this, p.Footprint()
    {
      || streamOff == TargetOf(last)
      || (streamOff < TargetOf(last) && streamOff < |stream| && p.Stuck(stream[streamOff]))
    }

    /** The bytes of a piece are the next ones of the plan. */
    lemma PlanRoom(e: Elm, n: nat, last: int, p: PieceSet, all: seq<int>)
      requires Valid() && curSp >= 0 && e == stackelm[curSp] && e.loop.Leaf? && CanTake(e, n)
      requires p.Valid() && Plan(p, last, all)
      requires streamOff + n * root.LeafSize() <= TargetOf(last)
      ensures p.Room(LeafTaken(e, n))
    {
      hide *;
      LeafAhead(e, n);
      PlanAhead(p, last, all, n * root.LeafSize(), LeafTaken(e, n));
      p.FitsRoom(all, LeafTaken(e, n));
    }

    lemma PlanAhead(p: PieceSet, last: int, all: seq<int>, len: nat, bytes: seq<int>)
      requires p.Valid() && root.LeafSize() >= 1 && Plan(p, last, all)
      requires streamOff + len <= TargetOf(last) && streamOff + len <= |stream|
      requires bytes == stream[streamOff..streamOff + len]
      ensures p.Fits(p.Frame().start, all) && (p.NoPieces? || p.Emitted() + bytes <= all)
    {
      hide PieceSet.Valid, PieceSet.Fits, PieceSet.Frame, Target;
      if !p.NoPieces? {
        var t, k := TargetOf(last), streamOff + len;
        assert stream[streamOff..t] == bytes + stream[k..t];
        assert all == (p.Emitted() + bytes) + stream[k..t];
      }
    }

    /** The piece for a leaf, cut at `last`. */
    method PieceFor(e: Elm, last: int, p: PieceSet) returns (fn: PieceFn, m: nat)
      requires Valid() && curSp >= 0 && e == stackelm[curSp] && e.loop.Leaf?
      requires Window(streamOff, last, |stream|) && Ready(last, p)
      ensures m == 0 ==> streamOff == TargetOf(last)
      ensures m >= 1 ==> Chosen(e, fn, m) && (fn.PfNull? <==> p.NoPieces?)
      ensures m >= 1 && !fn.PfNull? && !fn.PfContig? ==> p.HasBlockFns()
      ensures m >= 1 && p.CountBlocks? ==> AllLeft(e, fn, m) && Separated(root.LeafLoop())
      ensures End(m) <= TargetOf(last) <= |stream|
      ensures m < e.curBlock ==> End(m) == TargetOf(last)
      ensures m >= 1 ==> Placed(e, fn, m, streamOff, TargetOf(last), p)
    {
      LeafAhead(e, 0);
      var n;
      fn, n := ChoosePiece(e, p);
      LeafAhead(e, n);
      m := LimitBlocks(n, last);
      if m >= 1 {
        ChosenLess(e, fn, n, m);
        PiecePlace(e, fn, m, TargetOf(last), p);
      }
    }

    /** The place of a piece in the stream. */
    lemma PiecePlace(e: Elm, fn: PieceFn, m: nat, target: int, p: PieceSet)
      requires Valid() && curSp >= 0 && e == stackelm[curSp] && e.loop.Leaf? && Chosen(e, fn, m)
      requires StartsRight(e, fn, p) && p.MovesAlong(root.LeafLoop())
      requires AllLeft(e, fn, m) || streamOff + m * root.LeafSize() == target
      ensures Placed(e, fn, m, streamOff, target, p)
    {
      hide Chosen, StartsRight, Placed, AllLeft, Pend, Rest, Stack, PieceSet.MovesAlong, Size;
      TopPlace();
      LeafAhead(e, 0);
      TopInstance(root, stackelm[..], curSp, streamOff, stream, orderly);
      PlacedAt(e, fn, m, streamOff, target, p);
    }

    /** How far a piece of n elements reaches. */
    function End(n: nat): nat
      reads this
    {
      streamOff + n * root.LeafSize()
    }

    /** The stream up to `end` was handed over, and if the piece function asked to stop, it is full. */
    ghost predicate Handed(p: PieceSet, before: seq<int>, end: nat, exit: bool)
      requires p.Valid()
      reads this, p.Footprint()
    {
      && streamOff <= end <= |stream|
      && (p.NoPieces? || p.Emitted() == before + stream[streamOff..end])
      && (exit ==> end < |stream| && p.Stuck(stream[end]))
    }

    /** What a call for n elements took, in terms of the stream. */
    lemma TookStream(p: PieceSet, before: seq<int>, n: nat, taken: nat, exit: bool)
      requires p.Valid() && End(n) <= |stream|
      requires p.Took(before, stream[streamOff..End(n)], n, root.LeafSize(), taken, exit)
      ensures End(taken) <= End(n) && Handed(p, before, End(taken), exit)
    {
      var j := taken * root.LeafSize();
      assert stream[streamOff..End(n)][..j] == stream[streamOff..streamOff + j];
      if exit {
        assert stream[streamOff..End(n)][j] == stream[streamOff + j];
      }
    }

    /** The piece function's part of a leaf step. */
    method HandPiece(e: Elm, fn: PieceFn, n: nat, last: int, p: PieceSet, ghost all: seq<int>)
      returns (taken: nat, exit: bool)
      requires Valid() && curSp >= 0 && e == stackelm[curSp] && e.loop.Leaf?
      requires Chosen(e, fn, n) && (fn.PfNull? <==> p.NoPieces?)
      requires !fn.PfNull? && !fn.PfContig? ==> p.HasBlockFns()
      requires p.CountBlocks? ==> AllLeft(e, fn, n) && Separated(root.LeafLoop())
      requires p.MovesAlong(root.LeafLoop())
      requires p.Valid() && Apart(p) && Plan(p, last, all)
      requires End(n) <= TargetOf(last) && Placed(e, fn, n, streamOff, TargetOf(last), p)
      modifies p.Writes()
      ensures p.Valid() && p.Frame() == old(p.Frame())
      ensures taken <= n && (exit <==> taken < n)
      ensures End(taken) <= End(n) <= |stream| && Handed(p, old(p.Emitted()), End(taken), exit)
    {
      PlanRoom(e, n, last, p, all);
      LeafAhead(e, n);
      ghost var before := p.Emitted();
      taken, exit := CallPiece(e, fn, n, p, streamOff, TargetOf(last));
      TookStream(p, before, n, taken, exit);
    }

    /** The engine's part after the piece function took some of the m elements. */
    method MoveOn(e: Elm, m: nat, taken: nat, last: int) returns (stop: bool)
      requires Valid() && curSp >= 0 && e == stackelm[curSp] && e.loop.Leaf?
      requires CanTake(e, m) && 1 <= taken <= m
      requires End(m) <= TargetOf(last) <= |stream|
      requires m < e.curBlock ==> End(m) == TargetOf(last)
      modifies this`curSp, this`streamOff, stackelm
      ensures Valid() && streamOff == old(End(taken)) > old(streamOff)
      ensures !stop ==> curSp >= 0 && taken == m
      ensures stop ==> AtLeaf() && (taken < m || streamOff == TargetOf(last))
    {
      LeafAhead(e, m);
      MulLe(1, taken, root.LeafSize());
      MulLe(taken, m, root.LeafSize());
      Advance(taken);
      stop := taken < m || taken < e.curBlock || curSp < 0;
      if e.curBlock <= taken && LeafLeft(e, taken) == [] {
        UsedUp(e, taken, m);
      }
    }

    /** The same, seen together with what was handed over. */
    method AfterPiece(e: Elm, m: nat, taken: nat, exit: bool, last: int, p: PieceSet, ghost before: seq<int>)
      returns (stop: bool)
      requires Valid() && curSp >= 0 && e == stackelm[curSp] && e.loop.Leaf?
      requires CanTake(e, m) && 1 <= m && taken <= m && (exit <==> taken < m)
      requires End(taken) <= End(m) <= TargetOf(last) <= |stream|
      requires m < e.curBlock ==> End(m) == TargetOf(last)
      requires p.Valid() && Apart(p) && Handed(p, before, End(taken), exit)
      modifies this`curSp, this`streamOff, stackelm
      ensures Valid() && p.Valid() && p.Frame() == old(p.Frame())
      ensures Delivered(p, before, old(streamOff))
      ensures !stop ==> curSp >= 0 && streamOff > old(streamOff)
      ensures streamOff <= TargetOf(last)
      ensures stop ==> AtLeaf() && Stopped(p, last)
    {
      hide Segment.Valid, CanTake, LeafTaken, LeafLeft, Target;
      if taken == 0 {
        LeafAhead(e, 0);
        stop := true;
      } else {
        stop := MoveOn(e, m, taken, last);
      }
    }

    /** One step at a leaf: choose a piece, cut it at `last`, hand it over, and move on. */
    method LeafStep(last: int, p: PieceSet, ghost all: seq<int>) returns (stop: bool)
      requires Valid() && curSp >= 0 && stackelm[curSp].loop.Leaf?
      requires Window(streamOff, last, |stream|) && Ready(last, p)
      requires p.Valid() && Apart(p) && Plan(p, last, all)
      modifies this`curSp, this`streamOff, stackelm, p.Writes()
      ensures Valid() && p.Valid() && p.Frame() == old(p.Frame())
      ensures Delivered(p, old(p.Emitted()), old(streamOff))
      ensures !stop ==> curSp >= 0 && streamOff > old(streamOff)
      ensures streamOff <= TargetOf(last)
      ensures stop ==> AtLeaf() && Stopped(p, last)
    {
      hide Segment.Valid, Segment.Plan, Segment.Delivered, Segment.Stopped, Segment.AtLeaf, Chosen, AllLeft, Separated;
      hide CanTake;
      TopPlace();
      ghost var before := p.Emitted();
      var e := stackelm[curSp];
      var fn, m := PieceFor(e, last, p);
      if m == 0 {
        NothingMore(e, last, p);
        stop := true;
      } else {
        var taken, exit := HandPiece(e, fn, m, last, p, all);
        stop := AfterPiece(e, m, taken, exit, last, p, before);
      }
    }

    /** The run has come to its end. */
    lemma NothingMore(e: Elm, last: int, p: PieceSet)
      requires Valid() && curSp >= 0 && e == stackelm[curSp] && e.loop.Leaf?
      requires p.Valid() && streamOff == TargetOf(last)
      ensures Delivered(p, p.Emitted(), streamOff) && AtLeaf() && Stopped(p, last)
    {
      LeafAhead(e, 0);
      hide Stack, Rest, Levels;
      assert stream[streamOff..streamOff] == [];
      assert p.Emitted() + [] == p.Emitted();
    }

    /** Steps until the next leaf or the end of the loop, at most. */
    ghost function Phase(): nat
      requires Valid() && curSp >= 0
      reads this, stackelm
    {
      var e, d := stackelm[curSp], root.Depth();
      if e.loop.Node? && e.curBlock == 0 && e.curCount == 1 then 2 * d + 2 + curSp
      else 2 * (d - curSp) + if e.loop.Node? && e.curBlock == 0 then 1 else 0
    }

    /** One step at a node. */
    method NodeStep()
      requires Valid() && curSp >= 0 && stackelm[curSp].loop.Node?
      modifies this`curSp, stackelm
      ensures Valid()
      ensures curSp >= 0 ==> Phase() < old(Phase())
    {
      if stackelm[curSp].curBlock == 0 {
        EndBlock();
      } else {
        Push();
      }
    }

    lemma PlanKept(p: PieceSet, last: int, all: seq<int>, before: seq<int>, from: nat)
      requires p.Valid() && root.LeafSize() >= 1
      requires Delivered(p, before, from) && streamOff <= TargetOf(last) <= |stream|
      requires p.Fits(p.Frame().start, all)
      requires p.NoPieces? || all == before + stream[from..TargetOf(last)]
      requires p.Begins(before, from, TargetOf(last))
      ensures Plan(p, last, all)
    {
      if !p.NoPieces? {
        var t := TargetOf(last);
        assert stream[from..t] == stream[from..streamOff] + stream[streamOff..t];
      }
    }

    /** Two deliveries in a row are one. */
    lemma DeliveredOn(p: PieceSet, before: seq<int>, from: nat, mid: seq<int>, here: nat)
      requires p.Valid()
      requires from <= here <= |stream|
      requires p.NoPieces? || mid == before + stream[from..here]
      requires Delivered(p, mid, here)
      ensures Delivered(p, before, from)
    {
      assert stream[from..here] + stream[here..streamOff] == stream[from..streamOff];
    }

    /** Between two steps of a run that began at `from` with `before` handed over. */
    ghost predicate Running(p: PieceSet, last: int, all: seq<int>, before: seq<int>, from: nat, k: Kept)
      reads this, stackelm, p.Footprint()
    {
      && Valid() && curSp >= 0
      && Window(streamOff, last, |stream|) && streamOff <= TargetOf(last)
      && p.Valid() && p.Frame() == k
      && Delivered(p, before, from) && Plan(p, last, all)
    }

    lemma RunStart(p: PieceSet, last: int, all: seq<int>)
      requires Valid() && curSp >= 0 && Window(streamOff, last, |stream|)
      requires p.Valid() && Plan(p, last, all)
      ensures Running(p, last, all, p.Emitted(), streamOff, p.Frame())
      ensures p.NoPieces? || all == p.Emitted() + stream[streamOff..TargetOf(last)]
      ensures p.Begins(p.Emitted(), streamOff, TargetOf(last))
    {
      assert stream[streamOff..streamOff] == [];
    }

    lemma InRun(p: PieceSet, last: int, all: seq<int>, before: seq<int>, from: nat, k: Kept)
      requires Running(p, last, all, before, from, k)
      ensures Valid() && 0 <= curSp < stackelm.Length && streamOff <= |stream| && root.LeafSize() >= 1
    {
    }

    /** At the end of the run. */
    ghost predicate Finished(p: PieceSet, last: int, before: seq<int>, from: nat, k: Kept)
      reads this, stackelm, p.Footprint()
    {
      && Valid() && AtLeaf()
      && p.Valid() && p.Frame() == k
      && Delivered(p, before, from) && Stopped(p, last)
    }

    method RunLeaf(last: int, p: PieceSet, ghost all: seq<int>, ghost before: seq<int>, ghost from: nat, ghost k: Kept)
      returns (stop: bool)
      requires Running(p, last, all, before, from, k) && stackelm[curSp].loop.Leaf?
      requires Ready(last, p) && Apart(p)
      requires p.NoPieces? || all == before + stream[from..TargetOf(last)]
      requires p.Begins(before, from, TargetOf(last))
      modifies this`curSp, this`streamOff, stackelm, p.Writes()
      ensures stop ==> Finished(p, last, before, from, k)
      ensures !stop ==> Running(p, last, all, before, from, k) && streamOff > old(streamOff)
    {
      ghost var mid, here := p.Emitted(), streamOff;
      stop := LeafStep(last, p, all);
      DeliveredOn(p, before, from, mid, here);
      PlanKept(p, last, all, before, from);
    }

    method RunNode(last: int, p: PieceSet, ghost all: seq<int>, ghost before: seq<int>, ghost from: nat, ghost k: Kept)
      returns (stop: bool)
      requires Running(p, last, all, before, from, k) && stackelm[curSp].loop.Node?
      requires Apart(p)
      modifies this`curSp, stackelm
      ensures stop ==> Finished(p, last, before, from, k)
      ensures !stop ==> Running(p, last, all, before, from, k) && Phase() < old(Phase())
    {
      hide Consistent, Target, PieceSet.Valid, PieceSet.Fits, PieceSet.Frame, PieceSet.Begins, PieceSet.Emitted;
      NodeStep();
      stop := curSp < 0;
      if stop {
        AtEnd();
      }
    }

    /** The interpreter loop, from the current position up to `last`. */
    method Loop(last: int, p: PieceSet, ghost all: seq<int>)
      requires Valid() && curSp >= 0
      requires Window(streamOff, last, |stream|) && Ready(last, p)
      requires p.Valid() && Apart(p) && Plan(p, last, all)
      modifies this`curSp, this`streamOff, stackelm, p.Writes()
      ensures Finished(p, last, old(p.Emitted()), old(streamOff), old(p.Frame()))
    {
      hide Segment.Running, Segment.Valid, Segment.Plan, Segment.Finished, Segment.Phase, Window, Target, Separated;
      hide PieceSet.Valid, PieceSet.Frame, PieceSet.Emitted;
      ghost var before, from, k := p.Emitted(), streamOff, p.Frame();
      RunStart(p, last, all);
      InRun(p, last, all, before, from, k);
      while true
        invariant Running(p, last, all, before, from, k)
        invariant Valid() && 0 <= curSp < stackelm.Length && streamOff <= |stream|
        decreases |stream| - streamOff, Phase()
      {
        var stop;
        if stackelm[curSp].loop.Leaf? {
          stop := RunLeaf(last, p, all, before, from, k);
        } else {
          stop := RunNode(last, p, all, before, from, k);
        }
        if stop {
          return;
        }
        InRun(p, last, all, before, from, k);
      }
    }

    /** DLOOP_SEGMENT_RESET_VALUES: only level 0 is set up anew. */
    method ResetValues()
      requires Valid()
      modifies this, stackelm
      ensures Valid() && Parked() && curSp == 0 && streamOff == 0 && orderly == (old(curSp) == -1)
      ensures stream == Entering(root, 0, [Started(old(stackelm[0]))] + old(stackelm[1..]))
    {
      ghost var s := stackelm[..];
      StartedRest(root, s);
      orderly := curSp == -1;
      if orderly {
        StartKeepsOrder(root, s);
      }
      assert LoopAt(root, 0) == root;
      EnteringLen(root, 0, [Started(s[0])] + s[1..]);
      stackelm[0] := Started(stackelm[0]);
      assert stackelm[..] == s[0 := Started(s[0])];
      assert stackelm[1..] == s[1..];
      curSp, streamOff := 0, 0;
      stream := Rest(stackelm[..], 0);
      assert root.shape.BlockSize(0) >= 1;
    }

    /** The stream that a run starting at `first` draws on: a run that starts behind the current
        position resets the segment first. */
    ghost function StreamFor(first: nat): seq<int>
      requires stackelm.Length >= 1
      reads this, stackelm
    {
      if first < streamOff then Entering(root, 0, [Started(stackelm[0])] + stackelm[1..]) else stream
    }

    /** Whether a run starting at `first` goes on in order: a reset only keeps order at the end of the stream. */
    ghost predicate OrderlyFor(first: nat)
      reads this
    {
      if first < streamOff then curSp == -1 else orderly
    }

    /** What the source asks of a caller: nothing to do, or a window that starts at an element inside
        the stream. */
    ghost predicate Runnable(first: nat, last: int)
      requires root.LeafSize() >= 1
      reads this
    {
      || first == last
      || (first < |stream| && first % root.LeafSize() == 0 && (last == IGNORE_LAST || first <= last))
    }

    /** A run from the start of a segment that has not run. */
    lemma InitialStream(first: nat)
      requires Valid() && streamOff == 0
      ensures stackelm.Length >= 1 && root.LeafSize() >= 1 && StreamFor(first) == stream
    {
    }

    lemma WholeTarget()
      requires Valid()
      ensures root.LeafSize() >= 1 && TargetOf(IGNORE_LAST) == |stream|
    {
    }

    lemma AtEnd()
      requires Valid() && curSp < 0
      ensures streamOff == |stream|
    {
    }

    lemma NotAtEnd()
      requires Valid() && streamOff < |stream|
      ensures 0 <= curSp < stackelm.Length
    {
    }

    lemma OnTarget(first: nat)
      requires Valid() && first < |stream| && first % root.LeafSize() == 0
      ensures TargetOf(first) == first
    {
    }

    lemma TargetAfter(first: nat, last: int)
      requires Valid() && Runnable(first, last) && first != last
      ensures first <= TargetOf(last) <= |stream|
    {
      if last != IGNORE_LAST && last < |stream| {
        AlignedBelow(first, last, root.LeafSize());
      }
    }

    lemma StreamLen(first: nat)
      requires Valid()
      ensures stackelm.Length >= 1 && root.LeafSize() >= 1 && |StreamFor(first)| == |stream|
    {
      EnteringLen(root, 0, [Started(stackelm[0])] + stackelm[1..]);
    }

    /** The call of the function on itself with NULL piece functions: it starts at the current
        offset, so it only runs the loop. */
    method Replay(first: nat)
      requires Valid() && Parked() && streamOff < first < |stream| && first % root.LeafSize() == 0
      modifies this`curSp, this`streamOff, stackelm
      ensures Valid() && Parked() && curSp >= 0 && streamOff == first
    {
      if curSp == -1 {
        AtEnd();
      }
      OnTarget(first);
      Loop(first, NoPieces, []);
      if curSp == -1 {
        AtEnd();
      }
    }

    /** First the stream offset is brought to `first`. */
    method Reposition(first: nat)
      requires Valid() && Parked() && first < |stream| && first % root.LeafSize() == 0
      modifies this, stackelm
      ensures Valid() && Parked() && curSp >= 0 && streamOff == first
      ensures stream == old(StreamFor(first)) && orderly == old(OrderlyFor(first))
    {
      if first != streamOff {
        if first < streamOff {
          ResetValues();
        }
        if first != streamOff {
          Replay(first);
        }
      } else if curSp == -1 {
        AtEnd();
      }
    }

    /** Segment_manipulate and its NIC port: run the piece functions of p on bytes first..last-1. */
    method Manipulate(first: nat, lastIn: int, p: PieceSet) returns (last: int)
      requires Valid() && Parked() && Runnable(first, lastIn)
      requires p.Valid() && Apart(p) && Ready(lastIn, p)
      requires PlanFor(p, first, lastIn)
      modifies this, stackelm, p.Writes()
      ensures first == lastIn ==> last == lastIn && unchanged(this, stackelm) && unchanged(p.Writes())
      ensures first != lastIn ==>
                && Finished(p, lastIn, old(p.Emitted()), first, old(p.Frame()))
                && stream == old(StreamFor(first)) && last == streamOff && orderly == old(OrderlyFor(first))
    {
      hide *;
      last := lastIn;
      if first != last {
        Run(first, last, p);
        last := streamOff;
      }
    }

    /** Repositioning, then the interpreter loop. */
    method Run(first: nat, last: int, p: PieceSet)
      requires Valid() && Parked() && Runnable(first, last) && first != last
      requires p.Valid() && Apart(p) && Ready(last, p) && PlanFor(p, first, last)
      modifies this, stackelm, p.Writes()
      ensures Finished(p, last, old(p.Emitted()), first, old(p.Frame()))
      ensures stream == old(StreamFor(first)) && orderly == old(OrderlyFor(first))
    {
      hide Segment.Valid, Segment.Finished, Segment.Parked, Segment.Plan, Segment.StreamFor, Segment.PlanFor, Target;
      hide PieceSet.Fits, PieceSet.Valid, PieceSet.Frame, PieceSet.Emitted, Separated;
      ghost var target, all := PlanBefore(p, first, last);
      Reposition(first);
      PlanAfter(p, last, all, target);
      Loop(last, p, all);
    }

    /** What a run starting at `first` will have handed over, and where it ends. */
    lemma PlanBefore(p: PieceSet, first: nat, last: int) returns (target: nat, all: seq<int>)
      requires Valid() && Runnable(first, last) && first != last && p.Valid() && PlanFor(p, first, last)
      ensures stackelm.Length >= 1 && root.LeafSize() >= 1 && first < |stream| && first % root.LeafSize() == 0
      ensures |StreamFor(first)| == |stream| && target == TargetOf(last) && first <= target <= |stream|
      ensures Window(first, last, |stream|)
      ensures p.Begins(p.Emitted(), first, target)
      ensures !p.NoPieces? ==>
        all == p.Emitted() + StreamFor(first)[first..target] && p.Fits(p.Frame().start, all)
    {
      TargetAfter(first, last);
      StreamLen(first);
      target := TargetOf(last);
      all := if p.NoPieces? then [] else p.Emitted() + StreamFor(first)[first..target];
    }

    lemma PlanAfter(p: PieceSet, last: int, all: seq<int>, target: nat)
      requires p.Valid() && root.LeafSize() >= 1 && target == TargetOf(last) && streamOff <= target <= |stream|
      requires !p.NoPieces? ==> all == p.Emitted() + stream[streamOff..target] && p.Fits(p.Frame().start, all)
      requires p.Begins(p.Emitted(), streamOff, target)
      ensures Plan(p, last, all)
    {
    }

    /** The buffers have room for the window. */
    ghost predicate PlanFor(p: PieceSet, first: nat, last: int)
      requires p.Valid() && root.LeafSize() >= 1 && stackelm.Length >= 1
      reads this, stackelm, p.Footprint()
    {
      first != last && !p.NoPieces? ==>
        && first <= TargetOf(last) <= |StreamFor(first)| && p.Begins(p.Emitted(), first, TargetOf(last))
        && p.Fits(p.Frame().start, p.Emitted() + StreamFor(first)[first..TargetOf(last)])
    }
  }

  method LoadStack(root: Loop) returns (s: array<Elm>)
    requires root.Depth() < MAX_DATATYPE_DEPTH
    ensures fresh(s) && s.Length == MAX_DATATYPE_DEPTH
    ensures forall k: nat | k < root.Depth() :: s[k] == Load(LoopAt(root, k))
  {
    s := new Elm[MAX_DATATYPE_DEPTH](_ => Load(root));
    var dlp, i := root, 1;
    while dlp.Node?
      invariant 1 <= i <= root.Depth()
      invariant dlp == LoopAt(root, i - 1)
      invariant forall k: nat | k < i :: s[k] == Load(LoopAt(root, k))
      decreases dlp
    {
      LoopAtStep(root, i - 1);
      dlp := dlp.child;
      s[i] := Load(dlp);
      i := i + 1;
    }
    LoopAtStep(root, i - 1);
  }
}
