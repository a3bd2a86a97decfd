/** Which piece function a leaf level calls, for how many elements, and with which arguments. */
module LeafCalls {
  import opened Dataloops
  import opened LeafBlocks
  import opened SegmentStack
  import opened LeafSteps
  import opened LevelSizes
  import opened Pieces
  import opened FlattenCount

  datatype PieceFn = PfNull | PfContig | PfVector | PfBlockIndexed | PfIndexed

  /** A choice that the leaf's state allows; the block functions are asked for all that is left. */
  ghost predicate Chosen(e: Elm, fn: PieceFn, n: nat)
  {
    && n >= 1
    && CanTake(e, n)
    && (match fn
        case PfNull => n <= e.curBlock
        case PfContig => n <= e.curBlock
        case PfVector => e.loop.shape.Vector?
        case PfBlockIndexed => e.loop.shape.BlockIndexed? && e.Index() == 0
        case PfIndexed => e.loop.shape.Indexed? && e.Index() == 0)
    && (!fn.PfNull? && !fn.PfContig? ==> e.curBlock == e.loop.shape.BlockSize(e.Index()))
  }

  ghost predicate AllLeft(e: Elm, fn: PieceFn, n: nat) {
    !fn.PfNull? && !fn.PfContig? ==> n == BlocksLeft(e.loop.shape, e.Index())
  }

  /** No element of the leaf has been taken. */
  ghost predicate AtStart(e: Elm) {
    e.Index() == 0 && e.curBlock == e.loop.shape.BlockSize(0)
  }

  /** A blockindexed leaf is only given to the contiguous function when it is not at its start. */
  ghost predicate StartsRight(e: Elm, fn: PieceFn, p: PieceSet) {
    fn.PfContig? && p.HasBlockFns() && e.loop.shape.BlockIndexed? ==> !AtStart(e)
  }

  lemma SomethingLeft(s: Shape, i: nat)
    requires s.Positive() && i < s.Count()
    ensures BlocksLeft(s, i) >= 1
  {
    assert s.BlockSize(i) >= 1;
  }

  lemma UniformAll(e: Elm)
    requires ActiveLeaf(e) && (e.loop.shape.Vector? || e.loop.shape.BlockIndexed?)
    requires e.origBlock == e.curBlock
    ensures e.curBlock == e.loop.shape.BlockSize(e.Index())
    ensures e.curBlock * e.curCount == BlocksLeft(e.loop.shape, e.Index()) >= 1
  {
    NonIndexedBlock(e, e.loop);
    UniformLeft(e.loop.shape, e.Index(), e.curBlock);
    SomethingLeft(e.loop.shape, e.Index());
  }

  /** The default is the contiguous function on the rest of the current block; the others only from
      a block start (vectors) or from the start of the type (blockindexed, indexed). */
  method ChoosePiece(e: Elm, p: PieceSet) returns (fn: PieceFn, n: nat)
    requires ActiveLeaf(e)
    ensures Chosen(e, fn, n) && AllLeft(e, fn, n) && n >= e.curBlock
    ensures fn.PfNull? <==> p.NoPieces?
    ensures !p.HasBlockFns() ==> fn.PfNull? || fn.PfContig?
    ensures StartsRight(e, fn, p)
  {
    n := e.curBlock;
    fn := if p.NoPieces? then PfNull else PfContig;
    match e.loop.shape {
      case Contig(_) =>
      case BlockIndexed(_, _) =>
        NonIndexedBlock(e, e.loop);
        if p.HasBlockFns() && e.origBlock == e.curBlock && e.origCount == e.curCount {
          UniformAll(e);
          MulLe(1, e.curCount, e.curBlock);
          n := e.curBlock * e.curCount;
          fn := PfBlockIndexed;
        }
      case Indexed(blocksizes, _, totalBlocks) =>
        if p.HasBlockFns() && e.origCount == e.curCount && e.curBlock == blocksizes[0] {
          TotalLeft(e.loop.shape);
          SomethingLeft(e.loop.shape, 0);
          n := totalBlocks;
          fn := PfIndexed;
        }
      case Vector(_, _, _) =>
        if p.HasBlockFns() && e.origBlock == e.curBlock {
          UniformAll(e);
          MulLe(1, e.curCount, e.curBlock);
          n := e.curBlock * e.curCount;
          fn := PfVector;
        }
    }
  }

  /** Asking for less of a choice is still a choice. */
  lemma ChosenLess(e: Elm, fn: PieceFn, n: nat, m: nat)
    requires Chosen(e, fn, n) && 1 <= m <= n
    ensures Chosen(e, fn, m)
  {
  }

  /** The blocks of a vector from the current one on, as the vector function is given them. */
  function VectorArgs(e: Elm): Loop
    requires e.loop.shape.Vector?
  {
    Leaf(Vector(e.curCount, e.origBlock, e.loop.shape.stride), e.loop.elSize, e.loop.elExtent)
  }

  lemma VectorArgsTaken(e: Elm, n: nat)
    requires ActiveLeaf(e) && Chosen(e, PfVector, n)
    ensures VectorArgs(e).WellFormed()
    ensures Taken(VectorArgs(e), e.curOffset, 0, n) == LeafTaken(e, n)
    ensures BlocksLeft(VectorArgs(e).shape, 0) == BlocksLeft(e.loop.shape, e.Index())
  {
    NonIndexedBlock(e, e.loop);
    assert e.loop.shape.BlockSize(0) >= 1;
    OffsetZero(VectorArgs(e).shape);
    AtBlockStart(e);
    TakenRebased(e.loop, e.origOffset, e.Index(), VectorArgs(e), e.curOffset, 0, n);
  }

  /** Within the first block both forms of a piece agree. */
  lemma BlockTaken(e: Elm, n: nat)
    requires ActiveLeaf(e) && n <= BlocksLeft(e.loop.shape, e.Index())
    requires e.curBlock == e.loop.shape.BlockSize(e.Index())
    ensures Taken(e.loop, e.origOffset, e.Index(), n) == LeafTaken(e, n)
  {
    AtBlockStart(e);
  }

  lemma ChosenLeft(e: Elm, fn: PieceFn, n: nat)
    requires ActiveLeaf(e) && Chosen(e, fn, n) && !fn.PfNull? && !fn.PfContig?
    ensures n <= BlocksLeft(e.loop.shape, e.Index())
  {
  }

  /** What a call says about the place of the piece in the stream. */
  ghost predicate Placed(e: Elm, fn: PieceFn, n: nat, off: nat, target: int, p: PieceSet) {
    match fn
    case PfNull => true
    case PfContig => p.InPart(off, n * e.loop.elSize)
    case PfBlockIndexed => p.FromStart(off, target, n)
    case PfVector => !p.Typed?
    case PfIndexed => !p.Typed?
  }

  /** The stream offset tells how much of the leaf's instance has passed. */
  ghost predicate InstancePlace(e: Elm, off: nat) {
    && 1 <= |Pend(e)| <= Size(e.loop)
    && off % Size(e.loop) == if |Pend(e)| == Size(e.loop) then 0 else Size(e.loop) - |Pend(e)|
  }

  /** Pieces of a blockindexed leaf: from its start all of it, or up to the end of the run; else part of a block. */
  lemma PlacedAt(e: Elm, fn: PieceFn, n: nat, off: nat, target: int, p: PieceSet)
    requires ActiveLeaf(e) && Chosen(e, fn, n) && InstancePlace(e, off)
    requires StartsRight(e, fn, p) && p.MovesAlong(e.loop)
    requires AllLeft(e, fn, n) || off + n * e.loop.elSize == target
    ensures Placed(e, fn, n, off, target, p)
  {
    hide Pend, Size, BlocksLeft, CanTake;
    if p.Typed? && !fn.PfNull? {
      StartPlace(e);
      if fn.PfContig? {
        MulLe(n, e.curBlock, e.loop.elSize);
      }
    }
  }

  method CallPiece(e: Elm, fn: PieceFn, n: nat, p: PieceSet, ghost off: nat, ghost target: int)
    returns (taken: nat, exit: bool)
    requires ActiveLeaf(e) && Chosen(e, fn, n) && Placed(e, fn, n, off, target, p)
    requires p.Valid() && p.Begins(p.Emitted(), off, target)
    requires fn.PfNull? <==> p.NoPieces?
    requires !fn.PfNull? && !fn.PfContig? ==> p.HasBlockFns()
    requires p.CountBlocks? ==> AllLeft(e, fn, n) && Separated(e.loop)
    requires p.MovesAlong(e.loop)
    requires p.Valid() && p.Room(LeafTaken(e, n))
    modifies p.Writes()
    ensures p.Valid() && p.Frame() == old(p.Frame())
    ensures p.Took(old(p.Emitted()), LeafTaken(e, n), n, e.loop.elSize, taken, exit)
  {
    var l := e.loop;
    match fn {
      case PfNull =>
        taken, exit := n, false;
      case PfContig =>
        taken, exit := CallContig(p, n, l.elSize, e.curOffset, off, target);
      case PfVector =>
        VectorArgsTaken(e, n);
        ChosenLeft(e, fn, n);
        taken, exit := CallVector(p, n, e.curCount, e.origBlock, l.shape.stride, l.elSize, e.curOffset, VectorArgs(e));
      case PfBlockIndexed =>
        NonIndexedBlock(e, l);
        ChosenLeft(e, fn, n);
        BlockTaken(e, n);
        taken, exit := CallBlkIdx(p, n, e.curCount, e.origBlock, l.shape.bioffsets, l.elSize, e.origOffset, l,
                                   off, target);
      case PfIndexed =>
        ChosenLeft(e, fn, n);
        BlockTaken(e, n);
        taken, exit := CallIndex(p, n, e.curCount, l.shape.blocksizes, l.shape.offsets, l.elSize, e.origOffset, l);
    }
  }

  /** A leaf is only used up by all the elements that could be asked for. */
  lemma UsedUp(e: Elm, taken: nat, n: nat)
    requires ActiveLeaf(e) && CanTake(e, n) && taken <= n && e.curBlock <= taken
    requires LeafLeft(e, taken) == []
    ensures taken == n
  {
    LeafSplit(e, taken);
    LeafSplit(e, n);
    if taken < n {
      MulLe(taken + 1, n, e.loop.elSize);
      Times(taken, 1, e.loop.elSize);
    }
  }
}
