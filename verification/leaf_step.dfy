/** What a leaf level does when a piece of n elements has been processed. */
module LeafSteps {
  import opened Dataloops
  import opened LeafBlocks
  import opened SegmentStack

  ghost predicate ActiveLeaf(e: Elm) {
    e.loop.Leaf? && e.loop.WellFormed() && Active(e) && Loaded(e, e.loop)
  }

  /** A piece lies within the current block, or starts at a block start and may run on. */
  ghost predicate CanTake(e: Elm, n: nat) {
    || n <= e.curBlock
    || (e.curBlock == e.loop.shape.BlockSize(e.Index()) && n <= BlocksLeft(e.loop.shape, e.Index()))
  }

  /** The bytes of the piece. */
  ghost function LeafTaken(e: Elm, n: nat): seq<int> {
    if n <= e.curBlock then Run(e.curOffset, n * e.loop.elSize)
    else Taken(e.loop, e.origOffset, e.Index(), n)
  }

  /** The bytes of the leaf after the piece. */
  ghost function LeafLeft(e: Elm, n: nat): seq<int> {
    if n < e.curBlock then
      Run(e.curOffset + n * e.loop.elSize, (e.curBlock - n) * e.loop.elSize)
      + BlocksFrom(e.loop, e.origOffset, e.Index() + 1)
    else Dropped(e.loop, e.origOffset, e.Index() + 1, n - e.curBlock)
  }

  lemma LeafSplit(e: Elm, n: nat)
    requires ActiveLeaf(e) && CanTake(e, n)
    ensures Pend(e) == LeafTaken(e, n) + LeafLeft(e, n)
    ensures |LeafTaken(e, n)| == n * e.loop.elSize
  {
    var l, o, i := e.loop, e.origOffset, e.Index();
    if n < e.curBlock {
      PartSplit(e, n);
    } else if n == e.curBlock {
      LeafElems(l, e.curOffset, e.curBlock);
      DroppedZero(l, o, i + 1);
    } else {
      AtBlockStart(e);
      TakenDropped(l, o, i, n);
      TakenLen(l, o, i, n);
    }
  }

  lemma PartSplit(e: Elm, n: nat)
    requires ActiveLeaf(e) && n < e.curBlock
    ensures Pend(e) == LeafTaken(e, n) + LeafLeft(e, n)
    ensures |LeafTaken(e, n)| == n * e.loop.elSize
  {
    var l := e.loop;
    LeafElems(l, e.curOffset, e.curBlock);
    SplitRun(e.curOffset, n, e.curBlock, l.elSize);
    hide BlocksFrom;
    Assoc(Run(e.curOffset, n * l.elSize), Run(e.curOffset + n * l.elSize, (e.curBlock - n) * l.elSize),
          BlocksFrom(l, e.origOffset, e.Index() + 1));
  }

  lemma AtBlockStart(e: Elm)
    requires ActiveLeaf(e) && e.curBlock == e.loop.shape.BlockSize(e.Index())
    ensures e.curOffset == e.origOffset + e.loop.shape.Offset(e.Index())
    ensures Pend(e) == BlocksFrom(e.loop, e.origOffset, e.Index())
  {
    assert (e.loop.shape.BlockSize(e.Index()) - e.curBlock) * e.loop.elSize == 0;
  }

  /** A level standing m elements into block i. */
  lemma AtBlock(e: Elm, i: nat, m: nat)
    requires e.loop.Leaf? && e.loop.WellFormed() && Loaded(e, e.loop)
    requires i < e.origCount && e.curCount == e.origCount - i
    requires m < e.loop.shape.BlockSize(i) && e.curBlock == e.loop.shape.BlockSize(i) - m
    requires e.curOffset == e.origOffset + e.loop.shape.Offset(i) + m * e.loop.elSize
    ensures ActiveLeaf(e) && Pend(e) == Dropped(e.loop, e.origOffset, i, m)
  {
    LeafElems(e.loop, e.curOffset, e.curBlock);
  }

  /** Within the current block. */
  method PartOfBlock(e: Elm, n: nat) returns (r: Elm)
    requires ActiveLeaf(e) && n < e.curBlock
    ensures ActiveLeaf(r) && r.loop == e.loop && r.origOffset == e.origOffset
    ensures Pend(r) == LeafLeft(e, n)
  {
    r := e.(curOffset := e.curOffset + n * e.loop.elSize, curBlock := e.curBlock - n);
    var bs := e.loop.shape.BlockSize(e.Index());
    Times(bs - e.curBlock, n, e.loop.elSize);
    LeafElems(r.loop, r.curOffset, r.curBlock);
  }

  lemma IndexedHas(s: Shape, i: nat)
    requires i < s.Count()
    ensures HasBlockSize(s, s.BlockSize(i))
  {
  }

  /** Indexed leaf: whole blocks are taken off one by one, the current one first. */
  method IndexedBlocks(e: Elm, n: nat) returns (r: Elm, popped: bool)
    requires ActiveLeaf(e) && e.loop.shape.Indexed? && e.curBlock <= n && CanTake(e, n)
    ensures Loaded(r, e.loop) && r.origOffset == e.origOffset
    ensures popped ==> LeafLeft(e, n) == []
    ensures !popped ==> ActiveLeaf(r) && Pend(r) == LeafLeft(e, n)
  {
    var s := e.loop.shape;
    var m: nat := n - e.curBlock;
    var curCount: nat := e.curCount - 1;
    var countIndex: nat := e.origCount - curCount;
    var curBlock := if countIndex < e.origCount then s.blocksizes[countIndex] else 0;
    while m > 0 && m >= curBlock
      invariant curCount <= e.origCount && countIndex == e.origCount - curCount
      invariant curBlock == s.BlockSize(countIndex)
      invariant m <= BlocksLeft(s, countIndex)
      invariant Dropped(e.loop, e.origOffset, countIndex, m) == LeafLeft(e, n)
      decreases curCount
    {
      m := m - curBlock;
      curCount := curCount - 1;
      countIndex := e.origCount - curCount;
      curBlock := if countIndex < e.origCount then s.blocksizes[countIndex] else 0;
    }
    if curCount == 0 {
      return e.(curCount := 0), true;
    }
    assert curBlock >= 1;
    IndexedHas(s, countIndex);
    r := e.(curCount := curCount,
            origBlock := curBlock,
            curBlock := curBlock - m,
            curOffset := e.origOffset + s.offsets[countIndex] + m * e.loop.elSize);
    AtBlock(r, countIndex, m);
    popped := false;
  }

  /** Blockindexed leaf: as above, with one block size. */
  method BlockIndexedBlocks(e: Elm, n: nat) returns (r: Elm, popped: bool)
    requires ActiveLeaf(e) && e.loop.shape.BlockIndexed? && e.curBlock <= n && CanTake(e, n)
    ensures Loaded(r, e.loop) && r.origOffset == e.origOffset
    ensures popped ==> LeafLeft(e, n) == []
    ensures !popped ==> ActiveLeaf(r) && Pend(r) == LeafLeft(e, n)
  {
    var s := e.loop.shape;
    NonIndexedBlock(e, e.loop);
    var m: nat := n - e.curBlock;
    var curCount: nat := e.curCount - 1;
    var countIndex: nat := e.origCount - curCount;
    while m > 0 && m >= e.origBlock
      invariant curCount <= e.origCount && countIndex == e.origCount - curCount
      invariant m <= BlocksLeft(s, countIndex)
      invariant Dropped(e.loop, e.origOffset, countIndex, m) == LeafLeft(e, n)
      decreases curCount
    {
      m := m - e.origBlock;
      curCount := curCount - 1;
      countIndex := e.origCount - curCount;
    }
    if curCount == 0 {
      return e.(curCount := 0), true;
    }
    assert s.BlockSize(countIndex) >= 1;
    r := e.(curCount := curCount,
            curBlock := e.origBlock - m,
            curOffset := e.origOffset + s.bioffsets[countIndex] + m * e.loop.elSize);
    AtBlock(r, countIndex, m);
    popped := false;
  }

  /** Where a vector stands after n elements: quotient and remainder. */
  lemma VectorPosition(e: Elm, n: nat)
    requires ActiveLeaf(e) && e.loop.shape.Vector? && e.curBlock <= n && CanTake(e, n)
    ensures n / e.curBlock >= 1 && n % e.curBlock >= 0
    ensures n / e.curBlock <= e.curCount
    ensures n % e.curBlock < e.origBlock
    ensures n / e.curBlock == e.curCount ==> LeafLeft(e, n) == []
    ensures LeafLeft(e, n)
         == Dropped(e.loop, e.origOffset, e.Index() + n / e.curBlock, n % e.curBlock)
  {
    var s := e.loop.shape;
    NonIndexedBlock(e, e.loop);
    DivMod(n, e.curBlock);
    if n == e.curBlock {
      DivIs(n, e.curBlock, 1, 0);
    } else {
      DivStep(n, e.curBlock);
      DroppedUniform(e.loop, e.origOffset, e.Index(), n, e.curBlock);
    }
  }

  method VectorBlocks(e: Elm, n: nat) returns (r: Elm, popped: bool)
    requires ActiveLeaf(e) && e.loop.shape.Vector? && e.curBlock <= n && CanTake(e, n)
    ensures Loaded(r, e.loop) && r.origOffset == e.origOffset
    ensures popped ==> LeafLeft(e, n) == []
    ensures !popped ==> ActiveLeaf(r) && Pend(r) == LeafLeft(e, n)
  {
    VectorPosition(e, n);
    var whole: nat, part: nat := n / e.curBlock, n % e.curBlock;
    r, popped := VectorMove(e, whole, part);
  }

  method VectorMove(e: Elm, whole: nat, part: nat) returns (r: Elm, popped: bool)
    requires ActiveLeaf(e) && e.loop.shape.Vector?
    requires 1 <= whole <= e.curCount && part < e.origBlock
    ensures Loaded(r, e.loop) && r.origOffset == e.origOffset
    ensures popped <==> whole == e.curCount
    ensures !popped ==> ActiveLeaf(r)
    ensures !popped ==> Pend(r) == Dropped(e.loop, e.origOffset, e.Index() + whole, part)
  {
    NonIndexedBlock(e, e.loop);
    var curCount := e.curCount - whole;
    if curCount == 0 {
      return e.(curCount := 0), true;
    }
    var curBlock := e.origBlock - part;
    var i := e.origCount - curCount;
    r := e.(curCount := curCount,
            curBlock := curBlock,
            curOffset := e.origOffset + i * e.loop.shape.stride
                         + (e.origBlock - curBlock) * e.loop.elSize);
    AtBlock(r, i, part);
    popped := false;
  }

  /** The update of a leaf level after a piece of n elements that finishes at least one block. */
  method WholeBlocks(e: Elm, n: nat) returns (r: Elm, popped: bool)
    requires ActiveLeaf(e) && e.curBlock <= n && CanTake(e, n)
    ensures Loaded(r, e.loop) && r.origOffset == e.origOffset
    ensures popped ==> LeafLeft(e, n) == []
    ensures !popped ==> ActiveLeaf(r) && Pend(r) == LeafLeft(e, n)
  {
    match e.loop.shape {
      case Contig(_) =>
        r, popped := e, true;
      case Vector(_, _, _) =>
        r, popped := VectorBlocks(e, n);
      case BlockIndexed(_, _) =>
        r, popped := BlockIndexedBlocks(e, n);
      case Indexed(_, _, _) =>
        r, popped := IndexedBlocks(e, n);
    }
  }
}
