/** The sets of piece functions a segment can be run with. The engine may call a set's contiguous
    function only, or its vector, blockindexed and indexed functions as well. */
module Pieces {
  import opened Dataloops
  import opened LeafBlocks
  import opened Memory
  import opened M2m
  import opened TypedCopy
  import opened FlattenCount

  /** What a run leaves alone in the memories of its piece parameters. */
  datatype Kept = Kept(start: nat, user0: seq<byte>, stream0: seq<byte>, disps: seq<int>, lens: seq<nat>)

  datatype PieceSet =
    | NoPieces                       // repositioning: every function is NULL
    | Dma(dma: M2mParams)            // the NIC port: one DMA per contiguous piece
    | Copy(m2m: M2mParams)           // Segment_pack and Segment_unpack
    | Typed(t: TypedParams)          // Segment_unpack where typed assignments leave the source pointer behind
    | Flatten(flat: FlattenParams)   // Segment_mpi_flatten
    | CountBlocks(counter: CountParams) // Segment_count_contig_blocks
  {
    predicate HasBlockFns() {
      Copy? || Typed? || Flatten? || CountBlocks?
    }

    ghost function Footprint(): set<object> {
      match this
      case NoPieces => {}
      case Dma(m) => {m, m.user, m.stream}
      case Copy(m) => {m, m.user, m.stream}
      case Typed(t) => {t, t.user, t.stream}
      case Flatten(f) => {f, f.disps, f.blklens}
      case CountBlocks(c) => {c}
    }

    /** The piece functions are those for the leaf. */
    ghost predicate MovesAlong(leaf: Loop) {
      && (Copy? ==> m2m.MovesAlong(leaf))
      && (Typed? ==> t.leaf == leaf && leaf.shape.BlockIndexed?)
    }

    /** With `emitted` handed over the run is at stream offset `off`; it goes up to `target`. */
    ghost predicate Begins(emitted: seq<int>, off: nat, target: int) {
      Typed? ==> t.first + |emitted| == off && t.first + t.total == target
    }

    /** A part of an instance of the leaf, of which `len` bytes are next. */
    ghost predicate InPart(off: nat, len: nat) {
      Typed? ==> InstanceOf(t.leaf) >= 1 && 0 < off % InstanceOf(t.leaf) <= InstanceOf(t.leaf) - len
    }

    /** An instance of the leaf, or what a run takes of it before it ends. */
    ghost predicate FromStart(off: nat, target: int, n: nat) {
      Typed? ==>
        && InstanceOf(t.leaf) >= 1 && off % InstanceOf(t.leaf) == 0
        && (n == BlocksLeft(t.leaf.shape, 0) || off + n * t.leaf.elSize == target)
    }

    /** The part of it that calls may write. */
    ghost function Writes(): set<object> {
      match this
      case NoPieces => {}
      case Dma(m) => {m} + m.Dest()
      case Copy(m) => {m} + m.Dest()
      case Typed(t) => {t, t.user}
      case Flatten(f) => {f, f.disps, f.blklens}
      case CountBlocks(c) => {c}
    }

    ghost predicate Valid()
      reads Footprint()
    {
      match this
      case NoPieces => true
      case Dma(m) => m.Valid()
      case Copy(m) => m.Valid()
      case Typed(t) => t.Valid()
      case Flatten(f) => f.Valid()
      case CountBlocks(c) => c.Valid()
    }

    /** The offsets handed over so far. */
    ghost function Emitted(): seq<int>
      reads Footprint()
    {
      match this
      case NoPieces => []
      case Dma(m) => m.emitted
      case Copy(m) => m.emitted
      case Typed(t) => t.emitted
      case Flatten(f) => f.emitted
      case CountBlocks(c) => c.emitted
    }

    ghost predicate Room(bytes: seq<int>)
      reads Footprint()
    {
      match this
      case NoPieces => true
      case Dma(m) => m.Room(bytes)
      case Copy(m) => m.Room(bytes)
      case Typed(t) => t.Room(bytes)
      case Flatten(f) => true
      case CountBlocks(c) => true
    }

    /** No more regions can be taken at offset b: only flattening ever stops a run. */
    ghost predicate Stuck(b: int)
      requires Valid()
      reads Footprint()
    {
      Flatten? && flat.Full(b)
    }

    ghost function Frame(): Kept
      reads Footprint()
    {
      match this
      case NoPieces => Kept(0, [], [], [], [])
      case Dma(m) => Kept(m.start, m.user0, m.stream0, [], [])
      case Copy(m) => Kept(m.start, m.user0, m.stream0, [], [])
      case Typed(t) => Kept(t.start, t.user0, t.stream0, [], [])
      case Flatten(f) =>
        if f.start <= f.disps.Length && f.start <= f.blklens.Length
        then Kept(0, [], [], f.disps[..f.start], f.blklens[..f.start]) else Kept(0, [], [], [], [])
      case CountBlocks(c) => Kept(0, [], [], [], [])
    }

    /** The buffers have room for all the offsets of a run, counted from its start. */
    ghost predicate Fits(start: nat, all: seq<int>) {
      match this
      case NoPieces => true
      case Dma(m) => start + |all| <= m.stream.Length && Inside(all, m.origin, m.user.Length)
      case Copy(m) => start + |all| <= m.stream.Length && Inside(all, m.origin, m.user.Length)
      case Typed(t) => |all| <= t.total && Inside(all, t.origin, t.user.Length)
      case Flatten(f) => true
      case CountBlocks(c) => true
    }

    lemma FitsRoom(all: seq<int>, bytes: seq<int>)
      requires Valid() && Fits(Frame().start, all)
      requires NoPieces? || Emitted() + bytes <= all
      ensures Room(bytes)
    {
      if Dma? || Copy? || Typed? {
        var rest := all[|Emitted() + bytes|..];
        var origin := if Dma? then dma.origin else if Copy? then m2m.origin else t.origin;
        var user := if Dma? then dma.user else if Copy? then m2m.user else t.user;
        assert all == Emitted() + bytes + rest;
        InsideAppend(Emitted() + bytes, rest, origin, user.Length);
        InsideAppend(Emitted(), bytes, origin, user.Length);
      }
    }

    /** How a call that asked for n elements returned, `bytes` being all the bytes asked for. */
    ghost predicate Took(before: seq<int>, bytes: seq<int>, n: nat, elSize: nat, taken: nat, exit: bool)
      requires Valid()
      reads Footprint()
    {
      && taken <= n
      && (exit <==> taken < n)
      && taken * elSize <= |bytes|
      && (NoPieces? || Emitted() == before + bytes[..taken * elSize])
      && (exit ==> taken * elSize < |bytes| && Stuck(bytes[taken * elSize]))
    }
  }

  lemma WholeSlice<T>(s: seq<T>)
    ensures s[..|s|] == s
  {
  }

  method CallContig(p: PieceSet, n: nat, elSize: nat, relOff: int, ghost off: nat, ghost target: int)
    returns (taken: nat, exit: bool)
    requires p.Valid() && p.Room(Run(relOff, n * elSize)) && n >= 1 && elSize >= 1
    requires p.Begins(p.Emitted(), off, target) && p.InPart(off, n * elSize)
    modifies p.Writes()
    ensures p.Valid() && p.Frame() == old(p.Frame())
    ensures p.Took(old(p.Emitted()), Run(relOff, n * elSize), n, elSize, taken, exit)
  {
    taken, exit := n, false;
    WholeSlice(Run(relOff, n * elSize));
    MulLe(1, n, elSize);
    match p {
      case NoPieces =>
      case Dma(m) => m.Contig(n, elSize, relOff);
      case Copy(m) => m.Contig(n, elSize, relOff);
      case Typed(t) => t.Contig(n, elSize, relOff);
      case Flatten(f) => taken, exit := f.Contig(n, elSize, relOff);
      case CountBlocks(c) => c.Contig(n, elSize, relOff);
    }
  }

  /** Fewer elements than asked for, as flattening may take them. */
  lemma FlattenTook(f: FlattenParams, before: seq<int>, leaf: Loop, b: int, n: nat, taken: nat, exit: bool)
    requires f.Valid() && f.Took(before, leaf, b, n, taken, exit)
    requires n <= BlocksLeft(leaf.shape, 0)
    ensures Flatten(f).Took(before, Taken(leaf, b, 0, n), n, leaf.elSize, taken, exit)
  {
    TakenPrefix(leaf, b, 0, taken, n);
    TakenLen(leaf, b, 0, taken);
  }

  method CallVector(p: PieceSet, n: nat, count: nat, blksz: nat, stride: int, elSize: nat, relOff: int,
                    ghost leaf: Loop)
    returns (taken: nat, exit: bool)
    requires p.HasBlockFns() && p.Valid() && p.Room(Taken(leaf, relOff, 0, n))
    requires leaf.Leaf? && leaf.WellFormed() && leaf.shape == Vector(count, blksz, stride) && leaf.elSize == elSize
    requires !p.Typed?
    requires n <= BlocksLeft(leaf.shape, 0)
    requires p.CountBlocks? ==> n == BlocksLeft(leaf.shape, 0)
    modifies p.Writes()
    ensures p.Valid() && p.Frame() == old(p.Frame())
    ensures p.Took(old(p.Emitted()), Taken(leaf, relOff, 0, n), n, elSize, taken, exit)
  {
    taken, exit := n, false;
    TakenLen(leaf, relOff, 0, n);
    WholeSlice(Taken(leaf, relOff, 0, n));
    assert leaf.shape.BlockSize(0) >= 1;
    match p {
      case Copy(m) => m.Vector(n, blksz, stride, elSize, relOff, leaf);
      case Flatten(f) =>
        ghost var before := f.emitted;
        taken, exit := f.Vector(n, count, blksz, stride, elSize, relOff, leaf);
        FlattenTook(f, before, leaf, relOff, n, taken, exit);
      case CountBlocks(c) => c.Vector(n, count, blksz, stride, elSize, relOff, leaf);
    }
  }

  method CallBlkIdx(p: PieceSet, n: nat, count: nat, blocklen: nat, offsetarray: seq<int>, elSize: nat, relOff: int,
                    ghost leaf: Loop, ghost off: nat, ghost target: int)
    returns (taken: nat, exit: bool)
    requires p.HasBlockFns() && p.Valid() && p.Room(Taken(leaf, relOff, 0, n))
    requires leaf.Leaf? && leaf.WellFormed() && leaf.shape == BlockIndexed(blocklen, offsetarray)
    requires leaf.elSize == elSize && count == |offsetarray| && p.MovesAlong(leaf)
    requires 1 <= n <= BlocksLeft(leaf.shape, 0) && p.Begins(p.Emitted(), off, target) && p.FromStart(off, target, n)
    requires p.CountBlocks? ==> n == BlocksLeft(leaf.shape, 0)
    modifies p.Writes()
    ensures p.Valid() && p.Frame() == old(p.Frame())
    ensures p.Took(old(p.Emitted()), Taken(leaf, relOff, 0, n), n, elSize, taken, exit)
  {
    taken, exit := n, false;
    TakenLen(leaf, relOff, 0, n);
    WholeSlice(Taken(leaf, relOff, 0, n));
    assert leaf.shape.BlockSize(0) >= 1;
    match p {
      case Copy(m) => m.BlkIdx(n, blocklen, offsetarray, elSize, relOff, leaf);
      case Typed(t) => t.BlkIdx(n, blocklen, offsetarray, elSize, relOff);
      case Flatten(f) =>
        ghost var before := f.emitted;
        taken, exit := f.BlkIdx(n, count, blocklen, offsetarray, elSize, relOff, leaf);
        FlattenTook(f, before, leaf, relOff, n, taken, exit);
      case CountBlocks(c) => c.BlkIdx(n, count, blocklen, offsetarray, elSize, relOff, leaf);
    }
  }

  method CallIndex(p: PieceSet, n: nat, count: nat, blockarray: seq<nat>, offsetarray: seq<int>, elSize: nat,
                   relOff: int, ghost leaf: Loop)
    returns (taken: nat, exit: bool)
    requires p.HasBlockFns() && p.Valid() && p.Room(Taken(leaf, relOff, 0, n))
    requires leaf.Leaf? && leaf.WellFormed() && leaf.shape.Indexed?
    requires leaf.shape.blocksizes == blockarray && leaf.shape.offsets == offsetarray
    requires !p.Typed?
    requires leaf.elSize == elSize && count == |blockarray|
    requires n <= BlocksLeft(leaf.shape, 0)
    requires p.CountBlocks? ==> n == BlocksLeft(leaf.shape, 0) && Separated(leaf)
    modifies p.Writes()
    ensures p.Valid() && p.Frame() == old(p.Frame())
    ensures p.Took(old(p.Emitted()), Taken(leaf, relOff, 0, n), n, elSize, taken, exit)
  {
    taken, exit := n, false;
    TakenLen(leaf, relOff, 0, n);
    WholeSlice(Taken(leaf, relOff, 0, n));
    match p {
      case Copy(m) => m.Index(n, blockarray, offsetarray, elSize, relOff, leaf);
      case Flatten(f) =>
        ghost var before := f.emitted;
        taken, exit := f.Index(n, count, blockarray, offsetarray, elSize, relOff, leaf);
        FlattenTook(f, before, leaf, relOff, n, taken, exit);
      case CountBlocks(c) => c.Index(n, count, blockarray, offsetarray, elSize, relOff, leaf);
    }
  }
}
