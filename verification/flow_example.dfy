/** A flow that leaves its window: a type with blocks of different sizes, and two packets out of order. */
module FlowExamples {
  import opened Dataloops
  import opened LeafBlocks
  import opened Memory
  import opened SegmentStack
  import opened Displacements
  import opened Footprints
  import opened CreateTypes
  import opened Segments
  import opened Histories
  import opened Windows
  import opened Paths
  import opened NicHandler
  import opened Misdeliveries
  import opened Reaches
  import opened Flows

  /** Two instances of an indexed type with blocks of two and of one, each element two integers. */
  const STEPS: Loop := Node(Contig(2), 24, 40, Node(Shape.Indexed([2, 1], [0, 32], 3), 8, 8,
                                            Leaf(Contig(2), 4, 4)))

  const STEPS_TYPE: Mpi := Mpi.Indexed([2, 1], [0, 4], Mpi.Contiguous(2, Named(4)))

  lemma StepElem(b: int)
    ensures Elem(STEPS.child, b) == Bytes(STEPS.child.child, b) == Run(b, 8)
  {
    var l := STEPS.child.child;
    LeafElems(l, b, 2);
    assert BlocksFrom(l, b, 1) == [];
    assert Bytes(l, b) == Elems(l, b + 0, 2) + BlocksFrom(l, b, 1);
  }

  /** The blocks of two and of one. */
  lemma TwoBlocks(l: Loop, b: int)
    requires l.Node? && l.shape == Shape.Indexed([2, 1], [0, 32], 3) && l.elExtent == 8
    ensures Bytes(l, b) == Elem(l, b) + Elem(l, b + 8) + Elem(l, b + 32)
  {
    hide Elem;
    var s := l.shape;
    assert s.Count() == 2 && s.BlockSize(0) == 2 && s.BlockSize(1) == 1 && s.Offset(0) == 0 && s.Offset(1) == 32;
    OneBlock(l, b + 8);
    OneBlock(l, b + 32);
    assert b + 0 + 8 == b + 8 && Elems(l, b + 0, 2) == Elem(l, b + 0) + Elems(l, b + 0 + 8, 1);
    assert BlocksFrom(l, b, 2) == [];
    assert BlocksFrom(l, b, 1) == Elems(l, b + 32, 1) + [];
    assert Bytes(l, b) == Elems(l, b + 0, 2) + BlocksFrom(l, b, 1);
  }

  lemma OneBlock(l: Loop, b: int)
    ensures Elems(l, b, 1) == Elem(l, b)
  {
    assert Elems(l, b + l.Step(), 0) == [];
  }

  lemma StepsInstance(b: int)
    ensures Bytes(STEPS.child, b) == Run(b, 8) + Run(b + 8, 8) + Run(b + 32, 8)
  {
    hide Bytes, Elem, Run;
    TwoBlocks(STEPS.child, b);
    StepElem(b);
    StepElem(b + 8);
    StepElem(b + 32);
  }

  lemma StepsShape()
    ensures STEPS.WellFormed() && STEPS.Depth() < MAX_DATATYPE_DEPTH && STEPS.LeafSize() == 4 && Later(STEPS, 1, 1, 2)
    ensures ElemSize(STEPS.child) == 8 && LoopAt(STEPS, 1) == STEPS.child && ElementAt(STEPS, 1, 2) == 16
    ensures Distance(STEPS, 1, 1) == -8 && FirstEnd(STEPS, 1) == 16
  {
    StepElem(0);
    assert Sum([2, 1]) == 2 + Sum([1]) == 3;
    assert LoopAt(STEPS, 1) == LoopAt(STEPS.child, 0) == STEPS.child;
    var s := STEPS.child.shape;
    assert BlocksLeft(s, 2) == 0;
    assert BlocksLeft(s, 1) == 1 + BlocksLeft(s, 2);
    assert BlocksLeft(s, 0) == 2 + BlocksLeft(s, 1);
    assert Displaces(STEPS, 1, 1) && InBlockNo(s, 2, 1);
  }

  lemma StepsBytes()
    ensures |Bytes(STEPS, 0)| == 48 && Bytes(STEPS, 0)[..16] == Run(0, 16) && Bytes(STEPS, 0)[40] == 72
  {
    hide Bytes;
    StepsInstance(0);
    StepsInstance(40);
    TwoInstances(STEPS);
    RunAppend(0, 8, 8);
    assert Run(40 + 32, 8)[0] == 72;
  }

  lemma TwoInstances(l: Loop)
    requires l.Node? && l.shape == Contig(2) && l.elExtent == 40
    ensures Bytes(l, 0) == Bytes(l.child, 0) + Bytes(l.child, 40)
  {
    assert Elems(l, 40, 1) == Elem(l, 40) + [];
    assert Elems(l, 0, 2) == Elem(l, 0) + Elems(l, 40, 1);
    assert BlocksFrom(l, 0, 1) == [] && Bytes(l, 0) == Elems(l, 0 + 0, 2) + BlocksFrom(l, 0, 1);
  }

  lemma ShiftedRun(b: int, n: nat, d: int)
    ensures Shift(Run(b, n), d) == Run(b + d, n)
  {
  }

  lemma BlockOfTwo(d: int, e: int)
    ensures Block(d, 2, e) == [d, d + e] && Block(d, 1, e) == [d]
  {
    assert Block(d, 0, e) == [];
    assert Block(d, 1, e) == Block(d, 0, e) + [d + 0 * e];
    assert Block(d, 2, e) == Block(d, 1, e) + [d + 1 * e];
  }

  lemma CopiesOfTwo(bytes: seq<int>, x: int, y: int)
    ensures Copies(bytes, [x, y]) == Shift(bytes, x) + Shift(bytes, y)
  {
    assert [x, y] == [x] + [y];
    CopiesJoin(bytes, [x], [y]);
    CopiesOne(bytes, x);
    CopiesOne(bytes, y);
  }

  lemma Bounds(s: seq<int>, lo: int, hi: int)
    requires Bounded(s, lo, hi) && s != []
    ensures MinOf(s) == lo && MaxOf(s) == hi
  {
    MinIsLeast(s, lo);
    MaxIsGreatest(s, hi);
  }

  lemma IntOrigins(t: Mpi)
    requires t.Contiguous? && t.count == 2 && t.Valid()
    ensures Origins(t, 4) == [0, 4] && MinOf([0, 4]) == 0 && MaxOf([0, 4]) == 4
  {
    BlockOfTwo(0, 4);
    Bounds([0, 4], 0, 4);
  }

  /** Two integers. */
  lemma IntsMap(t: Mpi)
    requires t.Contiguous? && t.count == 2 && t.inner == Named(4)
    ensures t.Valid() && TypeMap(t) == Run(0, 8) && Lb(t) == 0 && Ub(t) == 8
  {
    hide Run, Shift, MinOf, MaxOf, Origins, Copies;
    IntOrigins(t);
    Unfolded(t);
    CopiesOfTwo(Run(0, 4), 0, 4);
    ShiftedRun(0, 4, 0);
    ShiftedRun(0, 4, 4);
    RunAppend(0, 4, 4);
  }

  lemma StepsOrigins(t: Mpi)
    requires t.Indexed? && t.lens == [2, 1] && t.disps == [0, 4] && t.Valid()
    ensures Origins(t, 8) == [0, 8, 32] && MinOf([0, 8, 32]) == 0 && MaxOf([0, 8, 32]) == 32
  {
    BlockOfTwo(0, 8);
    BlockOfTwo(32, 8);
    assert [2, 1][..1] == [2] && [0, 4][..1] == [0] && [2][..0] == [] && [0][..0] == [];
    assert Blocks([], [], 8, 8) == [];
    assert Blocks([2], [0], 8, 8) == Blocks([2][..0], [0][..0], 8, 8) + Block(0 * 8, 2, 8);
    assert Blocks([2, 1], [0, 4], 8, 8) == Blocks([2, 1][..1], [0, 4][..1], 8, 8) + Block(4 * 8, 1, 8);
    Bounds([0, 8, 32], 0, 32);
  }

  lemma StepsMap(t: Mpi)
    requires t.Indexed? && t.lens == [2, 1] && t.disps == [0, 4] && t.Valid()
    requires Lb(t.inner) == 0 && Ub(t.inner) == 8 && TypeMap(t.inner) == Run(0, 8)
    ensures Lb(t) == 0 && Ub(t) == 40 && TypeMap(t) == Run(0, 8) + Run(8, 8) + Run(32, 8)
  {
    hide Run, Shift, Lb, Ub, Origins, MinOf, MaxOf, TypeMap, Copies;
    StepsOrigins(t);
    Unfolded(t);
    ThreeCopies();
  }

  lemma ThreeCopies()
    ensures Copies(Run(0, 8), [0, 8, 32]) == Run(0, 8) + Run(8, 8) + Run(32, 8)
  {
    hide Run, Shift, Copies;
    assert [0, 8, 32] == [0, 8] + [32];
    CopiesJoin(Run(0, 8), [0, 8], [32]);
    CopiesOfTwo(Run(0, 8), 0, 8);
    CopiesOne(Run(0, 8), 32);
    ShiftedRun(0, 8, 0);
    ShiftedRun(0, 8, 8);
    ShiftedRun(0, 8, 32);
  }

  lemma ShiftThree(d: int)
    ensures Shift(Run(0, 8) + Run(8, 8) + Run(32, 8), d) == Run(d, 8) + Run(d + 8, 8) + Run(d + 32, 8)
  {
  }

  lemma TwoInstancesOf(t: Mpi)
    requires t.Valid() && Lb(t) == 0 && Ub(t) == 40 && TypeMap(t) == Run(0, 8) + Run(8, 8) + Run(32, 8)
    ensures Selects(STEPS, t, 2)
  {
    hide Lb, Ub, TypeMap, Bytes, Run, Shift, Copies;
    StepsInstance(0);
    StepsInstance(40);
    TwoInstances(STEPS);
    BlockOfTwo(0, 40);
    CopiesOfTwo(TypeMap(t), 0, 40);
    ShiftThree(0);
    ShiftThree(40);
  }

  lemma StepsSaid(t: Mpi)
    requires t.Valid() && Lb(t) == 0 && Ub(t) == 40 && TypeMap(t) == Run(0, 8) + Run(8, 8) + Run(32, 8)
    ensures Describes(Footprint(24, 0, 40, 0, 40, 40), t)
  {
    hide Lb, Ub, TypeMap;
    var m := TypeMap(t);
    assert m[0] == 0 && m[23] == 39;
  }

  /** The loop is that of two instances of the type, whose user buffer takes 80 bytes. */
  lemma StepsType()
    ensures STEPS_TYPE.Valid() && Selects(STEPS, STEPS_TYPE, 2)
    ensures Describes(Footprint(24, 0, 40, 0, 40, 40), STEPS_TYPE)
    ensures UserbufSize(Footprint(24, 0, 40, 0, 40, 40), 2) == 80
  {
    hide Lb, Ub, TypeMap, Selects, Describes, Run;
    IntsMap(STEPS_TYPE.inner);
    StepsMap(STEPS_TYPE);
    TwoInstancesOf(STEPS_TYPE);
    StepsSaid(STEPS_TYPE);
  }

  /** The second packet's first byte lies 8 bytes below the buffer. */
  lemma StepsWritten(mem: seq<byte>, offs: seq<int>, b: seq<byte>)
    requires |mem| == 160 && |b| == 8 && offs == Run(-8, 8) && Inside(offs, 80, 160)
    ensures Scatter(mem, 80, offs, b)[72] == b[0]
  {
    assert offs[0] == -8;
    ScatterDistinct(mem, 80, offs, b, 0);
  }

  /** The user buffer for two instances takes 80 bytes; with room for just that many per message, flow 1 begins at 80.
      Two packets of its message that have no byte in common: the second one starts over and goes 8 bytes too far
      down, into the window of flow 0, to a byte that flow 0 itself receives when it has the same type. */
  method LeavesWindow(host: array<byte>, a: Packet, b: Packet) returns (seg: Segment)
    requires host.Length == 160 && a.payload != host && b.payload != host
    requires a.off == 8 && a.payload.Length == 8 && b.off == 0 && b.payload.Length == 8
    modifies host
    ensures fresh(seg) && seg.root == STEPS && BufferOf(0, 1, 80) == 80 && !Contained(STEPS, 0, 80)
    ensures STEPS_TYPE.Valid() && Selects(STEPS, STEPS_TYPE, 2)
    ensures host[72] == b.payload[0] && 72 in Bytes(STEPS, 0)
  {
    hide Bytes, OneOff, Scatter, Later, ElementAt, FirstEnd, Contained, Selects, Describes, Inside, Aligned, Run, Due;
    hide Loop.WellFormed, Loop.Depth, Loop.LeafSize, Distance, LoopAt, ElemSize, Segment.StreamFor;
    StepsShape();
    StepsBytes();
    StepsAligned(a);
    StepsAligned(b);
    ghost var places, mem := Bytes(STEPS, 0), host[..];
    StepsInside(places);
    ghost var all;
    seg, all := FirstPacket(STEPS, host, 80, a, 1, 1, 2);
    StepsDrawn(all);
    mem := host[..];
    PayloadHandler(seg, host, 80, b, all);
    StepsWritten(mem, all[0..8], b.payload[..]);
    StepsLowest();
    StepsType();
    assert places[40] in places;
  }

  lemma StepsAligned(pkt: Packet)
    requires (pkt.off == 0 || pkt.off == 8) && pkt.payload.Length == 8
    ensures STEPS.LeafSize() >= 1 && Aligned(STEPS, pkt)
  {
    hide Bytes;
    StepsBytes();
  }

  lemma StepsInside(places: seq<int>)
    requires |places| >= 16 && places[..16] == Run(0, 16)
    ensures Inside(places[8..16], 80, 160)
  {
    assert forall k: nat | k < 8 :: places[8..16][k] == places[..16][8 + k];
  }

  lemma StepsDrawn(all: seq<int>)
    requires OneOff(STEPS, 1, 1, all)
    ensures |all| == 48 && all[0..8] == Run(-8, 8) && Inside(all[0..8], 80, 160)
  {
    hide Bytes;
    StepsBytes();
    StepsShape();
    OneOffParts(STEPS, 1, 1, all, 8, 16);
    assert all[0..8] == all[..8] && Bytes(STEPS, 0)[..8] == Bytes(STEPS, 0)[..16][..8];
  }

  lemma LeafLow(l: Loop)
    requires l == Leaf(Contig(2), 4, 4)
    ensures EnterFar(false, l, false) == BlocksFar(false, l, 0) == 0
  {
  }

  lemma BlocksLow(l: Loop)
    requires l.Node? && l.shape == Shape.Indexed([2, 1], [0, 32], 3) && l.elExtent == 8
    requires EnterFar(false, l.child, false) == BlocksFar(false, l.child, 0) == 0
    ensures EnterFar(false, l, false) == -8 && BlocksFar(false, l, 0) == 0
  {
    var s := l.shape;
    assert s.Count() == 2 && s.BlockSize(0) == 2 && s.BlockSize(1) == 1 && s.Offset(0) == 0 && s.Offset(1) == 32;
    assert SizeAway(l, 0) == 0 && SizeAway(l, 1) == -8;
    assert SizeFar(false, l, 1) == -8 && SizeFar(false, l, 0) == -8;
    assert RunFar(false, l, 1) == 0 && RunFar(false, l, 2) == 0;
    assert BlocksFar(false, l, 1) == 32;
  }

  lemma InstancesLow(l: Loop)
    requires l.Node? && l.shape == Contig(2) && l.elExtent == 40
    requires EnterFar(false, l.child, false) == -8 && BlocksFar(false, l.child, 0) == 0
    ensures EnterFar(false, l, true) == -8
  {
    assert RunFar(false, l, 1) == 0;
  }

  lemma StepsLowest()
    ensures Lowest(STEPS) == -8 && !Contained(STEPS, 0, 80)
  {
    hide Contained, EnterFar, BlocksFar, Loop.WellFormed, Loop.Depth, Loop.LeafSize, Later, ElemSize, LoopAt, ElementAt;
    hide Distance, FirstEnd;
    StepsShape();
    ContainedIff(STEPS, 0, 80);
    LeafLow(STEPS.child.child);
    BlocksLow(STEPS.child);
    InstancesLow(STEPS);
  }
}
