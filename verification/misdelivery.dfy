/** Delivery of every partition of a message in every order is right for resettable loops only: for every other loop
    that selects no byte twice there are three packets, with each byte of a message in exactly one of them, after
    which host memory is wrong. */
module Misdeliveries {
  import opened Dataloops
  import opened LeafBlocks
  import opened LevelSizes
  import opened Memory
  import opened SegmentStack
  import opened Displacements
  import opened Histories
  import opened M2m
  import opened Paths
  import opened SegmentOrder
  import opened Segments
  import opened Windows
  import opened NicHandler

  /* ---------- which loops are resettable ---------- */

  lemma {:induction false} UniformAt(root: Loop, j: nat, k: nat)
    requires j <= k < root.Depth() && Uniform(LoopAt(root, j))
    ensures Uniform(LoopAt(root, k))
    decreases k - j
  {
    if j < k {
      LoopAtStep(root, j);
      LoopAtStep(root, j + 1);
      UniformAt(root, j + 1, k);
    }
  }

  /** A loop is resettable if and only if no block displaces a level under the root. */
  lemma ResettableIff(root: Loop)
    ensures Resettable(root) <==> !exists k: nat, i: nat :: Displaces(root, k, i)
  {
    if Resettable(root) {
      forall k: nat, i: nat ensures !Displaces(root, k, i) {
        if Displaces(root, k, i) {
          LoopAtStep(root, 0);
          LoopAtStep(root, k);
          UniformAt(root, 1, k);
        }
      }
    } else {
      var k, i := NotResettable(root);
    }
  }

  /** Two instances of an indexed type with blocks of one and of two elements. */
  const PAIRS: Loop := Node(Contig(2), 12, 16, Node(Indexed([1, 2], [0, 8], 3), 4, 4, Leaf(Contig(1), 4, 4)))

  lemma PairElems(b: int, n: nat)
    requires n <= 2
    ensures Elems(PAIRS.child, b, n) == Run(b, 4 * n)
  {
    var l := PAIRS.child;
    assert forall c: int :: Elem(l, c) == Bytes(l.child, c) == Run(c, 4) by {
      forall c: int ensures Bytes(l.child, c) == Run(c, 4) {
        LeafElems(l.child, c, 1);
        assert BlocksFrom(l.child, c, 1) == [];
      }
    }
    if n == 2 {
      assert Elems(l, b + 4, 1) == Run(b + 4, 4);
      RunAppend(b, 4, 4);
    }
  }

  lemma PairBytes(b: int)
    ensures Bytes(PAIRS.child, b) == Run(b, 4) + Run(b + 8, 8)
  {
    var l := PAIRS.child;
    PairElems(b, 1);
    PairElems(b + 8, 2);
    assert BlocksFrom(l, b, 2) == [];
  }

  lemma PairShape()
    ensures PAIRS.WellFormed() && PAIRS.Depth() < MAX_DATATYPE_DEPTH && Displaces(PAIRS, 1, 1)
  {
    assert Sum([1, 2]) == 1 + Sum([2]) == 3;
    assert LoopAt(PAIRS, 1) == LoopAt(PAIRS.child, 0) == PAIRS.child;
  }

  lemma PairsBytes()
    ensures Bytes(PAIRS, 0) == Run(0, 4) + Run(8, 8) + (Run(16, 4) + Run(24, 8))
  {
    hide Bytes, Run;
    PairBytes(0);
    PairBytes(16);
    PairsElems(PAIRS);
  }

  lemma PairsElems(l: Loop)
    requires l.Node? && l.shape == Contig(2) && l.elExtent == 16
    ensures Bytes(l, 0) == Bytes(l.child, 0) + Bytes(l.child, 16)
  {
    assert Elems(l, 16, 1) == Elem(l, 16) + [];
    assert Elems(l, 0, 2) == Elem(l, 0) + Elems(l, 16, 1);
    assert BlocksFrom(l, 0, 1) == [] && Bytes(l, 0) == Elems(l, 0 + 0, 2) + BlocksFrom(l, 0, 1);
  }

  /** There are loops that are not resettable, also among those that select no byte twice. */
  lemma NotAllResettable()
    ensures PAIRS.WellFormed() && PAIRS.Depth() < MAX_DATATYPE_DEPTH && Distinct(Bytes(PAIRS, 0))
    ensures Displaces(PAIRS, 1, 1) && !Resettable(PAIRS)
  {
    hide Distinct, Resettable, Displaces, Bytes, Loop.WellFormed, Loop.Depth;
    PairShape();
    PairsBytes();
    PairsDistinct();
    ResettableIff(PAIRS);
  }

  lemma PairsDistinct()
    ensures Distinct(Run(0, 4) + Run(8, 8) + (Run(16, 4) + Run(24, 8)))
  {
    var s := Run(0, 4) + Run(8, 8) + (Run(16, 4) + Run(24, 8));
    assert forall k: nat | k < |s| ::
        s[k] == if k < 4 then k else if k < 12 then k + 4 else if k < 16 then k + 4 else k + 8;
  }

  /* ---------- one left-over block size ---------- */

  /** The bytes of one element. */
  function ElemBytes(l: Loop): nat {
    if l.Leaf? then l.elSize else BlocksLeft(l.child.shape, 0) * ElemBytes(l.child)
  }

  lemma {:induction false} ElemBytesIs(l: Loop)
    ensures ElemBytes(l) == ElemSize(l)
    decreases l
  {
    if l.Node? {
      ElemBytesIs(l.child);
      BlocksSize(l.child, 0, 0);
      assert Elem(l, 0) == Bytes(l.child, 0);
    } else {
      assert Elem(l, 0) == Run(0, l.elSize);
    }
  }

  /** Only level k carries a size that need not be that of its first block. */
  ghost predicate OnlyLevel(l: Loop, below: seq<Elm>, k: nat)
    decreases l
  {
    below != [] && l.Node? &&
    if k == 0 then Fresh(l.child, below[1..])
    else below[0].origBlock == l.shape.BlockSize(0) && OnlyLevel(l.child, below[1..], k - 1)
  }

  lemma {:induction false} DriftFresh(l: Loop, below: seq<Elm>, q: nat)
    requires Fresh(l, below)
    ensures Drift(l, below, q) == 0
    decreases l
  {
    if l.Node? && below != [] && q < ElemSize(l) {
      DriftFresh(l.child, below[1..], q);
    }
  }

  /** The first block of that level is displaced, and nothing else. */
  lemma {:induction false} DriftOne(l: Loop, below: seq<Elm>, k: nat, q: nat)
    requires l.WellFormed() && k < l.Depth() && k < |below| && OnlyLevel(l, below, k)
    ensures LoopAt(l, k).Node?
    ensures var m := LoopAt(l, k);
      Drift(l, below, q) == if q < m.shape.BlockSize(0) * ElemSize(m)
                            then (below[k].origBlock - m.shape.BlockSize(0)) * m.elExtent else 0
    decreases l
  {
    ChildSize(l);
    if k == 0 {
      DriftFresh(l.child, below[1..], q);
    } else {
      DriftOne(l.child, below[1..], k - 1, q);
      SizeBelow(l.child, k - 1);
    }
  }

  lemma {:induction false} SizeBelow(l: Loop, k: nat)
    requires l.WellFormed() && k < l.Depth() && LoopAt(l, k).Node?
    ensures LoopAt(l, k).shape.BlockSize(0) * ElemSize(LoopAt(l, k)) <= Size(l)
    decreases l
  {
    ChildSize(l);
    if k > 0 {
      SizeBelow(l.child, k - 1);
      MulLe(1, BlocksLeft(l.shape, 0), ElemSize(l));
    }
  }

  /** Element n of level k, and the first one of every other level. */
  function OneElement(l: Loop, k: nat, n: nat): (ns: seq<nat>)
    ensures |ns| == l.Depth()
    decreases l
  {
    [if k == 0 then n else 0]
    + if l.Leaf? then [] else if k == 0 then OneElement(l.child, 0, 0) else OneElement(l.child, k - 1, n)
  }

  lemma {:induction false} OneElementBytes(l: Loop, k: nat, n: nat)
    requires l.WellFormed() && k < l.Depth() && (LoopAt(l, k).Node? || n == 0)
    requires n == 0 || n < BlocksLeft(LoopAt(l, k).shape, 0)
    ensures IsPath(l, OneElement(l, k, n))
    ensures PathBytes(l, OneElement(l, k, n)) == if n == 0 then 0 else n * ElemSize(LoopAt(l, k))
    decreases l
  {
    var ns := OneElement(l, k, n);
    if l.Node? {
      ChildSize(l);
      assert BlocksLeft(l.shape, 0) >= 1;
      assert 0 * ElemSize(l) == 0;
      if k == 0 {
        assert ns[1..] == OneElement(l.child, 0, 0);
        OneElementBytes(l.child, 0, 0);
      } else {
        assert ns[1..] == OneElement(l.child, k - 1, n);
        OneElementBytes(l.child, k - 1, n);
      }
    }
  }

  lemma {:induction false} OneElementAt(l: Loop, k: nat, n: nat, j: nat)
    requires j < l.Depth()
    ensures OneElement(l, k, n)[j] == if j == k then n else 0
    decreases l
  {
    if j > 0 {
      if k == 0 {
        OneElementAt(l.child, 0, 0, j - 1);
      } else {
        OneElementAt(l.child, k - 1, n, j - 1);
      }
    }
  }

  lemma {:induction false} FreshAt(root: Loop, s: seq<Elm>, j: nat)
    requires Levels(root, s) && j < root.Depth()
    requires forall m: nat | j <= m < root.Depth() && LoopAt(root, m).Node? ::
               s[m].origBlock == LoopAt(root, m).shape.BlockSize(0)
    ensures Fresh(LoopAt(root, j), s[j..])
    decreases root.Depth() - j
  {
    LoopAtStep(root, j);
    if LoopAt(root, j).Node? {
      FreshAt(root, s, j + 1);
      assert s[j..][1..] == s[j + 1..];
    }
  }

  lemma {:induction false} OnlyAt(root: Loop, s: seq<Elm>, j: nat, k: nat)
    requires Levels(root, s) && j <= k < root.Depth() && LoopAt(root, k).Node?
    requires forall m: nat | j <= m < root.Depth() && m != k && LoopAt(root, m).Node? ::
               s[m].origBlock == LoopAt(root, m).shape.BlockSize(0)
    ensures OnlyLevel(LoopAt(root, j), s[j..], k - j)
    decreases k - j
  {
    LoopAtStep(root, j);
    LoopAtStep(root, k);
    if j < k {
      OnlyAt(root, s, j + 1, k);
    } else {
      FreshAt(root, s, k + 1);
    }
    assert s[j..][1..] == s[j + 1..];
  }

  /** How far the first block of level k goes if block i has its size left over. */
  function Distance(root: Loop, k: nat, i: nat): int
    requires k < root.Depth()
  {
    (LoopAt(root, k).shape.BlockSize(i) - LoopAt(root, k).shape.BlockSize(0)) * LoopAt(root, k).elExtent
  }

  /** Where the first block of level k ends in the stream. */
  ghost function FirstEnd(root: Loop, k: nat): nat
    requires k < root.Depth()
  {
    LoopAt(root, k).shape.BlockSize(0) * ElemSize(LoopAt(root, k))
  }

  /** The stream after a reset by a segment that stands in block i of the first instance of level k. */
  ghost predicate OneOff(root: Loop, k: nat, i: nat, all: seq<int>)
    requires k < root.Depth()
  {
    && |all| == |Bytes(root, 0)| == Size(root)
    && forall q: nat | q < |all| ::
         all[q] == Bytes(root, 0)[q] + if q < FirstEnd(root, k) then Distance(root, k, i) else 0
  }

  lemma SizesThere(seg: Segment, k: nat, n: nat, i: nat)
    requires Displaces(seg.root, k, i) && InBlockNo(LoopAt(seg.root, k).shape, n, i)
    requires StandsOn(seg, OneElement(seg.root, k, n))
    ensures seg.root.WellFormed() && seg.root.Depth() <= seg.stackelm.Length && Levels(seg.root, seg.stackelm[..])
    ensures seg.stackelm[k].origBlock == LoopAt(seg.root, k).shape.BlockSize(i)
    ensures forall j: nat | j < seg.root.Depth() && j != k && LoopAt(seg.root, j).Node? ::
              seg.stackelm[j].origBlock == LoopAt(seg.root, j).shape.BlockSize(0)
  {
    hide Segment.Valid, Segment.AtLeaf, PathBytes, Rest, Orderly;
    var root, s, ns := seg.root, seg.stackelm[..], OneElement(seg.root, k, n);
    StackOnPath(seg, ns);
    forall j: nat | j < root.Depth() && LoopAt(root, j).Node?
      ensures s[j].origBlock == LoopAt(root, j).shape.BlockSize(if j == k then i else 0)
    {
      LoopAtStep(root, j);
      OneElementAt(root, k, n, j);
      assert LoopAt(root, j).shape.BlockSize(0) >= 1;
      assert InBlockNo(LoopAt(root, j).shape, 0, 0);
      SizeOnPath(root, s, seg.curSp, ns, j, if j == k then i else 0);
    }
  }

  /** One byte of the stream after a reset. */
  lemma OneOffAt(root: Loop, s: seq<Elm>, k: nat, i: nat, q: nat)
    requires root.WellFormed() && k < root.Depth() && k < |s| && OnlyLevel(root, s, k) && q < Size(root)
    requires LoopAt(root, k).Node? ==> s[k].origBlock == LoopAt(root, k).shape.BlockSize(i)
    ensures |Entering(root, 0, s)| == |Bytes(root, 0)| == Size(root)
    ensures Entering(root, 0, s)[q] == Bytes(root, 0)[q] + if q < FirstEnd(root, k) then Distance(root, k, i) else 0
  {
    hide Entering, Bytes, Drift, OnlyLevel;
    EnteringAt(root, 0, s, q);
    DriftOne(root, s, k, q);
  }

  lemma OneOffStream(root: Loop, s: seq<Elm>, k: nat, i: nat)
    requires root.WellFormed() && k < root.Depth() && k < |s| && OnlyLevel(root, s, k)
    requires LoopAt(root, k).Node? ==> s[k].origBlock == LoopAt(root, k).shape.BlockSize(i)
    ensures OneOff(root, k, i, Entering(root, 0, s))
  {
    hide Entering, OnlyLevel, FirstEnd, Distance, Bytes;
    forall q: nat | q < Size(root)
      ensures |Entering(root, 0, s)| == |Bytes(root, 0)| == Size(root)
      ensures Entering(root, 0, s)[q] == Bytes(root, 0)[q] + if q < FirstEnd(root, k) then Distance(root, k, i) else 0
    {
      OneOffAt(root, s, k, i, q);
    }
    Nonempty(root, 0);
    OneOffAt(root, s, k, i, 0);
  }

  /** Starting over, only level k has another size than that of its first block. */
  lemma OnlyThere(root: Loop, s: seq<Elm>, k: nat)
    requires Levels(root, s) && k < root.Depth() && LoopAt(root, k).Node?
    requires forall j: nat | j < root.Depth() && j != k && LoopAt(root, j).Node? ::
               s[j].origBlock == LoopAt(root, j).shape.BlockSize(0)
    ensures |s| >= 1 && OnlyLevel(root, s[0 := Started(s[0])], k)
  {
    hide OnlyLevel, Loaded, Started, Fresh;
    StartedLevels(root, s);
    var t := s[0 := Started(s[0])];
    assert LoopAt(root, 0) == root;
    assert forall j: nat | 0 < j < root.Depth() :: t[j] == s[j];
    OnlyAt(root, t, 0, k);
    assert t[0..] == t;
  }

  lemma StreamThere(seg: Segment, k: nat, n: nat, i: nat)
    requires Displaces(seg.root, k, i) && InBlockNo(LoopAt(seg.root, k).shape, n, i)
    requires StandsOn(seg, OneElement(seg.root, k, n)) && seg.streamOff > 0
    ensures seg.stackelm.Length >= 1 && OneOff(seg.root, k, i, seg.StreamFor(0))
  {
    hide Segment.Valid, Segment.AtLeaf, PathBytes, IsPath, Entering, OnlyLevel, OneOff, InBlockNo, Levels;
    SizesThere(seg, k, n, i);
    var s := seg.stackelm[..];
    OnlyThere(seg.root, s, k);
    var t := s[0 := Started(s[0])];
    assert t == [Started(seg.stackelm[0])] + seg.stackelm[1..];
    assert t[k] == s[k];
    OneOffStream(seg.root, t, k, i);
  }

  lemma StartedLevels(root: Loop, s: seq<Elm>)
    requires Levels(root, s)
    ensures |s| >= 1 && Levels(root, s[0 := Started(s[0])]) && s[0].loop == root
    ensures Started(s[0]).origBlock == root.shape.BlockSize(0)
  {
    assert LoopAt(root, 0) == root && Loaded(s[0], root) && root.shape.BlockSize(0) >= 1;
    var t := s[0 := Started(s[0])];
    assert HasBlockSize(root.shape, root.shape.BlockSize(0));
    forall k: nat | k < root.Depth() ensures Loaded(t[k], LoopAt(root, k)) {
      assert Loaded(s[k], LoopAt(root, k));
    }
  }

  /* ---------- the first packet ---------- */

  lemma FromStart(seg: Segment, first: nat)
    requires seg.Valid() && seg.Parked() && seg.Exact() && seg.streamOff == 0
    ensures Due(seg, first, Bytes(seg.root, 0)) && seg.OrderlyFor(first) == seg.orderly
  {
    DueNow(seg, first);
  }

  lemma GoesOn(seg: Segment, all: seq<int>, last: nat, first: nat)
    requires After(seg, all, last) && last <= first && |all| == Size(seg.root)
    ensures Due(seg, first, all)
  {
  }

  lemma AtLeastLeaf(l: Loop)
    requires l.Node? && l.WellFormed()
    ensures l.shape.BlockSize(0) * ElemSize(l) >= l.LeafSize() >= 1
  {
    ChildSize(l);
    ElementsWhole(l.child);
    if Size(l.child) < l.LeafSize() {
      DivIs(Size(l.child), l.LeafSize(), 0, Size(l.child));
    }
  }

  /** Element n of level k, in a later block than the first. */
  ghost predicate Later(root: Loop, k: nat, i: nat, n: nat) {
    Displaces(root, k, i) && InBlockNo(LoopAt(root, k).shape, n, i)
  }

  /** Where that element of the first instance begins in the stream. */
  ghost function ElementAt(root: Loop, k: nat, n: nat): nat
    requires k < root.Depth()
  {
    n * ElemSize(LoopAt(root, k))
  }

  lemma LaterInside(root: Loop, k: nat, i: nat, n: nat)
    requires root.WellFormed() && Later(root, k, i, n)
    ensures k < root.Depth() && n >= 1 && IsPath(root, OneElement(root, k, n))
    ensures PathBytes(root, OneElement(root, k, n)) == ElementAt(root, k, n)
    ensures 1 <= root.LeafSize() <= FirstEnd(root, k) <= ElementAt(root, k, n) < Size(root)
    ensures ElementAt(root, k, n) % root.LeafSize() == 0
  {
    var l := LoopAt(root, k);
    LoopAtStep(root, k);
    ChildSize(l);
    LeftMonotone(l.shape, 1, i);
    MulLe(l.shape.BlockSize(0), n, ElemSize(l));
    OneElementBytes(root, k, n);
    PathInside(root, OneElement(root, k, n));
    AtLeastLeaf(l);
  }

  lemma Standing(seg: Segment, k: nat, n: nat, i: nat)
    requires seg.root.WellFormed() && Later(seg.root, k, i, n)
    requires After(seg, Bytes(seg.root, 0), ElementAt(seg.root, k, n)) && seg.orderly
    ensures StandsOn(seg, OneElement(seg.root, k, n)) && seg.streamOff > 0
  {
    LaterInside(seg.root, k, i, n);
  }

  /** What such a segment draws on when it starts over. */
  lemma StartsOver(seg: Segment, k: nat, n: nat, i: nat) returns (all: seq<int>)
    requires seg.root.WellFormed() && Later(seg.root, k, i, n)
    requires After(seg, Bytes(seg.root, 0), ElementAt(seg.root, k, n)) && seg.orderly
    ensures k < seg.root.Depth() && Due(seg, 0, all) && OneOff(seg.root, k, i, all)
  {
    hide Segment.StreamFor, OneOff, ElementAt;
    Standing(seg, k, n, i);
    StreamThere(seg, k, n, i);
    DueNow(seg, 0);
    all := seg.StreamFor(0);
  }

  /** A segment that has not run takes a packet that ends at element n of level k. */
  method FirstPacket(root: Loop, host: array<byte>, userbuf: int, a: Packet, ghost k: nat, ghost i: nat, ghost n: nat)
    returns (seg: Segment, ghost all: seq<int>)
    requires root.WellFormed() && root.Depth() < MAX_DATATYPE_DEPTH && root.LeafSize() >= 1 && Later(root, k, i, n)
    requires Aligned(root, a) && a.payload != host && a.payload.Length > 0
    requires a.off + a.payload.Length == ElementAt(root, k, n)
    requires Inside(Bytes(root, 0)[a.off..a.off + a.payload.Length], userbuf, host.Length)
    modifies host
    ensures fresh(seg) && fresh(seg.stackelm) && seg.root == root && Due(seg, 0, all) && OneOff(root, k, i, all)
    ensures host[..] == Scatter(old(host[..]), userbuf, Bytes(root, 0)[a.off..a.off + a.payload.Length], a.payload[..])
  {
    hide Bytes, Inside, Scatter, Segment.Valid, SegmentStack.Entering, Segment.StreamFor, OneOff, Later, ElementAt;
    seg := new Segment(0, root);
    FromStart(seg, a.off);
    PayloadHandler(seg, host, userbuf, a, Bytes(root, 0));
    all := StartsOver(seg, k, n, i);
  }

  /** Up to level k's first later block the bytes of such a stream are displaced, from there on they are not. */
  lemma OneOffParts(root: Loop, k: nat, i: nat, all: seq<int>, c: nat, p: nat)
    requires k < root.Depth() && OneOff(root, k, i, all) && c <= FirstEnd(root, k) <= p <= Size(root)
    ensures |all| == |Bytes(root, 0)| == Size(root)
    ensures c <= p && all[..c] == Shift(Bytes(root, 0)[..c], Distance(root, k, i)) && all[p..] == Bytes(root, 0)[p..]
  {
    hide FirstEnd, Distance, Bytes;
  }

  /* ---------- the whole delivery ---------- */

  /** Where the first byte of the stream lies. */
  function FirstByte(l: Loop): int {
    l.shape.Offset(0) + if l.Leaf? then 0 else FirstByte(l.child)
  }

  /** The first element of the leaf is a run from there. */
  lemma {:induction false} FirstRun(l: Loop, b: int)
    requires l.WellFormed()
    ensures 1 <= l.LeafSize() <= |Bytes(l, b)| && Bytes(l, b)[..l.LeafSize()] == Run(b + FirstByte(l), l.LeafSize())
    decreases l
  {
    BytesFirst(l, b);
    if l.Node? {
      FirstRun(l.child, b + l.shape.Offset(0));
    }
  }

  /** The element of level k before which the first packet ends: the first one of block i, or the second one if that
      would leave nothing between the first element of the leaf and it. */
  function Cut(root: Loop, k: nat, i: nat): nat
    requires k < root.Depth()
  {
    var l := LoopAt(root, k);
    LeftMonotone(l.shape, 0, i);
    var n: nat := BlocksLeft(l.shape, 0) - BlocksLeft(l.shape, i);
    if n * ElemBytes(l) == root.LeafSize() then n + 1 else n
  }

  lemma CutIs(root: Loop, k: nat, i: nat)
    requires root.WellFormed() && Displaces(root, k, i)
    ensures Later(root, k, i, Cut(root, k, i))
    ensures ElementAt(root, k, Cut(root, k, i)) == Cut(root, k, i) * ElemBytes(LoopAt(root, k)) > root.LeafSize()
  {
    var l := LoopAt(root, k);
    var n, n', E := BlocksLeft(l.shape, 0) - BlocksLeft(l.shape, i), Cut(root, k, i), ElemSize(l);
    LoopAtStep(root, k);
    ElemBytesIs(l);
    LeftMonotone(l.shape, 0, i);
    assert l.shape.BlockSize(i) >= 1;
    assert Later(root, k, i, n);
    LaterInside(root, k, i, n);
    if n * E == root.LeafSize() {
      ChildSize(l);
      LeftMonotone(l.shape, 1, i);
      SmallElements(l, n);
      Times(n, 1, E);
    }
  }

  /** Elements of nodes are at least as long as those of the leaf. */
  lemma SmallElements(l: Loop, n: nat)
    requires l.Node? && l.WellFormed() && n >= 1 && n * ElemSize(l) == l.LeafSize()
    ensures n == 1
  {
    ChildSize(l);
    ElementsWhole(l.child);
    if Size(l.child) < l.LeafSize() {
      DivIs(Size(l.child), l.LeafSize(), 0, Size(l.child));
    }
    if n >= 2 {
      MulLe(2, n, ElemSize(l));
    }
  }

  method MakePacket(msg: seq<byte>, off: nat, end: nat) returns (pkt: Packet)
    requires off <= end <= |msg|
    ensures pkt.off == off && fresh(pkt.payload) && pkt.payload.Length == end - off
    ensures pkt.payload[..] == msg[off..end]
  {
    var payload := new byte[end - off](i requires 0 <= i < end - off => msg[off + i]);
    assert payload[..] == msg[off..end];
    pkt := Packet(off, payload);
  }

  /** A byte of the first element that the displaced run does not reach. */
  function Missed(x: int, c: nat, d: int): int {
    if d > 0 then x else x + c - 1
  }

  /** None of the three packets writes that byte. */
  lemma NotWritten(all: seq<int>, places: seq<int>, c: nat, p: nat, x: int, d: int)
    requires 1 <= c < p <= |places| == |all| && Distinct(places) && places[..c] == Run(x, c) && d != 0
    requires all[..c] == Shift(places[..c], d) && all[p..] == places[p..]
    ensures Missed(x, c, d) in places
    ensures Missed(x, c, d) !in places[c..p] && Missed(x, c, d) !in all[..c] && Missed(x, c, d) !in all[p..]
  {
    var q: nat := if d > 0 then 0 else c - 1;
    assert places[q] == places[..c][q] == Missed(x, c, d);
    assert forall j: nat | j < c :: all[..c][j] == x + j + d;
    assert forall j: nat | j < |places| - p :: all[p..][j] == places[p + j];
  }

  /** What is not written stays. */
  lemma Kept(mem: seq<byte>, userbuf: int, offs: seq<int>, vals: seq<byte>, y: int)
    requires |offs| == |vals| && Inside(offs, userbuf, |mem|) && 0 <= userbuf + y < |mem| && y !in offs
    ensures Scatter(mem, userbuf, offs, vals)[userbuf + y] == mem[userbuf + y]
  {
    hide Scatter, Inside;
    ScatterAt(mem, userbuf, offs, vals, userbuf + y);
  }

  lemma ShouldBe(mem: seq<byte>, userbuf: int, places: seq<int>, msg: seq<byte>, c: nat, x: int, d: int, mark: byte)
    requires 1 <= c <= |places| == |msg| && Distinct(places) && places[..c] == Run(x, c)
    requires Inside(places, userbuf, |mem|) && forall q: nat | q < |msg| :: msg[q] == mark
    ensures 0 <= userbuf + Missed(x, c, d) < |mem|
    ensures Scatter(mem, userbuf, places, msg)[userbuf + Missed(x, c, d)] == mark
  {
    var q: nat := if d > 0 then 0 else c - 1;
    assert places[q] == places[..c][q] == Missed(x, c, d);
    ScatterDistinct(mem, userbuf, places, msg, q);
  }

  /** Each of the n message bytes is in exactly one packet. */
  ghost predicate Partition(pkts: seq<Packet>, n: nat) {
    && (forall q: nat | q < n :: Carried(pkts, n)[q])
    && (forall a: nat, b: nat | a < b < |pkts| ::
          pkts[a].off + pkts[a].payload.Length <= pkts[b].off || pkts[b].off + pkts[b].payload.Length <= pkts[a].off)
  }

  /** The message in three parts: from c to p, up to c, and from p on. */
  ghost predicate ThreeParts(root: Loop, pkts: seq<Packet>, msg: seq<byte>, c: nat, p: nat, host: array<byte>)
    reads set pkt | pkt in pkts :: pkt.payload
  {
    && |pkts| == 3 && 0 < c < p < |msg| == Size(root) && root.LeafSize() >= 1
    && (forall pkt | pkt in pkts :: Aligned(root, pkt) && pkt.payload != host)
    && pkts[0].off == c && pkts[0].payload[..] == msg[c..p]
    && pkts[1].off == 0 && pkts[1].payload[..] == msg[..c]
    && pkts[2].off == p && pkts[2].payload[..] == msg[p..]
  }

  lemma AllCarried(pkts: seq<Packet>, n: nat, c: nat, p: nat)
    requires |pkts| == 3 && c <= p <= n && pkts[0].off == c && pkts[0].payload.Length == p - c
    requires pkts[1].off == 0 && pkts[1].payload.Length == c && pkts[2].off == p && pkts[2].payload.Length == n - p
    ensures Partition(pkts, n)
  {
    assert pkts[..2][..1] == pkts[..1] && pkts[..1][..0] == [];
    var one, two := Carried(pkts[..1], n), Carried(pkts[..2], n);
    assert forall q: nat | c <= q < p :: one[q];
    assert forall q: nat | q < p :: two[q];
  }

  lemma PartsFit(root: Loop, pkts: seq<Packet>, msg: seq<byte>, c: nat, p: nat, host: array<byte>)
    requires ThreeParts(root, pkts, msg, c, p, host)
    ensures |msg| == Size(root) && Carries(root, pkts, msg, host) && Partition(pkts, |msg|)
  {
    hide Partition, Aligned;
    assert pkts[0].payload.Length == p - c && pkts[1].payload.Length == c && pkts[2].payload.Length == |msg| - p;
    AllCarried(pkts, |msg|, c, p);
  }

  lemma WholeRest(a: nat, b: nat, d: nat)
    requires d >= 1 && b <= a && a % d == 0 && b % d == 0
    ensures (a - b) % d == 0
  {
    var m, n := a / d, b / d;
    assert a == m * d && b == n * d;
    Times(m - n, n, d);
    DivIs(a - b, d, m - n, 0);
  }

  method MakeParts(root: Loop, msg: seq<byte>, c: nat, p: nat, host: array<byte>) returns (pkts: seq<Packet>)
    requires root.WellFormed() && root.LeafSize() >= 1 && 0 < c < p < |msg| == Size(root)
    requires c % root.LeafSize() == 0 && p % root.LeafSize() == 0
    ensures ThreeParts(root, pkts, msg, c, p, host)
  {
    ElementsWhole(root);
    WholeRest(p, c, root.LeafSize());
    WholeRest(|msg|, p, root.LeafSize());
    var first := MakePacket(msg, c, p);
    var second := MakePacket(msg, 0, c);
    var third := MakePacket(msg, p, |msg|);
    pkts := [first, second, third];
  }

  /** A run of c bytes from x on, in memory. */
  lemma RunInside(x: int, c: nat, d: int, userbuf: int, n: nat)
    requires 1 <= c && Inside(Run(x, c), userbuf, n)
    ensures 0 <= userbuf + Missed(x, c, d) < n
    ensures Inside(Shift(Run(x, c), d), userbuf, n) <==> 0 <= userbuf + x + d && userbuf + x + d + c <= n
  {
    assert Run(x, c)[0] == x && Run(x, c)[c - 1] == x + c - 1;
    assert Shift(Run(x, c), d)[0] == x + d && Shift(Run(x, c), d)[c - 1] == x + c - 1 + d;
  }

  /** The second and the third packet. */
  method RestOfMessage(seg: Segment, host: array<byte>, userbuf: int, b: Packet, c: Packet, ghost all: seq<int>,
                       ghost places: seq<int>)
    requires seg.root.LeafSize() >= 1 && Aligned(seg.root, b) && Aligned(seg.root, c) && Due(seg, b.off, all)
    requires b.payload != host && c.payload != host && b.payload.Length > 0
    requires b.off + b.payload.Length <= c.off && c.off + c.payload.Length == |all| == |places|
    requires all[c.off..] == places[c.off..] && Inside(places, userbuf, host.Length)
    requires Inside(all[b.off..b.off + b.payload.Length], userbuf, host.Length)
    modifies seg, seg.stackelm, host
    ensures Inside(all[c.off..], userbuf, host.Length)
    ensures host[..] == Scatter(Scatter(old(host[..]), userbuf, all[b.off..b.off + b.payload.Length], b.payload[..]),
                                userbuf, all[c.off..], c.payload[..])
  {
    hide Inside, Scatter, Segment.Valid, Segment.StreamFor;
    PayloadHandler(seg, host, userbuf, b, all);
    GoesOn(seg, all, b.off + b.payload.Length, c.off);
    InsideSlice(places, userbuf, host.Length, c.off, |all|);
    assert all[c.off..c.off + c.payload.Length] == all[c.off..];
    assert places[c.off..|all|] == places[c.off..];
    PayloadHandler(seg, host, userbuf, c, all);
  }

  lemma MessageParts(root: Loop, k: nat, i: nat) returns (c: nat, p: nat, x: int, d: int)
    requires root.WellFormed() && Displaces(root, k, i)
    ensures c == root.LeafSize() && p == Cut(root, k, i) * ElemBytes(LoopAt(root, k))
    ensures p == ElementAt(root, k, Cut(root, k, i)) && Later(root, k, i, Cut(root, k, i))
    ensures 1 <= c <= FirstEnd(root, k) <= p < |Bytes(root, 0)| == Size(root) && c < p
    ensures c % root.LeafSize() == 0 && p % root.LeafSize() == 0
    ensures Size(root) == BlocksLeft(root.shape, 0) * ElemBytes(root)
    ensures x == FirstByte(root) && d == Distance(root, k, i) != 0 && Bytes(root, 0)[..c] == Run(x, c)
  {
    c, p, x, d := root.LeafSize(), Cut(root, k, i) * ElemBytes(LoopAt(root, k)), FirstByte(root), Distance(root, k, i);
    CutIs(root, k, i);
    LaterInside(root, k, i, Cut(root, k, i));
    FirstRun(root, 0);
    BlocksSize(root, 0, 0);
    ElemBytesIs(root);
    NonzeroProduct(LoopAt(root, k).shape.BlockSize(i) - LoopAt(root, k).shape.BlockSize(0), LoopAt(root, k).elExtent);
  }

  lemma DisplacesAt(root: Loop, k: nat, i: nat)
    requires Displaces(root, k, i)
    ensures k < root.Depth()
  {
  }

  lemma NonzeroProduct(a: int, b: int)
    requires a != 0 && b != 0
    ensures a * b != 0
  {
  }

  /** A message cut into three packets, each byte of it in exactly one of them: up to a later block of level k but
      for the first element, then the first element, then the rest. The second packet makes the segment start over,
      and goes to another place: unless that lies outside host memory, host memory is not as after an unpack of the
      message, whatever it held before. */
  method WrongDelivery(root: Loop, k: nat, i: nat, host: array<byte>, userbuf: int)
    returns (seg: Segment, pkts: seq<Packet>, msg: seq<byte>, outside: bool, ghost all: seq<int>)
    requires root.WellFormed() && root.Depth() < MAX_DATATYPE_DEPTH && Displaces(root, k, i)
    requires Distinct(Bytes(root, 0)) && Inside(Bytes(root, 0), userbuf, host.Length)
    modifies host
    ensures fresh(seg) && seg.root == root && root.LeafSize() >= 1
    ensures |msg| == Size(root) && Carries(root, pkts, msg, host) && Partition(pkts, |msg|)
    ensures outside ==>
              && |pkts| == 3 && Due(seg, pkts[1].off, all) && |all| == |msg|
              && pkts[1].off + pkts[1].payload.Length <= |all|
              && !Inside(all[pkts[1].off..pkts[1].off + pkts[1].payload.Length], userbuf, host.Length)
    ensures !outside ==> host[..] != Scatter(old(host[..]), userbuf, Bytes(root, 0), msg)
  {
    hide Bytes, Inside, Scatter, Distinct, Displaces, Segment.Valid, Segment.StreamFor, OneOff, Later, ElementAt;
    hide FirstEnd, NicHandler.Carries, Partition, ElemBytes, After, Carried, Run, Shift, Missed, FirstByte, Distance;
    hide LoopAt, BlocksLeft, Cut, Loop.WellFormed, Loop.Depth;
    ghost var mem0, places := host[..], Bytes(root, 0);
    DisplacesAt(root, k, i);
    var c, p, size := root.LeafSize(), Cut(root, k, i) * ElemBytes(LoopAt(root, k)),
                      BlocksLeft(root.shape, 0) * ElemBytes(root);
    var x, d := FirstByte(root), Distance(root, k, i);
    ghost var _, _, _, _ := MessageParts(root, k, i);
    InsideSlice(places, userbuf, host.Length, 0, c);
    InsideSlice(places, userbuf, host.Length, c, p);
    assert places[0..c] == places[..c];
    RunInside(x, c, d, userbuf, host.Length);
    var mark: byte := if host[userbuf + Missed(x, c, d)] == 0 then 1 else 0;
    msg := seq(size, _ => mark);
    pkts := MakeParts(root, msg, c, p, host);
    PartsFit(root, pkts, msg, c, p, host);
    seg, all := FirstPacket(root, host, userbuf, pkts[0], k, i, Cut(root, k, i));
    ghost var mem1 := host[..];
    OneOffParts(root, k, i, all, c, p);
    outside := userbuf + x + d < 0 || userbuf + x + d + c > host.Length;
    assert all[0..c] == all[..c];
    if !outside {
      NotWritten(all, places, c, p, x, d);
      ShouldBe(mem0, userbuf, places, msg, c, x, d, mark);
      RestOfMessage(seg, host, userbuf, pkts[1], pkts[2], all, places);
      ghost var mem2 := Scatter(mem1, userbuf, all[..c], msg[..c]);
      Kept(mem0, userbuf, places[c..p], msg[c..p], Missed(x, c, d));
      Kept(mem1, userbuf, all[..c], msg[..c], Missed(x, c, d));
      Kept(mem2, userbuf, all[p..], msg[p..], Missed(x, c, d));
    }
  }
}
