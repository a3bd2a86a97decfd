/** Flows: which bytes of host memory the packet handler writes for a message, whatever the order of its packets. */
module Flows {
  import opened Dataloops
  import opened LeafBlocks
  import opened LevelSizes
  import opened Memory
  import opened SegmentStack
  import opened Displacements
  import opened Footprints
  import opened CreateTypes
  import opened Segments
  import opened Windows
  import opened NicHandler
  import opened Paths
  import opened Misdeliveries
  import opened Reaches

  /* ---------- what a run may draw on ---------- */

  /** Between runs, on a stream that the loop can give. */
  ghost predicate Drawn(seg: Segment)
    reads seg, seg.stackelm
  {
    seg.Valid() && seg.Parked() && Drawable(seg.root, seg.stream) && seg.root.LeafSize() >= 1
  }

  lemma StartedHeld(root: Loop, s: seq<Elm>)
    requires Levels(root, s)
    ensures |s| >= 1 && Held(root, [Started(s[0])] + s[1..], true)
  {
    assert LoopAt(root, 0) == root && Loaded(s[0], root) && root.shape.Count() >= 1;
    assert HasBlockSize(root.shape, root.shape.BlockSize(0));
    LevelsUpdate(root, s, 0, Started(s[0]));
    var t := s[0 := Started(s[0])];
    LevelsBelow(root, t, 0);
    assert t[0..] == t == [Started(s[0])] + s[1..];
  }

  /** From wherever the next run starts, it draws on such a stream. */
  lemma StreamDrawable(seg: Segment, first: nat)
    requires Drawn(seg)
    ensures seg.stackelm.Length >= 1 && Due(seg, first, seg.StreamFor(first))
    ensures Drawable(seg.root, seg.StreamFor(first))
  {
    hide Entering;
    DueNow(seg, first);
    StartedHeld(seg.root, seg.stackelm[..]);
    assert seg.stackelm[..][1..] == seg.stackelm[1..];
  }

  lemma AfterDrawn(seg: Segment, all: seq<int>, last: nat)
    requires After(seg, all, last) && Drawable(seg.root, all)
    ensures Drawn(seg)
  {
    hide Drawable;
  }

  lemma NewDrawn(seg: Segment)
    requires seg.Valid() && seg.Parked() && seg.Exact()
    ensures Drawn(seg)
  {
    hide Drawable;
    LoopAtStep(seg.root, 0);
    BytesDrawable(seg.root);
  }

  /* ---------- which bytes are written ---------- */

  /** Only bytes a..b-1 of the user buffer differ. */
  ghost predicate OnlyWithin(mem: seq<byte>, mem0: seq<byte>, userbuf: int, a: int, b: int) {
    |mem| == |mem0| && forall j: nat | j < |mem| && !(userbuf + a <= j < userbuf + b) :: mem[j] == mem0[j]
  }

  lemma ScatterWithin(mem: seq<byte>, mem0: seq<byte>, userbuf: int, offs: seq<int>, vals: seq<byte>, a: int, b: int)
    requires |offs| == |vals| && Inside(offs, userbuf, |mem|) && Between(offs, a, b)
    requires OnlyWithin(mem, mem0, userbuf, a, b)
    ensures OnlyWithin(Scatter(mem, userbuf, offs, vals), mem0, userbuf, a, b)
  {
    hide Scatter, Inside;
    forall j: nat | j < |mem| && !(userbuf + a <= j < userbuf + b)
      ensures Scatter(mem, userbuf, offs, vals)[j] == mem0[j]
    {
      ScatterAt(mem, userbuf, offs, vals, j);
      assert j - userbuf !in offs;
    }
  }

  lemma BetweenSlice(s: seq<int>, a: int, b: int, p: nat, q: nat, userbuf: int, n: nat)
    requires Between(s, a, b) && p <= q <= |s| && 0 <= userbuf + a && userbuf + b <= n
    ensures Between(s[p..q], a, b) && Inside(s[p..q], userbuf, n)
  {
    forall k: nat | k < q - p ensures a <= s[p..q][k] < b {
      assert s[p..q][k] == s[p + k] && s[p + k] in s;
    }
  }

  /** A packet of some message of this loop. */
  ghost predicate Fits(root: Loop, pkt: Packet, host: array<byte>) {
    root.LeafSize() >= 1 && Aligned(root, pkt) && pkt.payload != host
  }

  method OnePacket(seg: Segment, host: array<byte>, userbuf: int, pkt: Packet, ghost a: int, ghost b: int,
                   ghost mem0: seq<byte>)
    requires Drawn(seg) && Contained(seg.root, a, b) && Fits(seg.root, pkt, host)
    requires 0 <= userbuf + a && userbuf + b <= host.Length && OnlyWithin(host[..], mem0, userbuf, a, b)
    modifies seg, seg.stackelm, host
    ensures Drawn(seg) && OnlyWithin(host[..], mem0, userbuf, a, b)
  {
    hide Segment.Valid, Contained, Drawable, Inside, Between, Scatter, OnlyWithin, Segment.StreamFor;
    StreamDrawable(seg, pkt.off);
    ghost var all := seg.StreamFor(pkt.off);
    ghost var mem, q := host[..], pkt.off + pkt.payload.Length;
    ContainedBetween(seg.root, all, a, b);
    BetweenSlice(all, a, b, pkt.off, q, userbuf, host.Length);
    PayloadHandler(seg, host, userbuf, pkt, all);
    if pkt.payload.Length > 0 {
      AfterDrawn(seg, all, q);
    }
    ScatterWithin(mem, mem0, userbuf, all[pkt.off..q], pkt.payload[..], a, b);
  }

  /** Any packets in any order, repeated or overlapping, for any loop: if all that the loop can give stays in a..b-1,
      only those bytes of the user buffer are written. */
  method AnyPackets(seg: Segment, host: array<byte>, userbuf: int, pkts: seq<Packet>, ghost a: int, ghost b: int)
    requires Drawn(seg) && Contained(seg.root, a, b) && forall pkt | pkt in pkts :: Fits(seg.root, pkt, host)
    requires 0 <= userbuf + a && userbuf + b <= host.Length
    modifies seg, seg.stackelm, host
    ensures Drawn(seg) && OnlyWithin(host[..], old(host[..]), userbuf, a, b)
  {
    hide Contained, Fits, Drawn;
    ghost var mem0 := host[..];
    for n := 0 to |pkts|
      invariant Drawn(seg) && OnlyWithin(host[..], mem0, userbuf, a, b)
    {
      OnePacket(seg, host, userbuf, pkts[n], a, b, mem0);
    }
  }

  /** In stream order the byte map itself is all that is written, for any loop. */
  method PacketsInOrder(seg: Segment, host: array<byte>, userbuf: int, pkts: seq<Packet>, ghost msg: seq<byte>,
                        ghost a: int, ghost b: int)
    requires Idle(seg) && |msg| == Size(seg.root) && Carries(seg.root, pkts, msg, host) && InOrder(pkts, |pkts|)
    requires Between(Bytes(seg.root, 0), a, b) && 0 <= userbuf + a && userbuf + b <= host.Length
    modifies seg, seg.stackelm, host
    ensures OnlyWithin(host[..], old(host[..]), userbuf, a, b)
  {
    hide Segment.Valid, Bytes, InSync, Idle, Scatter, NicHandler.Carries, Between, Inside;
    ghost var places, mem0, e := Bytes(seg.root, 0), host[..], EndOf(pkts, |pkts|);
    BytesLen(seg.root, 0);
    BetweenSlice(places, a, b, 0, |places|, userbuf, host.Length);
    assert places[0..|places|] == places;
    DeliverInOrder(seg, host, userbuf, pkts, msg);
    BetweenSlice(places, a, b, 0, e, userbuf, host.Length);
    assert places[0..e] == places[..e];
    ScatterWithin(mem0, mem0, userbuf, places[..e], msg[..e], a, b);
  }

  /* ---------- every such stream is drawn on ---------- */

  /** On a path without bytes every level is in its first block. */
  lemma {:induction false} StartFresh(l: Loop, ns: seq<nat>, below: seq<Elm>)
    requires l.WellFormed() && IsPath(l, ns) && Matches(l, ns, below) && PathBytes(l, ns) == 0
    ensures Fresh(l, below)
    decreases l
  {
    if l.Node? {
      ChildSize(l);
      if ns[0] > 0 {
        MulLe(1, ns[0], ElemSize(l));
      }
      StartFresh(l.child, ns[1..], below[1..]);
      var i: nat :| InBlockNo(l.shape, ns[0], i) && below[0].origBlock == l.shape.BlockSize(i);
      if i > 0 {
        assert l.shape.BlockSize(0) >= 1;
        LeftMonotone(l.shape, 0, i);
      }
    }
  }

  lemma PathStream(seg: Segment, ns: seq<nat>, below: seq<Elm>)
    requires seg.root.WellFormed() && IsPath(seg.root, ns) && Matches(seg.root, ns, below)
    requires Held(seg.root, below, true) && seg.orderly && PathBytes(seg.root, ns) > 0
    requires After(seg, Bytes(seg.root, 0), PathBytes(seg.root, ns))
    ensures Due(seg, 0, Entering(seg.root, 0, below))
  {
    hide Entering, Matches, Bytes;
    PathInside(seg.root, ns);
    StreamOnPath(seg, ns, below);
    DueNow(seg, 0);
  }

  /** Each of these places holds one of the values. */
  ghost predicate Written(mem: seq<byte>, userbuf: int, offs: seq<int>, vals: seq<byte>) {
    forall q: nat | q < |offs| :: 0 <= userbuf + offs[q] < |mem| && mem[userbuf + offs[q]] in vals
  }

  lemma AllWritten(mem: seq<byte>, userbuf: int, offs: seq<int>, vals: seq<byte>)
    requires |offs| == |vals| && Inside(offs, userbuf, |mem|)
    ensures Written(Scatter(mem, userbuf, offs, vals), userbuf, offs, vals)
  {
    hide Scatter;
    forall q: nat | q < |offs| ensures Scatter(mem, userbuf, offs, vals)[userbuf + offs[q]] in vals {
      ScatterAt(mem, userbuf, offs, vals, userbuf + offs[q]);
      assert userbuf + offs[q] - userbuf in offs;
    }
  }

  /** The first packet takes a new segment to the blocks of a path, the second one starts over: it is delivered
      where the block sizes of that path say. So each stream that a loop can give is drawn on. */
  method DrawOn(root: Loop, host: array<byte>, userbuf: int, first: Packet, second: Packet, ghost ns: seq<nat>,
                ghost below: seq<Elm>)
    returns (seg: Segment)
    requires root.WellFormed() && root.Depth() < MAX_DATATYPE_DEPTH
    requires Held(root, below, true) && IsPath(root, ns) && Matches(root, ns, below)
    requires Fits(root, first, host) && Fits(root, second, host) && first.off == second.off == 0
    requires first.payload.Length == PathBytes(root, ns) && second.payload.Length <= |Entering(root, 0, below)|
    requires first.payload.Length <= |Bytes(root, 0)|
    requires Inside(Bytes(root, 0)[..first.payload.Length], userbuf, host.Length)
    requires Inside(Entering(root, 0, below)[..second.payload.Length], userbuf, host.Length)
    modifies host
    ensures fresh(seg) && seg.root == root
    ensures host[..] == Scatter(Scatter(old(host[..]), userbuf, Bytes(root, 0)[..first.payload.Length],
                                        first.payload[..]),
                                userbuf, Entering(root, 0, below)[..second.payload.Length], second.payload[..])
    ensures Written(host[..], userbuf, Entering(root, 0, below)[..second.payload.Length], second.payload[..])
  {
    hide Segment.Valid, Bytes, Entering, Scatter, Inside, Matches, Held, IsPath, Segment.StreamFor;
    seg := new Segment(0, root);
    FromStart(seg, 0);
    ghost var all, places := Entering(root, 0, below), Bytes(root, 0);
    ghost var p, e := first.payload.Length, second.payload.Length;
    assert places[0..p] == places[..p] && all[0..e] == all[..e];
    PayloadHandler(seg, host, userbuf, first, places);
    if p == 0 {
      StartFresh(root, ns, below);
      EnteringFresh(root, 0, below);
    } else {
      PathStream(seg, ns, below);
    }
    ghost var mem := host[..];
    PayloadHandler(seg, host, userbuf, second, all);
    AllWritten(mem, userbuf, all[..e], second.payload[..]);
  }

  /** The block sizes that reach farthest, and how many bytes lead to the blocks that have them. */
  method FarPath(up: bool, l: Loop, top: bool) returns (p: nat, ghost ns: seq<nat>, ghost below: seq<Elm>)
    requires l.WellFormed()
    ensures Held(l, below, top) && HeldFar(up, l, below) == EnterFar(up, l, top)
    ensures IsPath(l, ns) && Matches(l, ns, below) && p == PathBytes(l, ns)
    decreases l
  {
    hide Held, HeldFar, EnterFar, IsPath, Matches, PathBytes, SizeFar, ElemSize, ElemBytes;
    assert l.shape.BlockSize(0) >= 1;
    if l.Node? {
      ghost var restNs, rest;
      p, restNs, rest := FarPath(up, l.child, false);
      var i := if top then 0 else FarBlock(up, l, 0);
      LeftMonotone(l.shape, 0, i);
      var n: nat := BlocksLeft(l.shape, 0) - BlocksLeft(l.shape, i);
      ElemBytesIs(l);
      p := n * ElemBytes(l) + p;
      ns, below := [n] + restNs, [Holding(l, i)] + rest;
      FarStep(up, l, top, i, n, restNs, rest);
    } else {
      p, ns, below := 0, [], [Holding(l, 0)];
      FarLeaf(up, l, top);
    }
  }

  lemma FarLeaf(up: bool, l: Loop, top: bool)
    requires l.WellFormed() && l.Leaf?
    ensures Held(l, [Holding(l, 0)], top) && HeldFar(up, l, [Holding(l, 0)]) == EnterFar(up, l, top)
    ensures IsPath(l, []) && Matches(l, [], [Holding(l, 0)]) && PathBytes(l, []) == 0
  {
    assert l.shape.BlockSize(0) >= 1 && HasBlockSize(l.shape, l.shape.BlockSize(0));
  }

  /** One level of it. */
  lemma FarStep(up: bool, l: Loop, top: bool, i: nat, n: nat, restNs: seq<nat>, rest: seq<Elm>)
    requires l.WellFormed() && l.Node? && i < l.shape.Count() && n == BlocksLeft(l.shape, 0) - BlocksLeft(l.shape, i)
    requires SizeAway(l, i) == (if top then 0 else SizeFar(up, l, 0)) && (top ==> i == 0)
    requires Held(l.child, rest, false) && HeldFar(up, l.child, rest) == EnterFar(up, l.child, false)
    requires IsPath(l.child, restNs) && Matches(l.child, restNs, rest)
    ensures var ns, below := [n] + restNs, [Holding(l, i)] + rest;
      && Held(l, below, top) && HeldFar(up, l, below) == EnterFar(up, l, top)
      && IsPath(l, ns) && Matches(l, ns, below) && PathBytes(l, ns) == n * ElemSize(l) + PathBytes(l.child, restNs)
  {
    hide Joined, SizeFar;
    var ns, below := [n] + restNs, [Holding(l, i)] + rest;
    assert below[1..] == rest && ns[1..] == restNs;
    assert l.shape.BlockSize(i) >= 1 && HasBlockSize(l.shape, l.shape.BlockSize(i));
    LeftMonotone(l.shape, i + 1, l.shape.Count());
    assert InBlockNo(l.shape, n, i);
    assert Displacement(l, below) == SizeAway(l, i);
  }

  lemma StreamInside(root: Loop, all: seq<int>, p: nat, userbuf: int, n: nat)
    requires root.WellFormed() && Drawable(root, all) && p <= |all|
    requires 0 <= userbuf + Lowest(root) && userbuf + Highest(root) < n
    ensures Inside(all[..p], userbuf, n)
  {
    hide Drawable, EnterFar;
    forall x | x in all ensures Lowest(root) <= x < Highest(root) + 1 {
      DrawnBetween(root, all, x);
    }
    BetweenSlice(all, Lowest(root), Highest(root) + 1, 0, p, userbuf, n);
    assert all[0..p] == all[..p];
  }

  /** Where the outermost byte of the stream was written. */
  lemma FarWritten(up: bool, root: Loop, below: seq<Elm>, mem: seq<byte>, userbuf: int, vals: seq<byte>)
    requires root.WellFormed() && HeldFar(up, root, below) == EnterFar(up, root, true)
    requires Written(mem, userbuf, Entering(root, 0, below), vals)
    ensures 0 <= userbuf + EnterFar(up, root, true) < |mem| && mem[userbuf + EnterFar(up, root, true)] in vals
  {
    hide Entering, EnterFar, HeldFar;
    EnteringOutermost(up, root, 0, below);
  }

  lemma PartsAligned(root: Loop, first: Packet, second: Packet, msg: seq<byte>, ns: seq<nat>, host: array<byte>)
    requires root.WellFormed() && IsPath(root, ns) && |msg| == Size(root) && PathBytes(root, ns) <= |msg|
    requires first.off == second.off == 0 && first.payload != host && second.payload != host
    requires first.payload[..] == msg[..PathBytes(root, ns)] && second.payload[..] == msg
    ensures Fits(root, first, host) && Fits(root, second, host) && Carries(root, [first, second], msg, host)
  {
    PathInside(root, ns);
    ElementsWhole(root);
    assert first.payload.Length == PathBytes(root, ns) && second.payload.Length == |msg|;
    assert msg[0..|msg|] == msg;
  }

  lemma ExtremeStream(root: Loop, ns: seq<nat>, below: seq<Elm>)
    requires root.WellFormed() && Held(root, below, true) && IsPath(root, ns)
    ensures Drawable(root, Entering(root, 0, below)) && Drawable(root, Bytes(root, 0))
    ensures PathBytes(root, ns) < Size(root) == |Bytes(root, 0)| == |Entering(root, 0, below)|
  {
    PathInside(root, ns);
    BytesDrawable(root);
    EnteringLen(root, 0, below);
  }

  /** For every loop that can give a stream outside a..b-1 there are two packets of one message after which a byte
      outside has changed: together with AnyPackets, nothing outside is ever changed if and only if all streams of the
      loop stay inside. */
  method Escape(root: Loop, host: array<byte>, userbuf: int, a: int, b: int)
    returns (seg: Segment, pkts: seq<Packet>, msg: seq<byte>)
    requires root.WellFormed() && root.Depth() < MAX_DATATYPE_DEPTH && !Contained(root, a, b)
    requires 0 <= userbuf + Lowest(root) && userbuf + Highest(root) < host.Length
    modifies host
    ensures fresh(seg) && seg.root == root && root.LeafSize() >= 1
    ensures |msg| == Size(root) && Carries(root, pkts, msg, host)
    ensures !OnlyWithin(host[..], old(host[..]), userbuf, a, b)
  {
    hide Contained, Entering, Matches, IsPath, EnterFar, Held, HeldFar, Bytes, NicHandler.Carries, Scatter, Inside;
    hide Drawable, ElemBytes, Fits, Written, PathBytes, Loop.WellFormed;
    ContainedIff(root, a, b);
    LowestBelow(root);
    var up := a <= Lowest(root);
    var at := userbuf + EnterFar(up, root, true);
    ghost var was := host[..];
    var p, ns, below := FarPath(up, root, true);
    ghost var all := Entering(root, 0, below);
    ExtremeStream(root, ns, below);
    var size := MessageSize(root);
    var mark: byte := if host[at] == 0 then 1 else 0;
    msg := seq(size, _ => mark);
    var first := MakePacket(msg, 0, p);
    var second := MakePacket(msg, 0, size);
    pkts := [first, second];
    assert msg[0..p] == msg[..p] && msg[0..size] == msg;
    PartsAligned(root, first, second, msg, ns, host);
    StreamInside(root, Bytes(root, 0), p, userbuf, host.Length);
    StreamInside(root, all, size, userbuf, host.Length);
    assert first.payload[..] == msg[..p] && second.payload[..] == msg;
    assert first.payload.Length == p && second.payload.Length == size;
    seg := DrawOn(root, host, userbuf, first, second, ns, below);
    assert all[..size] == all;
    FarWritten(up, root, below, host[..], userbuf, msg);
  }

  method MessageSize(root: Loop) returns (size: nat)
    ensures size == Size(root)
  {
    ElemBytesIs(root);
    BlocksSize(root, 0, 0);
    size := BlocksLeft(root.shape, 0) * ElemBytes(root);
  }

  lemma LowestBelow(root: Loop)
    requires root.WellFormed()
    ensures Lowest(root) <= Highest(root) && root.LeafSize() >= 1
  {
    hide EnterFar, Drawable, Bytes;
    LeafSizePositive(root);
    BytesDrawable(root);
    Nonempty(root, 0);
    DrawnBetween(root, Bytes(root, 0), Bytes(root, 0)[0]);
  }

  /* ---------- the windows of the flows ---------- */

  /** Where a flow's user buffer begins. */
  function BufferOf(base: int, flow: nat, sizeMsg: nat): int {
    base + flow * sizeMsg
  }

  /** The byte map of a loop that was built for `count` instances of a type stays in the flow's window if the user
      buffer does. */
  lemma InWindow(root: Loop, t: Mpi, f: Footprint, count: nat, sizeMsg: nat)
    requires t.Valid() && Describes(f, t) && Selects(root, t, count)
    requires f.trueLb >= 0 && f.extent >= 0 && UserbufSize(f, count) <= sizeMsg
    ensures Between(Bytes(root, 0), 0, sizeMsg)
  {
    hide UserbufSize, Bytes, Describes, Selects;
    forall x | x in Bytes(root, 0) ensures 0 <= x < sizeMsg {
      ByteInWindow(root, t, f, count, x);
    }
  }

  lemma ByteInWindow(root: Loop, t: Mpi, f: Footprint, count: nat, x: int)
    requires t.Valid() && Describes(f, t) && Selects(root, t, count) && f.trueLb >= 0 && f.extent >= 0
    requires x in Bytes(root, 0)
    ensures 0 <= x < UserbufSize(f, count)
  {
    hide UserbufSize, Bytes, TypeMap, Lb, Ub, Copies, Block, Bounded;
    SomeBytes(TypeMap(t), ExtentOf(t), count, x);
    InsideUserbuf(t, f, count, x);
  }

  /** For a resettable loop that is all. */
  lemma FootprintFits(root: Loop, t: Mpi, f: Footprint, count: nat, sizeMsg: nat)
    requires root.WellFormed() && Resettable(root)
    requires t.Valid() && Describes(f, t) && Selects(root, t, count)
    requires f.trueLb >= 0 && f.extent >= 0 && UserbufSize(f, count) <= sizeMsg
    ensures Contained(root, 0, sizeMsg) && 0 <= Lowest(root) && Highest(root) < sizeMsg
  {
    hide UserbufSize, Describes, Selects, Bytes, Drawable, Resettable, Between, EnterFar;
    InWindow(root, t, f, count, sizeMsg);
    forall all: seq<int> | Drawable(root, all) ensures Between(all, 0, sizeMsg) {
      DrawsBytes(root, all);
    }
    ContainedIff(root, 0, sizeMsg);
  }

  /** Packets in any order, for any loop whose lowest and highest byte lie in the space of a message: only the flow's
      own window is written. */
  method AnyOrderFlow(seg: Segment, host: array<byte>, base: int, flow: nat, sizeMsg: nat, pkts: seq<Packet>)
    requires Drawn(seg) && seg.root.WellFormed() && 0 <= Lowest(seg.root) && Highest(seg.root) < sizeMsg
    requires forall pkt | pkt in pkts :: Fits(seg.root, pkt, host)
    requires 0 <= BufferOf(base, flow, sizeMsg) && BufferOf(base, flow + 1, sizeMsg) <= host.Length
    modifies seg, seg.stackelm, host
    ensures Drawn(seg) && OnlyWithin(host[..], old(host[..]), BufferOf(base, flow, sizeMsg), 0, sizeMsg)
  {
    hide Drawn, Contained, Fits, EnterFar, Drawable;
    ContainedIff(seg.root, 0, sizeMsg);
    NextWindow(base, flow, sizeMsg);
    AnyPackets(seg, host, BufferOf(base, flow, sizeMsg), pkts, 0, sizeMsg);
  }

  lemma NextWindow(base: int, flow: nat, sizeMsg: nat)
    ensures BufferOf(base, flow + 1, sizeMsg) == BufferOf(base, flow, sizeMsg) + sizeMsg
  {
  }

  /** Any loop built for a type, packets in stream order: only the flow's own window is written. */
  method InOrderFlow(seg: Segment, host: array<byte>, base: int, flow: nat, sizeMsg: nat, pkts: seq<Packet>,
                     ghost msg: seq<byte>, ghost t: Mpi, ghost f: Footprint, ghost count: nat)
    requires Idle(seg) && |msg| == Size(seg.root) && Carries(seg.root, pkts, msg, host) && InOrder(pkts, |pkts|)
    requires t.Valid() && Describes(f, t) && Selects(seg.root, t, count)
    requires f.trueLb >= 0 && f.extent >= 0 && UserbufSize(f, count) <= sizeMsg
    requires 0 <= BufferOf(base, flow, sizeMsg) && BufferOf(base, flow + 1, sizeMsg) <= host.Length
    modifies seg, seg.stackelm, host
    ensures OnlyWithin(host[..], old(host[..]), BufferOf(base, flow, sizeMsg), 0, sizeMsg)
  {
    hide Idle, Describes, Selects, Bytes, UserbufSize, InOrder, NicHandler.Carries;
    InWindow(seg.root, t, f, count, sizeMsg);
    NextWindow(base, flow, sizeMsg);
    PacketsInOrder(seg, host, BufferOf(base, flow, sizeMsg), pkts, msg, 0, sizeMsg);
  }

  /** What is written in one flow's window is not in that of another. */
  lemma FlowsApart(mem: seq<byte>, mem0: seq<byte>, base: int, sizeMsg: nat, flow: nat, flow': nat, j: nat)
    requires OnlyWithin(mem, mem0, BufferOf(base, flow, sizeMsg), 0, sizeMsg) && flow != flow' && j < |mem|
    requires BufferOf(base, flow', sizeMsg) <= j < BufferOf(base, flow' + 1, sizeMsg)
    ensures mem[j] == mem0[j]
  {
    NextWindow(base, flow', sizeMsg);
    if flow < flow' {
      AtMost(flow + 1, flow', sizeMsg);
      NextWindow(base, flow, sizeMsg);
    } else {
      AtMost(flow' + 1, flow, sizeMsg);
    }
  }
}
