/** Runs over windows, of whatever stream the segment delivers. */
module Windows {
  import opened Dataloops
  import opened Memory
  import opened M2m
  import opened TypedCopy
  import opened Pieces
  import opened Segments
  import opened Histories

  /** The window first..last-1 of the stream, cut at elements. */
  ghost predicate IsWindow(root: Loop, first: nat, last: nat)
    requires root.LeafSize() >= 1
  {
    first < last <= Size(root) && first % root.LeafSize() == 0 && last % root.LeafSize() == 0
  }

  /** Between runs, and on the byte map. */
  ghost predicate OnMap(seg: Segment)
    reads seg, seg.stackelm
  {
    seg.Valid() && seg.Parked() && seg.Exact() && seg.root.LeafSize() >= 1
  }

  /** A run from `first` on draws on the stream `all`. */
  ghost predicate Due(seg: Segment, first: nat, all: seq<int>)
    reads seg, seg.stackelm
  {
    seg.Valid() && seg.Parked() && |all| == Size(seg.root) && seg.StreamFor(first) == all
  }

  /** The segment is ready for a run from `first` on that delivers the byte map. */
  ghost predicate ReadyAt(seg: Segment, first: nat)
    reads seg, seg.stackelm
  {
    Due(seg, first, Bytes(seg.root, 0))
  }

  /** After a run up to `last` that drew on the stream `all`. */
  ghost predicate After(seg: Segment, all: seq<int>, last: nat)
    reads seg, seg.stackelm
  {
    seg.Valid() && seg.AtLeaf() && seg.stream == all && seg.streamOff == last && seg.root.LeafSize() >= 1
  }

  lemma AfterOnMap(seg: Segment, last: nat)
    requires After(seg, Bytes(seg.root, 0), last)
    ensures OnMap(seg) && seg.streamOff == last
  {
  }

  /** What a run would draw on now. */
  lemma DueNow(seg: Segment, first: nat)
    requires seg.Valid() && seg.Parked()
    ensures seg.stackelm.Length >= 1 && Due(seg, first, seg.StreamFor(first))
  {
    seg.StreamLen(first);
  }

  /** A run with pieces that never stop it hands over exactly the window's part of the stream. */
  method RunWindow(seg: Segment, first: nat, last: nat, p: PieceSet, ghost all: seq<int>)
    requires seg.root.LeafSize() >= 1 && IsWindow(seg.root, first, last) && Due(seg, first, all)
    requires (p.Dma? || p.Copy? || p.Typed?) && p.MovesAlong(seg.root.LeafLoop())
    requires p.Valid() && p.Begins(p.Emitted(), first, last)
    requires p.Valid() && seg.Apart(p)
    requires p.Fits(p.Frame().start, p.Emitted() + all[first..last])
    modifies seg, seg.stackelm, p.Writes()
    ensures After(seg, all, last) && seg.orderly == old(seg.OrderlyFor(first))
    ensures p.Valid() && p.Frame() == old(p.Frame())
    ensures p.Emitted() == old(p.Emitted()) + all[first..last]
  {
    assert last - last % seg.root.LeafSize() == last;
    assert seg.TargetOf(last) == last;
    var end := seg.Manipulate(first, last, p);
    assert seg.TargetOf(last) == last;
  }

  /** What an unpacking run with parameters `params` does to the user buffer. */
  lemma UnpackEffect(params: M2mParams, bytes: seq<int>, pos: nat)
    requires params.Valid() && params.emitted == bytes && params.start == pos && params.toUser
    ensures pos + |bytes| <= |params.stream0| && Inside(bytes, params.origin, |params.user0|)
    ensures params.stream[..] == params.stream0
    ensures params.user[..] == Scatter(params.user0, params.origin, bytes, params.stream0[pos..pos + |bytes|])
  {
  }

  /** What a packing run does to the stream buffer. */
  lemma PackEffect(params: M2mParams, bytes: seq<int>, pos: nat)
    requires params.Valid() && params.emitted == bytes && params.start == pos && !params.toUser
    ensures pos + |bytes| <= |params.stream0| && Inside(bytes, params.origin, |params.user0|)
    ensures params.user[..] == params.user0
    ensures params.stream[..] == params.stream0[..pos] + Gather(params.user0, params.origin, bytes)
                                 + params.stream0[pos + |bytes|..]
  {
  }

  lemma InsideSlice(offs: seq<int>, origin: int, n: nat, a: nat, b: nat)
    requires Inside(offs, origin, n) && a <= b <= |offs|
    ensures Inside(offs[a..b], origin, n)
  {
  }

  /** One window moved with the given direction and piece functions. */
  method MoveWindow(seg: Segment, first: nat, last: nat, params: M2mParams, nic: bool, ghost all: seq<int>)
    requires seg.root.LeafSize() >= 1 && IsWindow(seg.root, first, last) && Due(seg, first, all)
    requires params.Valid() && params.emitted == []
    requires nic || params.MovesAlong(seg.root.LeafLoop())
    requires {seg, seg.stackelm} !! {params, params.user, params.stream}
    requires params.start + (last - first) <= params.stream.Length
    requires Inside(all[first..last], params.origin, params.user.Length)
    modifies seg, seg.stackelm, params, params.Dest()
    ensures After(seg, all, last) && seg.orderly == old(seg.OrderlyFor(first))
    ensures params.Valid() && params.emitted == all[first..last]
    ensures params.SameRun(old(params.start), old(params.user0), old(params.stream0))
  {
    hide After, Inside, Segment.Valid;
    var p := if nic then Dma(params) else Copy(params);
    ghost var bytes := all[first..last];
    assert [] + bytes == bytes;
    RunWindow(seg, first, last, p, all);
  }

  /** A blockindexed leaf is unpacked element by element, in blocks of one, or with memcpy. */
  ghost predicate Unpackable(root: Loop, typed: set<nat>) {
    var leaf := root.LeafLoop();
    leaf.shape.BlockIndexed? && leaf.elSize in typed ==> leaf.shape.biblocksize == 1
  }

  /** Segment_unpack, and with `nic` the NIC's way of doing it: the places that the window has in the stream get
      the next bytes of the stream buffer, nothing else changes. */
  method UnpackWindow(seg: Segment, first: nat, last: nat, user: array<byte>, origin: int,
                      stream: array<byte>, pos: nat, nic: bool, typed: set<nat>, ghost all: seq<int>)
    requires nic || Unpackable(seg.root, typed)
    requires seg.root.LeafSize() >= 1 && IsWindow(seg.root, first, last) && Due(seg, first, all)
    requires user != stream && pos + (last - first) <= stream.Length
    requires Inside(all[first..last], origin, user.Length)
    modifies seg, seg.stackelm, user
    ensures After(seg, all, last) && seg.orderly == old(seg.OrderlyFor(first))
    ensures user[..] == Scatter(old(user[..]), origin, all[first..last], stream[pos..pos + (last - first)])
  {
    hide Segment.Valid, After, Inside, Scatter;
    var params := new M2mParams(user, origin, stream, pos, true, typed);
    MoveWindow(seg, first, last, params, nic, all);
    UnpackEffect(params, all[first..last], pos);
  }

  /** What an unpacking run with typed assignments does to the user buffer. */
  lemma TypedEffect(t: TypedParams, bytes: seq<int>)
    requires t.Valid() && t.emitted == bytes
    ensures t.start + |bytes| <= |t.stream0| && Inside(bytes, t.origin, |t.user0|)
    ensures InstanceOf(t.leaf) >= 1 && PeriodOf(t.leaf) >= 1
    ensures t.user[..] == Scatter(t.user0, t.origin, bytes,
                                  Drawn(t.stream0, t.start, t.Head(), PeriodOf(t.leaf), |bytes|))
  {
  }

  /** The bytes of s that Segment_unpack stores at the places of a window of len bytes from `first` on. */
  ghost function Drawing(root: Loop, typed: set<nat>, s: seq<byte>, first: nat, pos: nat, len: nat): (r: seq<byte>)
    requires root.WellFormed() && pos + len <= |s|
    ensures |r| == len
  {
    var leaf := root.LeafLoop();
    LeafWellFormed(root);
    if Unpackable(root, typed) then s[pos..pos + len]
    else
      InstanceIs(leaf);
      Drawn(s, pos, HeadOf(first, InstanceOf(leaf)), PeriodOf(leaf), len)
  }

  lemma {:induction false} LeafWellFormed(l: Loop)
    requires l.WellFormed()
    ensures l.LeafLoop().Leaf? && l.LeafLoop().WellFormed()
  {
    if l.Node? {
      LeafWellFormed(l.child);
    }
  }

  /** Segment_unpack, whatever its piece function for blockindexed leaves does. */
  method UnpackDrawn(seg: Segment, first: nat, last: nat, user: array<byte>, origin: int,
                     stream: array<byte>, pos: nat, typed: set<nat>, ghost all: seq<int>)
    requires seg.root.LeafSize() >= 1 && IsWindow(seg.root, first, last) && Due(seg, first, all)
    requires user != stream && pos + (last - first) <= stream.Length
    requires Inside(all[first..last], origin, user.Length)
    modifies seg, seg.stackelm, user
    ensures After(seg, all, last) && seg.orderly == old(seg.OrderlyFor(first))
    ensures seg.root.WellFormed() && |all| == Size(seg.root)
    ensures user[..] == Scatter(old(user[..]), origin, all[first..last],
                                Drawing(seg.root, typed, stream[..], first, pos, last - first))
  {
    hide After, Inside, Scatter, Drawn;
    RootOf(seg);
    var leaf := seg.root.LeafLoop();
    if leaf.shape.BlockIndexed? && leaf.elSize in typed && leaf.shape.biblocksize != 1 {
      LeafWellFormed(seg.root);
      var t := new TypedParams(user, origin, stream, pos, leaf, first, last - first);
      ghost var bytes := all[first..last];
      assert [] + bytes == bytes;
      RunWindow(seg, first, last, Typed(t), all);
      TypedEffect(t, bytes);
    } else {
      UnpackWindow(seg, first, last, user, origin, stream, pos, false, typed, all);
    }
  }

  lemma RootOf(seg: Segment)
    requires seg.Valid()
    ensures seg.root.WellFormed()
  {
  }

  /** Segment_pack. */
  method PackWindow(seg: Segment, first: nat, last: nat, user: array<byte>, origin: int,
                    stream: array<byte>, pos: nat, typed: set<nat>, ghost all: seq<int>)
    requires seg.root.LeafSize() >= 1 && IsWindow(seg.root, first, last) && Due(seg, first, all)
    requires user != stream && pos + (last - first) <= stream.Length
    requires Inside(all[first..last], origin, user.Length)
    modifies seg, seg.stackelm, stream
    ensures After(seg, all, last) && seg.orderly == old(seg.OrderlyFor(first))
    ensures stream[..] == old(stream[..pos]) + Gather(user[..], origin, all[first..last])
                          + old(stream[pos + (last - first)..])
  {
    hide Segment.Valid, After, Inside, Gather;
    var params := new M2mParams(user, origin, stream, pos, false, typed);
    MoveWindow(seg, first, last, params, false, all);
    PackEffect(params, all[first..last], pos);
  }

  /* ---------- passes over the whole stream ---------- */

  /** Between two passes over the stream. */
  ghost predicate Idle(seg: Segment)
    reads seg, seg.stackelm
  {
    seg.root.LeafSize() >= 1 && OnMap(seg) && (seg.streamOff == 0 || seg.streamOff == Size(seg.root))
  }

  /** After the first `end` bytes of a pass. */
  ghost predicate InSync(seg: Segment, end: nat)
    reads seg, seg.stackelm
  {
    OnMap(seg) && ReadyAt(seg, end) && (end > 0 ==> seg.streamOff == end)
  }

  lemma IdleInSync(seg: Segment)
    requires Idle(seg)
    ensures InSync(seg, 0) && seg.root.LeafSize() >= 1
  {
    if seg.streamOff != 0 {
      CompletedReplay(seg);
    }
  }

  lemma InSyncIdle(seg: Segment)
    requires InSync(seg, Size(seg.root))
    ensures Idle(seg)
  {
  }

  lemma InSyncAt(seg: Segment, end: nat)
    requires OnMap(seg) && seg.streamOff == end
    ensures InSync(seg, end)
  {
  }

  lemma InSyncReady(seg: Segment, end: nat)
    requires InSync(seg, end)
    ensures ReadyAt(seg, end)
  {
  }
}
