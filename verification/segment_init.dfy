/** Segment_init: the loop that a segment over `count` instances of a type runs on, and the runs that flatten
    and count. */
module SegmentInit {
  import opened Dataloops
  import opened LeafBlocks
  import opened SegmentStack
  import opened FlattenCount
  import opened Pieces
  import opened Segments
  import opened Types
  import opened CreateVectors

  /** The loop of level 0. */
  function InitLoop(h: Handle, count: nat): Loop {
    match h
    case Basic(size) => Leaf(Contig(count), size, size)
    case Derived(loop, size, extent) =>
      if count == 0 then Leaf(Contig(0), 0, 0)
      else if count == 1 then loop
      else if loop.Depth() == 1 && loop.shape.Contig? then
        if size == extent then Leaf(Contig(count * loop.shape.count), loop.elSize, loop.elExtent)
        else Leaf(Vector(count, loop.shape.count, extent), loop.elSize, loop.elExtent)
      else Node(Contig(count), size, extent, loop)
  }

  lemma DepthOne(l: Loop)
    ensures l.Depth() == 1 <==> l.Leaf?
  {
    if l.Node? {
      assert l.child.Depth() >= 1 by {
        LoopAtStep(l.child, 0);
      }
    }
  }

  /** A contiguous leaf seen as one block of a vector. */
  lemma {:induction false} LeafCopies(h: Handle, b: int, i: nat, count: nat, stride: int)
    requires h.Derived? && h.loop.Leaf? && h.loop.shape.Contig? && i <= count && stride == h.dextent
    ensures BlocksFrom(Leaf(Vector(count, h.loop.shape.count, stride), h.loop.elSize, h.loop.elExtent), b, i)
         == Copies(h, b + i * stride, count - i)
    decreases count - i
  {
    if i < count {
      var l := Leaf(Vector(count, h.loop.shape.count, stride), h.loop.elSize, h.loop.elExtent);
      LeafCopies(h, b, i + 1, count, stride);
      assert b + i * stride + stride == b + (i + 1) * stride by {
        TimesNext(i + 1, stride);
      }
      ContigBytes(h.loop, b + i * stride);
      SameElems(l, h.loop, b + i * stride, h.loop.shape.count);
    }
  }

  /** Whatever the branch, the loop selects `count` instances of the type. */
  lemma InitBytes(h: Handle, count: nat)
    requires h.Sized()
    ensures Bytes(InitLoop(h, count), 0) == Copies(h, 0, count)
  {
    var l := InitLoop(h, count);
    match h {
      case Basic(size) =>
        WrapContig(h, 0, count);
      case Derived(loop, size, extent) =>
        DepthOne(loop);
        if count == 0 {
          ContigBytes(l, 0);
        } else if count == 1 {
          assert Copies(h, 0, 1) == TypeBytes(h, 0) + Copies(h, 0 + h.Extent(), 0);
        } else if loop.Depth() == 1 && loop.shape.Contig? {
          if size == extent {
            CoalescedMeans(h, count);
            assert count * loop.shape.count == loop.shape.count * count;
            assert l == Coalesced(loop, count);
          } else {
            LeafCopies(h, 0, 0, count, extent);
          }
        } else {
          WrapContig(h, 0, count);
        }
    }
  }

  lemma InitWellFormed(h: Handle, count: nat)
    requires Grounded(h) && h.Sized() && count >= 1
    ensures InitLoop(h, count).WellFormed()
    ensures InitLoop(h, count).Depth() <= 1 + Nesting(h) && InitLoop(h, count).LeafSize() == Grain(h, false)
    ensures Tidy(h) ==> Separated(InitLoop(h, count).LeafLoop())
  {
    var l := InitLoop(h, count);
    if h.Derived? {
      DepthOne(h.loop);
      assert h.loop.shape.BlockSize(0) >= 1;
      if h.loop.shape.Contig? {
        MulLe(1, count, h.loop.shape.count);
      }
    }
  }

  method Init(ptr: int, count: nat, h: Handle) returns (seg: Segment)
    requires Grounded(h) && h.Sized() && count >= 1
    requires InitLoop(h, count).Depth() < MAX_DATATYPE_DEPTH
    ensures fresh(seg) && fresh(seg.stackelm)
    ensures seg.Valid() && seg.Parked() && seg.streamOff == 0 && seg.ptr == ptr
    ensures seg.root.WellFormed() && (Tidy(h) ==> Separated(seg.root.LeafLoop()))
    ensures seg.root.LeafSize() == Grain(h, false) && seg.root.Depth() <= 1 + Nesting(h)
    ensures seg.stream == Copies(h, 0, count) == Bytes(seg.root, 0)
  {
    InitBytes(h, count);
    InitWellFormed(h, count);
    var dlp: Loop;
    match h {
      case Basic(size) =>
        dlp := Leaf(Contig(count), size, size);
      case Derived(loop, size, extent) =>
        if count == 1 {
          dlp := loop;
        } else if loop.Depth() == 1 && loop.shape.Contig? {
          if size == extent {
            dlp := Leaf(Contig(count * loop.shape.count), loop.elSize, loop.elExtent);
          } else {
            dlp := Leaf(Vector(count, loop.shape.count, extent), loop.elSize, loop.elExtent);
          }
        } else {
          dlp := Node(Contig(count), size, extent, loop);
        }
    }
    seg := new Segment(ptr, dlp);
  }

  /* ---------- runs of consecutive offsets ---------- */

  lemma {:induction false} RunsShift(s: seq<int>, d: int)
    ensures Runs(Shift(s, d)) == Runs(s)
    decreases |s|
  {
    if s != [] {
      RunsShift(s[..|s| - 1], d);
      assert Shift(s, d)[..|s| - 1] == Shift(s[..|s| - 1], d);
    }
  }

  lemma {:induction false} RunsPrefix(s: seq<int>, k: nat)
    requires k <= |s|
    ensures Runs(s[..k]) <= Runs(s)
    decreases |s|
  {
    if k < |s| {
      RunsPrefix(s[..|s| - 1], k);
      assert s[..|s| - 1][..k] == s[..k];
    } else {
      assert s[..k] == s;
    }
  }

  /** The entries written are as many as the maximal runs. */
  lemma EntryCount(d: seq<int>, l: seq<nat>, offs: seq<int>, base: int)
    requires Flattened(d, l, offs, base)
    ensures |d| == Runs(offs)
    ensures d != [] ==> offs != [] && d[|d| - 1] + l[|d| - 1] == base + offs[|offs| - 1] + 1
    ensures d == [] <==> offs == []
  {
    EntriesAreRuns(d, l);
    RunsShift(offs, base);
  }

  /* ---------- flattening ---------- */

  /** Why flattening stopped: at its end, or with every entry used and the next byte not adjoining. */
  ghost predicate FlattenStopped(stream: seq<int>, first: nat, last: nat, target: nat, length: nat, room: nat)
    requires first < target <= |stream| && first <= last
  {
    && first < last <= target
    && length <= room
    && length == Runs(stream[first..last])
    && (last < target ==> length == room && stream[last] != stream[last - 1] + 1)
  }

  /** Enough entries: nothing stops the run. */
  lemma RoomForAll(stream: seq<int>, first: nat, last: nat, target: nat, length: nat, room: nat)
    requires first < target <= |stream| && first <= last
    requires FlattenStopped(stream, first, last, target, length, room)
    ensures last == target <==> Runs(stream[first..target]) <= room
  {
    if last < target {
      var s := stream[first..last];
      RunsOne(s, stream[last]);
      assert stream[first..target][..last + 1 - first] == s + [stream[last]];
      assert s[|s| - 1] == stream[last - 1];
      RunsPrefix(stream[first..target], last + 1 - first);
    }
  }

  /** Segment_mpi_flatten into disps[start..] and blklens[start..]. */
  method MpiFlatten(seg: Segment, first: nat, lastIn: int, disps: array<int>, blklens: array<nat>, start: nat,
                    room: nat)
    returns (last: int, length: nat)
    requires seg.Valid() && seg.Parked() && seg.Runnable(first, lastIn) && first != lastIn
    requires first < seg.TargetOf(lastIn)
    requires room >= 1 && start + room <= disps.Length && start + room <= blklens.Length
    requires {seg, seg.stackelm} !! {disps as object, blklens}
    modifies seg, seg.stackelm, disps, blklens
    ensures seg.Valid() && seg.Parked() && seg.stream == old(seg.StreamFor(first)) && last == seg.streamOff
    ensures first <= last <= |seg.stream| && start + length <= disps.Length && start + length <= blklens.Length
    ensures Flattened(disps[start..start + length], blklens[start..start + length], seg.stream[first..last], seg.ptr)
    ensures first < seg.TargetOf(lastIn) <= |seg.stream|
    ensures FlattenStopped(seg.stream, first, last, seg.TargetOf(lastIn), length, room)
    ensures disps[..start] == old(disps[..start]) && blklens[..start] == old(blklens[..start])
  {
    var params := new FlattenParams(disps, blklens, start, room, seg.ptr);
    last := RunFlatten(seg, first, lastIn, params);
    length := params.index;
  }

  method RunFlatten(seg: Segment, first: nat, lastIn: int, params: FlattenParams) returns (last: int)
    requires seg.Valid() && seg.Parked() && seg.Runnable(first, lastIn) && first != lastIn
    requires first < seg.TargetOf(lastIn)
    requires params.Valid() && params.emitted == [] && seg.Apart(Flatten(params))
    modifies seg, seg.stackelm, params, params.disps, params.blklens
    ensures seg.Valid() && seg.Parked() && seg.stream == old(seg.StreamFor(first)) && last == seg.streamOff
    ensures first <= last <= |seg.stream| && params.Valid()
    ensures Flattened(params.D(), params.B(), seg.stream[first..last], params.bufp)
    ensures first < seg.TargetOf(lastIn) <= |seg.stream|
    ensures FlattenStopped(seg.stream, first, last, seg.TargetOf(lastIn), params.index, params.length)
    ensures params.disps[..params.start] == old(params.disps[..params.start])
    ensures params.blklens[..params.start] == old(params.blklens[..params.start])
  {
    FlattenReady(seg, first, lastIn);
    ghost var target := seg.TargetOf(lastIn);
    last := seg.Manipulate(first, lastIn, Flatten(params));
    hide Segment.Valid, Separated, Flattened, FlattenStopped;
    FlattenEnd(seg, first, lastIn, params);
  }

  /** Flattening with too few entries and resuming where it stopped: the entries of all parts together stand
      for the whole stream. */
  method FlattenInParts(seg: Segment, room: nat) returns (d: seq<int>, l: seq<nat>)
    requires seg.Valid() && seg.Parked() && seg.streamOff == 0 && |seg.stream| >= 1 && room >= 1
    modifies seg, seg.stackelm
    ensures |d| == |l| && Expand(d, l) == Shift(old(seg.stream), seg.ptr)
  {
    d, l := [], [];
    ghost var all := seg.stream;
    var last := 0;
    seg.InitialStream(0);
    assert Expand([], []) == Shift(all[..0], seg.ptr);
    hide Segment.Valid, Expand, Shift;
    while true
      invariant seg.Valid() && seg.Parked() && seg.stream == all && 0 <= last == seg.streamOff < |all|
      invariant |d| == |l| && Expand(d, l) == Shift(all[..last], seg.ptr)
      decreases |all| - last
    {
      ghost var first := last;
      var e, m;
      last, e, m := FlattenPart(seg, last, room);
      PartAdded(d, l, e, m, all, first, last, seg.ptr);
      d, l := d + e, l + m;
      EndTest(seg);
      if seg.curSp == -1 {
        assert all[..last] == all;
        return;
      }
    }
  }

  /** One part, with an array of `room` entries of its own. */
  method FlattenPart(seg: Segment, first: nat, room: nat) returns (last: int, d: seq<int>, l: seq<nat>)
    requires seg.Valid() && seg.Parked() && first == seg.streamOff < |seg.stream| && room >= 1
    modifies seg, seg.stackelm
    ensures seg.Valid() && seg.Parked() && seg.stream == old(seg.stream)
    ensures first < last == seg.streamOff <= |seg.stream| && Flattened(d, l, seg.stream[first..last], seg.ptr)
  {
    FromHere(seg);
    hide Segment.Valid, Flattened;
    var disps, blklens := new int[room], new nat[room];
    var length;
    last, length := MpiFlatten(seg, first, IGNORE_LAST, disps, blklens, 0, room);
    d, l := disps[0..0 + length], blklens[0..0 + length];
  }

  lemma EndTest(seg: Segment)
    requires seg.Valid() && seg.Parked()
    ensures seg.curSp == -1 <==> seg.streamOff == |seg.stream|
  {
    if seg.curSp >= 0 {
      RestNonempty(seg.root, seg.stackelm[..], seg.curSp);
    }
  }

  lemma FromHere(seg: Segment)
    requires seg.Valid() && seg.streamOff < |seg.stream|
    ensures seg.root.LeafSize() >= 1 && seg.Runnable(seg.streamOff, IGNORE_LAST)
    ensures seg.TargetOf(IGNORE_LAST) == |seg.stream|
    ensures seg.stackelm.Length >= 1 && seg.StreamFor(seg.streamOff) == seg.stream
  {
  }

  lemma PartAdded(d: seq<int>, l: seq<nat>, e: seq<int>, m: seq<nat>, all: seq<int>, first: nat, last: nat, ptr: int)
    requires first <= last <= |all| && |d| == |l| && Expand(d, l) == Shift(all[..first], ptr)
    requires Flattened(e, m, all[first..last], ptr)
    ensures Expand(d + e, l + m) == Shift(all[..last], ptr)
  {
    hide Expand, Shift, NoAbutting;
    TakeMore(all, first, last);
    BothParts(d, l, e, m, all[..first], all[first..last], ptr);
  }

  lemma TakeMore<T>(s: seq<T>, a: nat, b: nat)
    requires a <= b <= |s|
    ensures s[..b] == s[..a] + s[a..b]
  {
  }

  lemma BothParts(d: seq<int>, l: seq<nat>, e: seq<int>, m: seq<nat>, x: seq<int>, y: seq<int>, ptr: int)
    requires |d| == |l| && |e| == |m| && Expand(d, l) == Shift(x, ptr) && Expand(e, m) == Shift(y, ptr)
    ensures Expand(d + e, l + m) == Shift(x + y, ptr)
  {
    hide Expand, Shift;
    ExpandAppend(d, l, e, m);
    ShiftAppend(x, y, ptr);
  }

  lemma FlattenReady(seg: Segment, first: nat, last: int)
    requires seg.Valid() && seg.Runnable(first, last) && first != last
    ensures seg.root.LeafSize() >= 1 && seg.stackelm.Length >= 1
    ensures first <= seg.TargetOf(last) <= |seg.stream| == |seg.StreamFor(first)|
  {
    seg.StreamLen(first);
    seg.TargetAfter(first, last);
  }

  lemma FlattenEnd(seg: Segment, first: nat, lastIn: int, f: FlattenParams)
    requires seg.root.LeafSize() >= 1 && f.Valid() && first < seg.TargetOf(lastIn) <= |seg.stream|
    requires first <= seg.streamOff <= |seg.stream| && f.emitted == [] + seg.stream[first..seg.streamOff]
    requires seg.Stopped(Flatten(f), lastIn)
    ensures Flattened(f.D(), f.B(), seg.stream[first..seg.streamOff], f.bufp)
    ensures FlattenStopped(seg.stream, first, seg.streamOff, seg.TargetOf(lastIn), f.index, f.length)
  {
    assert f.emitted == seg.stream[first..seg.streamOff];
    EntryCount(f.D(), f.B(), f.emitted, f.bufp);
    var s, last := seg.stream, seg.streamOff;
    if last < seg.TargetOf(lastIn) {
      assert f.Full(s[last]);
      assert f.emitted[|f.emitted| - 1] == s[last - 1];
    }
  }

  /* ---------- counting ---------- */

  /** Segment_count_contig_blocks on a run to the end. */
  method CountContigBlocks(seg: Segment, first: nat) returns (count: nat)
    requires seg.Valid() && seg.Parked() && seg.Runnable(first, IGNORE_LAST) && first < |seg.stream|
    requires Separated(seg.root.LeafLoop())
    modifies seg, seg.stackelm
    ensures seg.Valid() && seg.Parked() && seg.stream == old(seg.StreamFor(first))
    ensures first < |seg.stream| && count == Runs(seg.stream[first..])
  {
    hide Segment.Valid, Runs, Separated;
    var params := new CountParams();
    assert CountBlocks(params).Valid() && seg.Apart(CountBlocks(params));
    EngineReady(seg, first);
    var last := seg.Manipulate(first, IGNORE_LAST, CountBlocks(params));
    count := params.count;
    CountEnd(seg, first, params);
  }

  lemma EngineReady(seg: Segment, first: nat)
    requires seg.Valid() && seg.Runnable(first, IGNORE_LAST)
    ensures seg.root.LeafSize() >= 1 && seg.stackelm.Length >= 1 && first <= seg.TargetOf(IGNORE_LAST)
    ensures seg.TargetOf(IGNORE_LAST) == |seg.stream| == |seg.StreamFor(first)|
  {
    seg.StreamLen(first);
    seg.TargetAfter(first, IGNORE_LAST);
  }

  lemma CountEnd(seg: Segment, first: nat, c: CountParams)
    requires seg.root.LeafSize() >= 1 && c.Valid() && first < |seg.stream|
    requires first <= seg.streamOff <= |seg.stream| && c.emitted == seg.stream[first..seg.streamOff]
    requires seg.Stopped(CountBlocks(c), IGNORE_LAST)
    ensures c.count == Runs(seg.stream[first..])
  {
    assert seg.stream[first..|seg.stream|] == seg.stream[first..];
  }

  /** Counting and flattening agree: an array with as many entries as were counted takes the whole stream,
      one with fewer does not. */
  lemma CountIsRoom(stream: seq<int>, first: nat, last: nat, length: nat, room: nat)
    requires first < |stream| && first <= last
    requires FlattenStopped(stream, first, last, |stream|, length, room)
    ensures last == |stream| <==> Runs(stream[first..]) <= room
    ensures last == |stream| ==> length == Runs(stream[first..])
  {
    RoomForAll(stream, first, last, |stream|, length, room);
    assert stream[first..|stream|] == stream[first..];
  }
}
