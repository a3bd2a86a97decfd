/** Packing and unpacking whole buffers, in windows cut anywhere between elements. */
module RoundTrips {
  import opened Dataloops
  import opened LeafBlocks
  import opened Memory
  import opened Segments
  import opened TypedCopy
  import opened Windows

  /** Positions from 0 to the end of the stream, each at an element. */
  ghost predicate Cuts(root: Loop, cuts: seq<nat>)
    requires root.LeafSize() >= 1
  {
    && |cuts| >= 1 && cuts[0] == 0 && cuts[|cuts| - 1] == Size(root)
    && forall k: nat | k + 1 < |cuts| :: IsWindow(root, cuts[k], cuts[k + 1])
  }

  /** Packing window by window fills the stream buffer with the selected bytes in stream order. */
  method PackAll(seg: Segment, user: array<byte>, origin: int, stream: array<byte>, cuts: seq<nat>,
                 typed: set<nat>)
    requires Idle(seg) && Cuts(seg.root, cuts)
    requires user != stream && Size(seg.root) <= stream.Length
    requires Inside(Bytes(seg.root, 0), origin, user.Length)
    modifies seg, seg.stackelm, stream
    ensures Idle(seg)
    ensures stream[..Size(seg.root)] == Gather(user[..], origin, Bytes(seg.root, 0))
    ensures stream[Size(seg.root)..] == old(stream[Size(seg.root)..])
  {
    assert seg.root.LeafSize() >= 1;
    hide Segment.Valid, Bytes, InSync, Idle;
    ghost var places, tail := Bytes(seg.root, 0), stream[Size(seg.root)..];
    ghost var all := Gather(user[..], origin, places);
    IdleInSync(seg);
    for n := 0 to |cuts| - 1
      invariant cuts[n] <= |places| && InSync(seg, cuts[n])
      invariant stream[..cuts[n]] == all[..cuts[n]]
      invariant stream[|places|..] == tail
    {
      assert IsWindow(seg.root, cuts[n], cuts[n + 1]);
      PackNext(seg, cuts[n], cuts[n + 1], user, origin, stream, typed);
    }
    assert stream[..Size(seg.root)] == all;
    InSyncIdle(seg);
  }

  /** One more window of a packing pass. */
  method PackNext(seg: Segment, a: nat, b: nat, user: array<byte>, origin: int, stream: array<byte>, typed: set<nat>)
    requires seg.root.LeafSize() >= 1 && IsWindow(seg.root, a, b) && InSync(seg, a)
    requires user != stream && Size(seg.root) <= stream.Length
    requires Inside(Bytes(seg.root, 0), origin, user.Length)
    requires stream[..a] == Gather(user[..], origin, Bytes(seg.root, 0))[..a]
    modifies seg, seg.stackelm, stream
    ensures InSync(seg, b)
    ensures stream[..b] == Gather(user[..], origin, Bytes(seg.root, 0))[..b]
    ensures stream[Size(seg.root)..] == old(stream[Size(seg.root)..])
  {
    hide Segment.Valid, Bytes, Gather, InSync;
    ghost var places, before := Bytes(seg.root, 0), stream[..];
    ghost var all := Gather(user[..], origin, places);
    InSyncReady(seg, a);
    InsideSlice(places, origin, user.Length, a, b);
    PackWindow(seg, a, b, user, origin, stream, a, typed, places);
    AfterOnMap(seg, b);
    InSyncAt(seg, b);
    GatherSlice(user[..], origin, places, a, b);
    PackStep(before, stream[..], all, a, b, |places|);
  }

  lemma GatherSlice(mem: seq<byte>, origin: int, places: seq<int>, a: nat, b: nat)
    requires Inside(places, origin, |mem|) && a <= b <= |places|
    ensures |Gather(mem, origin, places)| == |places| && Inside(places[a..b], origin, |mem|)
    ensures Gather(mem, origin, places)[a..b] == Gather(mem, origin, places[a..b])
  {
  }

  lemma PackStep(before: seq<byte>, after: seq<byte>, all: seq<byte>, a: nat, b: nat, n: nat)
    requires a <= b <= n == |all| <= |before|
    requires before[..a] == all[..a]
    requires after == before[..a] + all[a..b] + before[b..]
    ensures after[..b] == all[..b] && after[n..] == before[n..]
  {
    assert all[..b] == all[..a] + all[a..b];
  }

  /** The bytes of s that are stored at the places of the first n windows. */
  ghost function Unpacked(root: Loop, typed: set<nat>, s: seq<byte>, cuts: seq<nat>, n: nat): (r: seq<byte>)
    requires root.WellFormed() && root.LeafSize() >= 1 && Cuts(root, cuts) && n < |cuts| && Size(root) <= |s|
    ensures cuts[n] <= Size(root) && |r| == cuts[n]
  {
    if n == 0 then [] else
      assert IsWindow(root, cuts[n - 1], cuts[n]);
      Unpacked(root, typed, s, cuts, n - 1)
      + Drawing(root, typed, s, cuts[n - 1], cuts[n - 1], cuts[n] - cuts[n - 1])
  }

  /** The data of every window is what it would be if each block had the bytes of the first one behind the part of
      an instance that the window begins with. */
  ghost predicate Repeats(root: Loop, s: seq<byte>, cuts: seq<nat>)
    requires root.WellFormed() && root.LeafSize() >= 1 && Cuts(root, cuts) && Size(root) <= |s|
  {
    forall k: nat | k + 1 < |cuts| :: RepeatsIn(root, s, cuts[k], cuts[k + 1])
  }

  ghost predicate RepeatsIn(root: Loop, s: seq<byte>, a: nat, b: nat)
    requires root.WellFormed() && a <= b <= |s|
  {
    var leaf := root.LeafLoop();
    && PeriodOf(leaf) >= 1 && InstanceOf(leaf) >= 1
    && forall k: nat | k < b - a :: s[a + Source(k, HeadOf(a, InstanceOf(leaf)), PeriodOf(leaf))] == s[a + k]
  }

  /** The pieces move along the stream buffer, or it does not matter for the data. */
  ghost predicate StoredRightly(root: Loop, typed: set<nat>, s: seq<byte>, cuts: seq<nat>)
    requires root.WellFormed() && root.LeafSize() >= 1 && Cuts(root, cuts) && Size(root) <= |s|
  {
    Unpackable(root, typed) || Repeats(root, s, cuts)
  }

  lemma DrawingRight(root: Loop, typed: set<nat>, s: seq<byte>, a: nat, b: nat)
    requires root.WellFormed() && a <= b <= |s|
    ensures Drawing(root, typed, s, a, a, b - a) == s[a..b] <==> Unpackable(root, typed) || RepeatsIn(root, s, a, b)
  {
    hide Source, HeadOf, Drawn, PeriodOf, InstanceOf, Loop.LeafLoop, Loop.WellFormed;
    if !Unpackable(root, typed) {
      var leaf := root.LeafLoop();
      LeafWellFormed(root);
      InstanceIs(leaf);
      DrawnIs(s, a, HeadOf(a, InstanceOf(leaf)), PeriodOf(leaf), b - a);
    }
  }

  lemma {:induction false} UnpackedRight(root: Loop, typed: set<nat>, s: seq<byte>, cuts: seq<nat>, n: nat)
    requires root.WellFormed() && root.LeafSize() >= 1 && Cuts(root, cuts) && n < |cuts| && Size(root) <= |s|
    ensures |Unpacked(root, typed, s, cuts, n)| == cuts[n] <= |s|
    ensures Unpacked(root, typed, s, cuts, n) == s[..cuts[n]] <==>
            Unpackable(root, typed) || forall k: nat | k < n :: RepeatsIn(root, s, cuts[k], cuts[k + 1])
    decreases n
  {
    hide Drawing, RepeatsIn, Unpackable, Size;
    if n > 0 {
      var m := n - 1;
      assert IsWindow(root, cuts[m], cuts[m + 1]);
      UnpackedRight(root, typed, s, cuts, m);
      DrawingRight(root, typed, s, cuts[m], cuts[n]);
      var before := Unpacked(root, typed, s, cuts, m);
      var more := Drawing(root, typed, s, cuts[m], cuts[m], cuts[n] - cuts[m]);
      SameParts(before, more, s[..cuts[m]], s[cuts[m]..cuts[n]]);
      assert s[..cuts[n]] == s[..cuts[m]] + s[cuts[m]..cuts[n]];
    }
  }

  lemma SameParts<T>(a: seq<T>, b: seq<T>, c: seq<T>, d: seq<T>)
    requires |a| == |c|
    ensures a + b == c + d <==> a == c && b == d
  {
    assert (a + b)[..|a|] == a && (a + b)[|a|..] == b;
    assert (c + d)[..|a|] == c && (c + d)[|a|..] == d;
  }

  /** The whole stream is stored as it is if and only if that holds. */
  lemma AllRight(root: Loop, typed: set<nat>, s: seq<byte>, cuts: seq<nat>)
    requires root.WellFormed() && root.LeafSize() >= 1 && Cuts(root, cuts) && Size(root) <= |s|
    ensures Unpacked(root, typed, s, cuts, |cuts| - 1) == s[..Size(root)] <==> StoredRightly(root, typed, s, cuts)
  {
    UnpackedRight(root, typed, s, cuts, |cuts| - 1);
  }

  /** Only the stream itself matters. */
  lemma PrefixMatters(root: Loop, typed: set<nat>, s: seq<byte>, cuts: seq<nat>)
    requires root.WellFormed() && root.LeafSize() >= 1 && Cuts(root, cuts) && Size(root) <= |s|
    ensures StoredRightly(root, typed, s[..Size(root)], cuts) <==> StoredRightly(root, typed, s, cuts)
  {
    var t := s[..Size(root)];
    forall k: nat | k + 1 < |cuts|
      ensures RepeatsIn(root, t, cuts[k], cuts[k + 1]) <==> RepeatsIn(root, s, cuts[k], cuts[k + 1])
    {
      assert IsWindow(root, cuts[k], cuts[k + 1]);
    }
  }

  /** One more window of an unpacking pass. */
  method UnpackNext(seg: Segment, a: nat, b: nat, user: array<byte>, origin: int, stream: array<byte>,
                    typed: set<nat>, ghost mem0: seq<byte>, ghost done: seq<byte>)
    requires seg.root.LeafSize() >= 1 && IsWindow(seg.root, a, b) && InSync(seg, a) && seg.root.WellFormed()
    requires user != stream && Size(seg.root) <= stream.Length && |done| == a
    requires Inside(Bytes(seg.root, 0), origin, user.Length) && |mem0| == user.Length
    requires Inside(Bytes(seg.root, 0)[..a], origin, user.Length)
    requires user[..] == Scatter(mem0, origin, Bytes(seg.root, 0)[..a], done)
    modifies seg, seg.stackelm, user
    ensures InSync(seg, b)
    ensures Inside(Bytes(seg.root, 0)[..b], origin, user.Length)
    ensures user[..] == Scatter(mem0, origin, Bytes(seg.root, 0)[..b],
                                done + Drawing(seg.root, typed, stream[..], a, a, b - a))
  {
    hide Segment.Valid, Bytes, Scatter, InSync, Drawing;
    ghost var places, more := Bytes(seg.root, 0), Drawing(seg.root, typed, stream[..], a, a, b - a);
    InSyncReady(seg, a);
    InsideSlice(places, origin, user.Length, a, b);
    UnpackDrawn(seg, a, b, user, origin, stream, a, typed, places);
    AfterOnMap(seg, b);
    InSyncAt(seg, b);
    ScatterAppend(mem0, origin, places[..a], done, places[a..b], more);
    assert places[..b] == places[..a] + places[a..b];
  }

  const TWO_BLOCKS := Leaf(BlockIndexed(2, [0, 16]), 4, 4)

  lemma TwoBlocks()
    ensures TWO_BLOCKS.WellFormed() && TWO_BLOCKS.LeafSize() == 4
    ensures Size(TWO_BLOCKS) == 16 && Distinct(Bytes(TWO_BLOCKS, 0))
    ensures InstanceOf(TWO_BLOCKS) == 16 && PeriodOf(TWO_BLOCKS) == 8
  {
    LeafElems(TWO_BLOCKS, 0, 2);
    LeafElems(TWO_BLOCKS, 16, 2);
    assert Bytes(TWO_BLOCKS, 0) == Run(0, 8) + (Run(16, 8) + []);
  }

  /** Two blocks of two elements of four bytes: if they differ, unpacking them by typed assignments fails. */
  lemma TypedLosesData(s: seq<byte>)
    requires |s| == 16 && s[8] != s[0]
    ensures TWO_BLOCKS.WellFormed() && TWO_BLOCKS.LeafSize() == 4 && Size(TWO_BLOCKS) == 16
    ensures Distinct(Bytes(TWO_BLOCKS, 0)) && Cuts(TWO_BLOCKS, [0, 16])
    ensures !StoredRightly(TWO_BLOCKS, {4}, s, [0, 16])
  {
    hide Size, Bytes, Distinct, PeriodOf, InstanceOf;
    TwoBlocks();
    assert IsWindow(TWO_BLOCKS, 0, 16);
    assert Source(8, HeadOf(0, 16), 8) == 0;
    assert s[0 + Source(8, HeadOf(0, 16), 8)] != s[0 + 8];
    assert !RepeatsIn(TWO_BLOCKS, s, [0, 16][0], [0, 16][1]);
  }

  lemma UnpackedStart(root: Loop, typed: set<nat>, s: seq<byte>, cuts: seq<nat>)
    requires root.WellFormed() && root.LeafSize() >= 1 && Cuts(root, cuts) && Size(root) <= |s|
    ensures |cuts| >= 1 && Unpacked(root, typed, s, cuts, 0) == [] && cuts[0] == 0 && cuts[|cuts| - 1] == Size(root)
  {
  }

  lemma UnpackedNext(root: Loop, typed: set<nat>, s: seq<byte>, cuts: seq<nat>, n: nat)
    requires root.WellFormed() && root.LeafSize() >= 1 && Cuts(root, cuts) && n + 1 < |cuts| && Size(root) <= |s|
    ensures IsWindow(root, cuts[n], cuts[n + 1]) && |Unpacked(root, typed, s, cuts, n)| == cuts[n]
    ensures Unpacked(root, typed, s, cuts, n + 1)
         == Unpacked(root, typed, s, cuts, n) + Drawing(root, typed, s, cuts[n], cuts[n], cuts[n + 1] - cuts[n])
  {
  }

  /** Unpacking window by window stores, at the selected places, the stream's bytes or those drawn in their stead.
      For a type that selects no byte twice, these are right if and only if the pieces move along or the data
      repeats. */
  method UnpackAll(seg: Segment, user: array<byte>, origin: int, stream: array<byte>, cuts: seq<nat>,
                   typed: set<nat>)
    requires Idle(seg) && Cuts(seg.root, cuts) && seg.root.WellFormed()
    requires user != stream && Size(seg.root) <= stream.Length
    requires Inside(Bytes(seg.root, 0), origin, user.Length)
    modifies seg, seg.stackelm, user
    ensures Idle(seg)
    ensures user[..] == Scatter(old(user[..]), origin, Bytes(seg.root, 0),
                                Unpacked(seg.root, typed, stream[..], cuts, |cuts| - 1))
    ensures StoredRightly(seg.root, typed, stream[..], cuts) ==>
      user[..] == Scatter(old(user[..]), origin, Bytes(seg.root, 0), stream[..Size(seg.root)])
    ensures Distinct(Bytes(seg.root, 0)) && !StoredRightly(seg.root, typed, stream[..], cuts) ==>
      user[..] != Scatter(old(user[..]), origin, Bytes(seg.root, 0), stream[..Size(seg.root)])
  {
    hide Segment.Valid, Bytes, InSync, Idle, Drawing, Scatter, StoredRightly, Distinct, Inside, Unpacked;
    hide Loop.WellFormed;
    LeafSizePositive(seg.root);
    UnpackedStart(seg.root, typed, stream[..], cuts);
    ghost var places, mem0, data := Bytes(seg.root, 0), user[..], stream[..];
    IdleInSync(seg);
    NothingStored(mem0, origin, places);
    for n := 0 to |cuts| - 1
      invariant cuts[n] <= |places| && InSync(seg, cuts[n])
      invariant Inside(places[..cuts[n]], origin, user.Length)
      invariant user[..] == Scatter(mem0, origin, places[..cuts[n]], Unpacked(seg.root, typed, data, cuts, n))
    {
      UnpackedNext(seg.root, typed, data, cuts, n);
      ghost var done := Unpacked(seg.root, typed, data, cuts, n);
      UnpackNext(seg, cuts[n], cuts[n + 1], user, origin, stream, typed, mem0, done);
    }
    assert places[..|places|] == places;
    InSyncIdle(seg);
    AllRight(seg.root, typed, data, cuts);
    if Distinct(places) {
      DrawnRight(mem0, origin, places, Unpacked(seg.root, typed, data, cuts, |cuts| - 1), data[..|places|]);
    }
  }

  lemma NothingStored(mem: seq<byte>, origin: int, places: seq<int>)
    ensures Inside(places[..0], origin, |mem|) && Scatter(mem, origin, places[..0], []) == mem
  {
  }

  /** Every byte that the type selects is as in `from`, every other one as before. */
  ghost predicate Restored(to: seq<byte>, before: seq<byte>, from: seq<byte>, origin: int, places: seq<int>)
    requires |to| == |before| == |from|
  {
    forall i: nat | i < |to| :: to[i] == if i - origin in places then from[i] else before[i]
  }

  lemma RestoredIs(to: seq<byte>, before: seq<byte>, from: seq<byte>, origin: int, places: seq<int>)
    requires |to| == |before| == |from| && Inside(places, origin, |to|)
    ensures Restored(to, before, from, origin, places)
       <==> to == Scatter(before, origin, places, Gather(from, origin, places))
  {
    var all := Scatter(before, origin, places, Gather(from, origin, places));
    forall i: nat | i < |to| ensures all[i] == if i - origin in places then from[i] else before[i] {
      ScatterGather(before, from, origin, places, i);
    }
  }

  /** Pack, then unpack into another buffer: every byte that the type selects is restored and all others
      are untouched, for any windows of either pass and also when bytes are selected several times, if the bytes are
      stored rightly; if no byte is selected several times, only then. */
  method PackUnpack(seg: Segment, from: array<byte>, to: array<byte>, origin: int, stream: array<byte>,
                    cuts: seq<nat>, cuts2: seq<nat>, typed: set<nat>)
    requires Idle(seg) && Cuts(seg.root, cuts) && Cuts(seg.root, cuts2) && seg.root.WellFormed()
    requires from != stream && to != stream && from != to && from.Length == to.Length
    requires Size(seg.root) <= stream.Length
    requires Inside(Bytes(seg.root, 0), origin, from.Length)
    modifies seg, seg.stackelm, to, stream
    ensures StoredRightly(seg.root, typed, Gather(from[..], origin, Bytes(seg.root, 0)), cuts2) ==>
      Restored(to[..], old(to[..]), from[..], origin, Bytes(seg.root, 0))
    ensures Distinct(Bytes(seg.root, 0)) && Restored(to[..], old(to[..]), from[..], origin, Bytes(seg.root, 0)) ==>
      StoredRightly(seg.root, typed, Gather(from[..], origin, Bytes(seg.root, 0)), cuts2)
    ensures from[..] == old(from[..])
  {
    hide Segment.Valid, Bytes, Idle, Scatter, StoredRightly, Unpacked, Restored, Distinct;
    ghost var places, mem0 := Bytes(seg.root, 0), to[..];
    LeafSizePositive(seg.root);
    PackAll(seg, from, origin, stream, cuts, typed);
    PrefixMatters(seg.root, typed, stream[..], cuts2);
    UnpackAll(seg, to, origin, stream, cuts2, typed);
    RestoredIs(to[..], mem0, from[..], origin, places);
  }

  /** Unpack, then pack: when the type selects no byte twice, the stream comes back if and only if it was stored
      rightly. */
  method UnpackPack(seg: Segment, user: array<byte>, origin: int, stream: array<byte>, stream2: array<byte>,
                    cuts: seq<nat>, cuts2: seq<nat>, typed: set<nat>)
    requires Idle(seg) && Cuts(seg.root, cuts) && Cuts(seg.root, cuts2) && seg.root.WellFormed()
    requires user != stream && user != stream2 && stream != stream2
    requires Size(seg.root) <= stream.Length && Size(seg.root) <= stream2.Length
    requires Inside(Bytes(seg.root, 0), origin, user.Length) && Distinct(Bytes(seg.root, 0))
    modifies seg, seg.stackelm, user, stream2
    ensures stream2[..Size(seg.root)] == stream[..Size(seg.root)] <==>
            StoredRightly(seg.root, typed, stream[..], cuts)
  {
    hide Segment.Valid, Bytes, Idle, Distinct, Scatter, StoredRightly, Unpacked;
    ghost var places, n := Bytes(seg.root, 0), |cuts| - 1;
    LeafSizePositive(seg.root);
    UnpackAll(seg, user, origin, stream, cuts, typed);
    GatherScatter(old(user[..]), origin, places, Unpacked(seg.root, typed, stream[..], cuts, n));
    PackAll(seg, user, origin, stream2, cuts2, typed);
    AllRight(seg.root, typed, stream[..], cuts);
  }
}
