/** The packet handler on the NIC: every packet of a message is scattered to host memory by one run of
    the segment of its flow. */
module NicHandler {
  import opened Dataloops
  import opened Memory
  import opened M2m
  import opened Pieces
  import opened Segments
  import opened Displacements
  import opened Histories
  import opened Windows

  /** A packet carries the message bytes from `off` on. */
  datatype Packet = Packet(off: nat, payload: array<byte>)

  /** A packet that starts and ends at elements of the type and lies inside the message. */
  ghost predicate Aligned(root: Loop, pkt: Packet)
    requires root.LeafSize() >= 1
  {
    && pkt.off % root.LeafSize() == 0
    && pkt.payload.Length % root.LeafSize() == 0
    && pkt.off + pkt.payload.Length <= Size(root)
  }

  lemma AlignedEnd(off: nat, len: nat, elSize: nat)
    requires elSize >= 1 && off % elSize == 0 && len % elSize == 0
    ensures (off + len) % elSize == 0
  {
    StepAligned(off, len / elSize, elSize);
    assert len == (len / elSize) * elSize;
  }

  /** datatypes_ph: the payload becomes the stream buffer, and the segment runs over the packet's range: the bytes
      go to the places of that range in the stream that the segment draws on. An empty packet changes nothing. */
  method PayloadHandler(seg: Segment, host: array<byte>, userbuf: int, pkt: Packet, ghost all: seq<int>)
    requires seg.root.LeafSize() >= 1 && Aligned(seg.root, pkt) && Due(seg, pkt.off, all)
    requires host != pkt.payload
    requires Inside(all[pkt.off..pkt.off + pkt.payload.Length], userbuf, host.Length)
    modifies seg, seg.stackelm, host
    ensures if pkt.payload.Length > 0
            then After(seg, all, pkt.off + pkt.payload.Length) && seg.orderly == old(seg.OrderlyFor(pkt.off))
            else unchanged(seg, seg.stackelm)
    ensures host[..] == Scatter(old(host[..]), userbuf, all[pkt.off..pkt.off + pkt.payload.Length], pkt.payload[..])
  {
    hide Segment.Valid, Inside, After;
    var end := pkt.off + pkt.payload.Length;
    if pkt.off == end {
      var params := new M2mParams(host, userbuf, pkt.payload, 0, true, {});
      var last := seg.Manipulate(pkt.off, end, Dma(params));
    } else {
      AlignedEnd(pkt.off, pkt.payload.Length, seg.root.LeafSize());
      UnpackWindow(seg, pkt.off, end, host, userbuf, pkt.payload, 0, true, {}, all);
      assert pkt.payload[0..pkt.payload.Length] == pkt.payload[..];
    }
  }

  /* ---------- whole messages ---------- */

  /** The packets carry parts of message msg. */
  ghost predicate Carries(root: Loop, pkts: seq<Packet>, msg: seq<byte>, host: array<byte>)
    requires root.LeafSize() >= 1 && |msg| == Size(root)
    reads set pkt | pkt in pkts :: pkt.payload
  {
    forall pkt | pkt in pkts ::
      && Aligned(root, pkt) && pkt.payload != host
      && pkt.payload[..] == msg[pkt.off..pkt.off + pkt.payload.Length]
  }

  /** done, with positions a..b-1 marked as well. */
  ghost function Mark(done: seq<bool>, a: nat, b: nat): seq<bool> {
    seq(|done|, p requires 0 <= p < |done| => done[p] || a <= p < b)
  }

  /** x is the place of a message byte that has arrived. */
  ghost predicate Marked(places: seq<int>, done: seq<bool>, x: int) {
    exists p: nat :: p < |places| && p < |done| && done[p] && places[p] == x
  }

  /** Host memory once the message bytes marked in `done` have arrived: they are in place, all else is as
      it was. */
  ghost predicate InPlace(mem: seq<byte>, mem0: seq<byte>, userbuf: int, places: seq<int>, msg: seq<byte>,
                          done: seq<bool>)
  {
    && |mem| == |mem0| && |places| == |msg| == |done| && Inside(places, userbuf, |mem|)
    && (forall p: nat | p < |done| && done[p] :: mem[userbuf + places[p]] == msg[p])
    && (forall i: nat | i < |mem| && !Marked(places, done, i - userbuf) :: mem[i] == mem0[i])
  }

  lemma MarkedSlice(places: seq<int>, done: seq<bool>, a: nat, b: nat, x: int)
    requires a <= b <= |places| == |done|
    ensures x in places[a..b] ==> Marked(places, Mark(done, a, b), x)
    ensures Marked(places, done, x) ==> Marked(places, Mark(done, a, b), x)
  {
    if x in places[a..b] {
      var k: nat :| k < b - a && places[a..b][k] == x;
      assert Mark(done, a, b)[a + k] && places[a + k] == x;
    }
    if Marked(places, done, x) {
      var p: nat :| p < |places| && p < |done| && done[p] && places[p] == x;
      assert Mark(done, a, b)[p];
    }
  }

  /** One more packet. */
  lemma InPlaceStep(mem: seq<byte>, mem0: seq<byte>, userbuf: int, places: seq<int>, msg: seq<byte>,
                    done: seq<bool>, a: nat, b: nat, mem': seq<byte>)
    requires InPlace(mem, mem0, userbuf, places, msg, done) && Distinct(places)
    requires a <= b <= |places| && Inside(places[a..b], userbuf, |mem|)
    requires mem' == Scatter(mem, userbuf, places[a..b], msg[a..b])
    ensures InPlace(mem', mem0, userbuf, places, msg, Mark(done, a, b))
  {
    hide Scatter;
    var offs, vals := places[a..b], msg[a..b];
    forall p: nat | p < |done| && Mark(done, a, b)[p]
      ensures mem'[userbuf + places[p]] == msg[p]
    {
      if a <= p < b {
        ScatterDistinct(mem, userbuf, offs, vals, p - a);
        assert offs[p - a] == places[p] && vals[p - a] == msg[p];
      } else {
        ScatterAt(mem, userbuf, offs, vals, userbuf + places[p]);
        assert places[p] !in offs;
      }
    }
    forall i: nat | i < |mem| && !Marked(places, Mark(done, a, b), i - userbuf)
      ensures mem'[i] == mem0[i]
    {
      MarkedSlice(places, done, a, b, i - userbuf);
      ScatterAt(mem, userbuf, offs, vals, i);
    }
  }

  /** All bytes arrived: host memory is as after one unpack of the whole message. */
  lemma InPlaceAll(mem: seq<byte>, mem0: seq<byte>, userbuf: int, places: seq<int>, msg: seq<byte>, done: seq<bool>)
    requires InPlace(mem, mem0, userbuf, places, msg, done) && Distinct(places)
    requires forall p: nat | p < |done| :: done[p]
    ensures mem == Scatter(mem0, userbuf, places, msg)
  {
    var full := Scatter(mem0, userbuf, places, msg);
    forall i: nat | i < |mem|
      ensures mem[i] == full[i]
    {
      ScatterAt(mem0, userbuf, places, msg, i);
      if i - userbuf in places {
        var p: nat :| p < |places| && places[p] == i - userbuf;
        ScatterDistinct(mem0, userbuf, places, msg, p);
        assert done[p];
      }
    }
  }

  lemma InPlaceNone(mem: seq<byte>, userbuf: int, places: seq<int>, msg: seq<byte>, done: seq<bool>)
    requires |places| == |msg| == |done| && Inside(places, userbuf, |mem|)
    requires forall p: nat | p < |done| :: !done[p]
    ensures InPlace(mem, mem, userbuf, places, msg, done)
  {
  }

  /** Which of the n message bytes the packets carry. */
  ghost function Carried(pkts: seq<Packet>, n: nat): (done: seq<bool>)
    ensures |done| == n
  {
    if pkts == [] then seq(n, _ => false)
    else
      var pkt := pkts[|pkts| - 1];
      Mark(Carried(pkts[..|pkts| - 1], n), pkt.off, pkt.off + pkt.payload.Length)
  }

  /** One packet of the message, wherever in it. */
  method Arrive(seg: Segment, host: array<byte>, userbuf: int, pkt: Packet, ghost msg: seq<byte>,
                ghost mem0: seq<byte>, ghost done: seq<bool>)
    requires OnMap(seg) && Resettable(seg.root) && Aligned(seg.root, pkt)
    requires |msg| == Size(seg.root) && host != pkt.payload
    requires pkt.payload[..] == msg[pkt.off..pkt.off + pkt.payload.Length]
    requires Inside(Bytes(seg.root, 0), userbuf, host.Length) && Distinct(Bytes(seg.root, 0))
    requires InPlace(host[..], mem0, userbuf, Bytes(seg.root, 0), msg, done)
    modifies seg, seg.stackelm, host
    ensures OnMap(seg)
    ensures InPlace(host[..], mem0, userbuf, Bytes(seg.root, 0), msg,
                    Mark(done, pkt.off, pkt.off + pkt.payload.Length))
  {
    hide Segment.Valid, Bytes, InPlace, Distinct, Inside, Resettable, Scatter, Mark, After;
    ghost var places, mem, a, b := Bytes(seg.root, 0), host[..], pkt.off, pkt.off + pkt.payload.Length;
    AlwaysExact(seg, a);
    InsideSlice(places, userbuf, host.Length, a, b);
    PayloadHandler(seg, host, userbuf, pkt, places);
    if a < b {
      AfterOnMap(seg, b);
    }
    InPlaceStep(mem, mem0, userbuf, places, msg, done, a, b, host[..]);
  }

  /** Packets of one message, cut at any elements, in any order, repeated or overlapping: once every byte
      has been carried by some packet, host memory is as after one unpack of the whole message, for a
      resettable loop whose byte map selects no byte twice. */
  method Deliver(seg: Segment, host: array<byte>, userbuf: int, pkts: seq<Packet>, ghost msg: seq<byte>)
    requires OnMap(seg) && Resettable(seg.root)
    requires |msg| == Size(seg.root) && Carries(seg.root, pkts, msg, host)
    requires Inside(Bytes(seg.root, 0), userbuf, host.Length) && Distinct(Bytes(seg.root, 0))
    modifies seg, seg.stackelm, host
    ensures InPlace(host[..], old(host[..]), userbuf, Bytes(seg.root, 0), msg, Carried(pkts, |msg|))
    ensures (forall p: nat | p < |msg| :: Carried(pkts, |msg|)[p]) ==>
              host[..] == Scatter(old(host[..]), userbuf, Bytes(seg.root, 0), msg)
  {
    hide Segment.Valid, Bytes, InPlace, Distinct, Inside, Resettable, Mark, Scatter;
    ghost var places, mem0, len := Bytes(seg.root, 0), host[..], |msg|;
    assert pkts[..0] == [];
    InPlaceNone(mem0, userbuf, places, msg, Carried([], len));
    for n := 0 to |pkts|
      invariant OnMap(seg)
      invariant Carries(seg.root, pkts, msg, host)
      invariant InPlace(host[..], mem0, userbuf, places, msg, Carried(pkts[..n], len))
    {
      var pkt := pkts[n];
      assert pkt in pkts;
      Arrive(seg, host, userbuf, pkt, msg, mem0, Carried(pkts[..n], len));
      assert pkts[..n + 1][..n] == pkts[..n];
    }
    assert pkts[..|pkts|] == pkts;
    if forall p: nat | p < len :: Carried(pkts, len)[p] {
      InPlaceAll(host[..], mem0, userbuf, places, msg, Carried(pkts, len));
    }
  }

  /* ---------- messages delivered in stream order ---------- */

  /** The first n packets follow one another from the start of the message. */
  ghost predicate InOrder(pkts: seq<Packet>, n: nat)
    requires n <= |pkts|
  {
    forall k: nat | k < n ::
      pkts[k].off == if k == 0 then 0 else pkts[k - 1].off + pkts[k - 1].payload.Length
  }

  ghost function EndOf(pkts: seq<Packet>, n: nat): nat
    requires n <= |pkts|
  {
    if n == 0 then 0 else pkts[n - 1].off + pkts[n - 1].payload.Length
  }

  /** One packet that goes on where the last one ended. */
  method NextPacket(seg: Segment, host: array<byte>, userbuf: int, pkt: Packet, ghost msg: seq<byte>,
                    ghost mem0: seq<byte>)
    requires InSync(seg, pkt.off) && seg.root.LeafSize() >= 1 && Aligned(seg.root, pkt)
    requires |msg| == Size(seg.root) && host != pkt.payload
    requires pkt.payload[..] == msg[pkt.off..pkt.off + pkt.payload.Length]
    requires Inside(Bytes(seg.root, 0), userbuf, host.Length) && |mem0| == host.Length
    requires Inside(Bytes(seg.root, 0)[..pkt.off], userbuf, host.Length)
    requires host[..] == Scatter(mem0, userbuf, Bytes(seg.root, 0)[..pkt.off], msg[..pkt.off])
    modifies seg, seg.stackelm, host
    ensures InSync(seg, pkt.off + pkt.payload.Length)
    ensures Inside(Bytes(seg.root, 0)[..pkt.off + pkt.payload.Length], userbuf, host.Length)
    ensures host[..] == Scatter(mem0, userbuf, Bytes(seg.root, 0)[..pkt.off + pkt.payload.Length],
                                msg[..pkt.off + pkt.payload.Length])
  {
    hide Segment.Valid, Bytes, Scatter, InSync;
    ghost var places, a, b := Bytes(seg.root, 0), pkt.off, pkt.off + pkt.payload.Length;
    InSyncReady(seg, a);
    InsideSlice(places, userbuf, host.Length, a, b);
    PayloadHandler(seg, host, userbuf, pkt, places);
    ScatterAppend(mem0, userbuf, places[..a], msg[..a], places[a..b], msg[a..b]);
    assert places[..b] == places[..a] + places[a..b];
    assert msg[..b] == msg[..a] + msg[a..b];
    if a < b {
      AfterOnMap(seg, b);
      InSyncAt(seg, b);
    }
  }

  lemma NothingScattered(mem: seq<byte>, userbuf: int, places: seq<int>, msg: seq<byte>)
    ensures Inside(places[..0], userbuf, |mem|) && Scatter(mem, userbuf, places[..0], msg[..0]) == mem
  {
  }

  /** In stream order no packet needs a reset: for any loop, also one that selects bytes twice, host memory is as
      after an unpack of the part of the message that has arrived; after the whole message the flow is ready for
      the next one. */
  method DeliverInOrder(seg: Segment, host: array<byte>, userbuf: int, pkts: seq<Packet>, ghost msg: seq<byte>)
    requires Idle(seg)
    requires |msg| == Size(seg.root) && Carries(seg.root, pkts, msg, host)
    requires InOrder(pkts, |pkts|)
    requires Inside(Bytes(seg.root, 0), userbuf, host.Length)
    modifies seg, seg.stackelm, host
    ensures EndOf(pkts, |pkts|) <= |msg| == |Bytes(seg.root, 0)| && InSync(seg, EndOf(pkts, |pkts|))
    ensures Inside(Bytes(seg.root, 0)[..EndOf(pkts, |pkts|)], userbuf, host.Length)
    ensures host[..] == Scatter(old(host[..]), userbuf, Bytes(seg.root, 0)[..EndOf(pkts, |pkts|)],
                                msg[..EndOf(pkts, |pkts|)])
    ensures EndOf(pkts, |pkts|) == |msg| ==>
              Idle(seg) && host[..] == Scatter(old(host[..]), userbuf, Bytes(seg.root, 0), msg)
  {
    hide Segment.Valid, Bytes, InSync, Idle, Scatter, Inside;
    ghost var places, mem0 := Bytes(seg.root, 0), host[..];
    IdleInSync(seg);
    NothingScattered(mem0, userbuf, places, msg);
    for n := 0 to |pkts|
      invariant Carries(seg.root, pkts, msg, host)
      invariant EndOf(pkts, n) <= |msg| && Inside(places[..EndOf(pkts, n)], userbuf, host.Length)
      invariant InSync(seg, EndOf(pkts, n))
      invariant host[..] == Scatter(mem0, userbuf, places[..EndOf(pkts, n)], msg[..EndOf(pkts, n)])
    {
      var pkt := pkts[n];
      assert pkt in pkts && EndOf(pkts, n) == pkt.off && EndOf(pkts, n + 1) == pkt.off + pkt.payload.Length;
      NextPacket(seg, host, userbuf, pkt, msg, mem0);
    }
    if EndOf(pkts, |pkts|) == |msg| {
      assert places[..|msg|] == places && msg[..|msg|] == msg;
      InSyncIdle(seg);
    }
  }
}
