/** The inbound engine: packets are given space and written, become ready when their last burst is acknowledged,
    are sent to the cluster in order of arrival, and give back their space when feedback comes, in any order. */
module NicInbounds {
  import opened Memory
  import opened Axi
  import opened AxiMasters
  import opened Rings
  import opened NicQueues
  import opened NicMemories

  /* ---------- the engine ---------- */

  class NicInbound {
    const ring: Ring
    const axi: AxiMaster
    var incoming: seq<Packet>   // from the network
    var queued: seq<Her>        // space given, write in flight
    var ready: seq<Her>         // written
    var pktmap: map<nat, nat>   // in the cluster: address and size
    var hersToSend: nat
    ghost var arrived: seq<Packet>     // all packets, in order
    ghost var accepted: seq<Her>  // all that got space, in order
    ghost var sent: seq<Her>      // all that were sent, in order
    ghost var bursts: seq<nat>    // the bursts of each accepted packet's write
    ghost var acks: nat           // acknowledgements received
    ghost var origin: map<nat, nat>    // which packet it is that is in the cluster at an address

    /** Accepted packets keep their order through the queues. */
    ghost predicate Chained()
      reads this
    {
      accepted == sent + (ready + queued)
    }

    /** They are accepted in order of arrival. */
    ghost predicate InOrder()
      reads this
    {
      && Chained()
      && |accepted| <= |arrived| && arrived[|accepted|..] == incoming
      && Ids(accepted) == PacketIds(arrived[..|accepted|])
      && hersToSend == |ready| + |queued| + |incoming|
      && forall k: nat | k < |incoming| :: incoming[k].data != []
    }

    /** A completed write is a queued packet. */
    ghost predicate Wired()
      reads this, axi
    {
      && |bursts| == |accepted|
      && Acknowledged(bursts, axi.writeQueue, acks)
      && |queued| == |axi.writeQueue| + Completions(axi.bQueue)
    }

    /** Every packet in flight is in one place, and owns its slot. */
    ghost predicate Housed()
      reads this, ring
    {
      && ring.Valid() && Aligned(ring.base)
      && Placed(ready + queued, pktmap, ring.Live(), ring.freeReq, ring.base)
      && ring.inFlight == |queued| + |ready| + |pktmap| + |ring.freeReq|
    }

    /** The data of every packet in flight is in memory once all beats issued are written. */
    ghost predicate Stored()
      reads this, axi
    {
      Filled(axi.awPending, axi.wPending, sent, ready + queued, arrived, pktmap, origin)
    }

    ghost predicate Valid()
      reads this, ring, axi
    {
      InOrder() && Wired() && Housed() && Stored()
    }

    constructor (l2PktBuffStart: nat, l2PktBuffSize: nat)
      requires Aligned(l2PktBuffStart)
      ensures Valid() && arrived == [] && fresh(ring) && fresh(axi)
      ensures ring.base == l2PktBuffStart && ring.size == l2PktBuffSize && ring.Live() == [] && !ring.Stuck()
      ensures incoming == [] && queued == [] && ready == [] && pktmap == map[] && axi.awPending == []
    {
      var r := new Ring(l2PktBuffStart, l2PktBuffSize);
      var a := new AxiMaster();
      ring, axi := r, a;
      incoming, queued, ready, pktmap, hersToSend := [], [], [], map[], 0;
      arrived, accepted, sent, bursts, acks, origin := [], [], [], [], 0, map[];
    }

    method AddPacket(p: Packet)
      requires Valid() && p.data != []
      modifies this`incoming, this`hersToSend, this`arrived
      ensures Valid() && arrived == old(arrived) + [p] && incoming == old(incoming) + [p]
    {
      hide Acknowledged, Completions, Placed, Ring.Valid, Aligned, Filled;
      FilledMore(axi.awPending, axi.wPending, sent, ready + queued, arrived, pktmap, origin, p);
      assert (arrived + [p])[..|accepted|] == arrived[..|accepted|];
      incoming := incoming + [p];
      hersToSend := hersToSend + 1;
      arrived := arrived + [p];
    }

    /** process_packet: a packet that fits gets a slot of its own; its bytes are written there, and nothing
        outside the slot is touched. */
    method ProcessPacket(id: nat, data: seq<byte>)
      returns (ok: bool, her: Her, ghost bs: seq<Burst>, ghost ws: seq<WBeat>)
      requires Chained() && Wired() && Housed() && data != []
      modifies this`queued, this`bursts, this`accepted, ring, axi
      ensures Chained() && Wired() && Housed()
      ensures ok <==> old(ring.HasRoom(Rounded(|data|)))
      ensures !ok ==> accepted == old(accepted) && queued == old(queued) && axi.wPending == old(axi.wPending)
      ensures ok ==> her.id == id && her.size == |data|
      ensures ok ==> accepted == old(accepted) + [her] && queued == old(queued) + [her]
      ensures ok ==> axi.awPending == old(axi.awPending) + Beats(bs) && axi.wPending == old(axi.wPending) + ws
      ensures ok ==> Transfers(Beats(bs), ws, her.addr, data, her.addr + Rounded(|data|)) && her.addr >= ring.base
      ensures ok ==> ring.Live() == old(ring.Live()) + [Slot(her.addr - ring.base, Rounded(|data|))]
      ensures ring.freeReq == old(ring.freeReq) && (!ok ==> axi.awPending == old(axi.awPending))
      ensures axi.bQueue == old(axi.bQueue)
      ensures axi.writeQueue == old(axi.writeQueue) + if ok then [|bs|] else []
      ensures bursts == old(bursts) + if ok then [|bs|] else []
    {
      hide Rounded, Transfers, Beats, Acknowledged, Completions, Placed, Pending, Ring.Valid, Ring.HasRoom, Aligned;
      her, bs, ws := Her(id, 0, 0), [], [];
      ghost var live := ring.Live();
      var addr;
      ok, addr := Allocate(|data|);
      if !ok {
        return;
      }
      her := Her(id, addr, |data|);
      Push(her, live);
      bs, ws := WriteSlot(addr, data);
    }

    method Allocate(size: nat) returns (ok: bool, addr: nat)
      requires Housed() && size >= 1
      modifies ring
      ensures ring.Valid() && ring.freeReq == old(ring.freeReq) && Pending(old(ring.Live()), ring.freeReq)
      ensures ok <==> old(ring.HasRoom(Rounded(size)))
      ensures !ok ==> Housed()
      ensures ok ==> addr >= ring.base && Aligned(addr)
      ensures ok ==> ring.Live() == old(ring.Live()) + [Slot(addr - ring.base, Rounded(size))]
      ensures ok ==> ring.inFlight == old(ring.inFlight) + 1
    {
      hide Rounded, Placed, Pending, Ring.HasRoom, Ring.Stuck;
      ghost var live := ring.Live();
      ok, addr := ring.AllocatePktSpace(size);
      if ok {
        ring.SlotInside(|live|);
      } else {
        assert ring.Live() == live;
      }
    }

    /** The packet is queued: it owns the new slot. */
    method Push(her: Her, ghost live: seq<Slot>)
      requires Chained() && ring.Valid() && Aligned(ring.base) && her.addr >= ring.base
      requires Placed(ready + queued, pktmap, live, ring.freeReq, ring.base) && Pending(live, ring.freeReq)
      requires ring.Live() == live + [Slot(her.addr - ring.base, Rounded(her.size))]
      requires ring.inFlight == |queued| + |ready| + |pktmap| + |ring.freeReq| + 1
      modifies this`queued, this`accepted
      ensures Chained() && Housed()
      ensures accepted == old(accepted) + [her] && queued == old(queued) + [her]
    {
      ghost var s := Slot(her.addr - ring.base, Rounded(her.size));
      NewSlot(ring, live, s);
      PlacedAccept(ready + queued, pktmap, live, ring.freeReq, ring.base, her, s);
      hide Ring.Valid, Placed, Rounded, Pending, NewOffset;
      BackGrows(sent, ready, queued, her);
      queued := queued + [her];
      accepted := accepted + [her];
    }

    /** The packet is written to its slot. */
    method WriteSlot(addr: nat, data: seq<byte>) returns (ghost bs: seq<Burst>, ghost ws: seq<WBeat>)
      requires data != [] && Aligned(addr)
      requires |bursts| + 1 == |accepted| && Acknowledged(bursts, axi.writeQueue, acks)
      requires |queued| == |axi.writeQueue| + 1 + Completions(axi.bQueue)
      modifies this`bursts, axi
      ensures Wired()
      ensures axi.awPending == old(axi.awPending) + Beats(bs) && axi.wPending == old(axi.wPending) + ws
      ensures Transfers(Beats(bs), ws, addr, data, addr + Rounded(|data|))
      ensures axi.bQueue == old(axi.bQueue) && axi.writeQueue == old(axi.writeQueue) + [|bs|]
      ensures bursts == old(bursts) + [|bs|]
    {
      hide Transfers, Split, Acknowledged, Rounded, ReachAll, Beats, Aligned;
      assert data[0..0 + |data|] == data;
      ghost var queue := axi.writeQueue;
      bs, ws := axi.Write(addr, data, |data|, 0);
      InSlot(bs, addr, |data|);
      Widen(Beats(bs), ws, addr, data, ReachAll(bs, addr), addr + Rounded(|data|));
      AckWrite(bursts, queue, acks, |bs|);
      bursts := bursts + [|bs|];
    }

    predicate FirstFits()
      reads this, ring
    {
      incoming != [] && ring.HasRoom(Rounded(|incoming[0].data|))
    }

    /** What serving a packet did: it has a HER, and the beats added put its data at the address of that, in a slot of
        its own. */
    twostate predicate Served(p: Packet, her: Her, bs: seq<Burst>, ws: seq<WBeat>)
      reads this, ring, axi
    {
      && var data := p.data;
      && HerOf(her, p)
      && axi.awPending == old(axi.awPending) + Beats(bs) && axi.wPending == old(axi.wPending) + ws
      && Transfers(Beats(bs), ws, her.addr, data, her.addr + Rounded(|data|)) && her.addr >= ring.base
      && ring.Live() == old(ring.Live()) + [Slot(her.addr - ring.base, Rounded(|data|))]
    }

    /** progress_incoming_packets: the first packet that came is served if there is room for it. */
    method ProgressIncomingPackets(waiting: bool) returns (ghost bs: seq<Burst>, ghost ws: seq<WBeat>)
      requires Valid()
      modifies this`incoming, this`queued, this`bursts, this`accepted, ring, axi
      ensures Valid() && axi.bQueue == old(axi.bQueue)
      ensures var serves := !waiting && old(FirstFits());
        if serves then
          && incoming == old(incoming)[1..] && |accepted| == |old(accepted)| + 1
          && var her := accepted[|old(accepted)|];
          && accepted == old(accepted) + [her] && queued == old(queued) + [her]
          && axi.writeQueue == old(axi.writeQueue) + [|bs|] && bursts == old(bursts) + [|bs|]
          && Served(old(incoming)[0], her, bs, ws)
        else
          && incoming == old(incoming) && accepted == old(accepted) && queued == old(queued)
          && axi.writeQueue == old(axi.writeQueue) && bursts == old(bursts)
          && axi.awPending == old(axi.awPending) && axi.wPending == old(axi.wPending)
    {
      hide Wired, Housed, Rounded, Ring.HasRoom, Transfers, Ids, PacketIds, Beats, Filled;
      bs, ws := [], [];
      if incoming == [] || waiting {
        return;
      }
      var ih := incoming[0];
      ghost var before, live := accepted, ring.Live();
      ghost var aw0, w0, hers0 := axi.awPending, axi.wPending, ready + queued;
      assert ih.data != [] && ih == arrived[|accepted|];
      PlacedNow();
      var ok, her;
      ok, her, bs, ws := ProcessPacket(ih.id, ih.data);
      if ok {
        RingNow();
        FilledWrite(ring, live, ring.freeReq, aw0, w0, sent, hers0, arrived, pktmap, origin, Beats(bs), ws, her);
        assert ready + queued == hers0 + [her];
        PopIncoming(before, her);
      }
    }

    lemma PlacedNow()
      requires Housed()
      ensures Placed(ready + queued, pktmap, ring.Live(), ring.freeReq, ring.base)
    {
    }

    lemma RingNow()
      requires Housed()
      ensures ring.Valid()
    {
    }

    method PopIncoming(ghost before: seq<Her>, ghost her: Her)
      requires Chained() && Wired() && Housed() && Stored() && incoming != []
      requires |before| < |arrived| && arrived[|before|..] == incoming && Ids(before) == PacketIds(arrived[..|before|])
      requires accepted == before + [her] && her.id == incoming[0].id
      requires hersToSend == |ready| + |queued| + |incoming| - 1
      requires forall k: nat | k < |incoming| :: incoming[k].data != []
      modifies this`incoming
      ensures Valid() && incoming == old(incoming)[1..]
    {
      hide Ring.Valid, Acknowledged, Completions, Placed, Aligned, Filled;
      ArrivedSame(before, arrived, her);
      incoming := incoming[1..];
    }

    /** b_posedge: one acknowledgement, of the oldest burst. */
    method BPosedge()
      requires Valid() && axi.writeQueue != []
      modifies this`acks, axi`writeQueue, axi`bQueue
      ensures Valid() && acks == old(acks) + 1
      ensures axi.bQueue == old(axi.bQueue) + [old(axi.writeQueue)[0] == 1]
      ensures old(axi.writeQueue)[0] >= 1 && axi.writeQueue == AckNext(old(axi.writeQueue))
    {
      hide Acknowledged, Completions, Placed, Ring.Valid, Aligned, Ids, PacketIds, Filled;
      AckOne(bursts, axi.writeQueue, acks);
      var left := axi.writeQueue[0] - 1;
      var isComplete := left == 0;
      CompletionsPush(axi.bQueue, isComplete);
      if isComplete {
        axi.writeQueue := axi.writeQueue[1..];
      } else {
        axi.writeQueue := axi.writeQueue[0 := left];
      }
      axi.bQueue := axi.bQueue + [isComplete];
      acks := acks + 1;
    }

    /** progress_axi_write_responses */
    method ProgressAxiWriteResponses()
      requires Valid()
      modifies this`queued, this`ready, axi`bQueue
      ensures Valid() && ready + queued == old(ready + queued)
      ensures var completes := old(axi.bQueue) != [] && old(axi.bQueue)[0];
        && ready == old(ready) + (if completes then [old(queued[0])] else [])
        && queued == if completes then old(queued[1..]) else old(queued)
      ensures axi.bQueue == AfterFirst(old(axi.bQueue))
    {
      hide Acknowledged, Placed, Ring.Valid, Aligned, Ids, PacketIds, Filled;
      if axi.bQueue == [] {
        return;
      }
      var writeCompleted := axi.bQueue[0];
      axi.bQueue := axi.bQueue[1..];
      if writeCompleted {
        assert queued != [];
        assert ready + queued == (ready + [queued[0]]) + queued[1..];
        queued, ready := queued[1..], ready + [queued[0]];
      }
    }

    /** A HER is sent only when all bursts of its packet, and of those before it, are acknowledged. */
    lemma ReadyIsWritten(n: nat)
      requires Valid() && n <= |sent| + |ready|
      ensures n <= |bursts| && SumTo(bursts, n) <= acks
    {
      LeftQueue(bursts, axi.writeQueue, acks, n);
    }

    /** her_progress_posedge */
    method HerProgressPosedge(herReady: bool)
      requires Valid()
      modifies this`ready, this`pktmap, this`hersToSend, this`sent, this`origin
      ensures ready == if herReady && old(ready) != [] then old(ready)[1..] else old(ready)
      ensures Valid() && sent == old(sent) + if herReady && old(ready) != [] then [old(ready)[0]] else []
      ensures pktmap == if herReady && old(ready) != []
                then old(pktmap)[old(ready)[0].addr := old(ready)[0].size] else old(pktmap)
    {
      if !herReady || ready == [] {
        return;
      }
      SendFirst();
    }

    method SendFirst()
      requires Valid() && ready != []
      modifies this`ready, this`pktmap, this`hersToSend, this`sent, this`origin
      ensures Valid() && sent == old(sent) + [old(ready)[0]] && ready == old(ready)[1..]
      ensures pktmap == old(pktmap)[old(ready)[0].addr := old(ready)[0].size]
    {
      hide Ring.Valid, Acknowledged, Completions, Placed, Ids, PacketIds, Aligned, Filled;
      var her := ready[0];
      FilledSend(axi.awPending, axi.wPending, sent, ready + queued, arrived, pktmap, origin);
      FirstNotMapped(ready + queued, pktmap, ring.Live(), ring.freeReq, ring.base);
      FrontMoves(sent, ready, queued);
      PlacedSend(ready + queued, pktmap, ring.Live(), ring.freeReq, ring.base);
      assert her.addr !in pktmap;
      MapGrows(pktmap, her.addr, her.size);
      hersToSend := hersToSend - 1;
      ready := ready[1..];
      pktmap, origin := pktmap[her.addr := her.size], origin[her.addr := |sent|];
      sent := sent + [her];
    }

    /** feedback_progress: feedback for a packet in the cluster frees its slot. */
    method FeedbackProgress(addr: nat, size: nat)
      requires Valid() && (addr in pktmap ==> Rounded(size) == Rounded(pktmap[addr]))
      modifies this`pktmap, this`origin, ring
      ensures Valid() && pktmap == old(pktmap) - {addr}
      ensures ring.Stuck() <==> old(ring.Stuck())
      ensures addr !in old(pktmap) ==> unchanged(ring)
      ensures addr in old(pktmap) ==>
        && addr >= ring.base
        && AfterFree(old(ring.Live()), old(ring.freeReq), ring.Live(), ring.freeReq, addr - ring.base,
             old(ring.Stuck()))
        && ring.inFlight - |ring.freeReq| == old(ring.inFlight) - old(|ring.freeReq|) - 1
    {
      hide Acknowledged, Completions, Placed, AfterFree, Rounded, Ring.Valid, Ring.Live, Ring.Stuck, Filled;
      FilledGone(axi.awPending, axi.wPending, sent, ready + queued, arrived, pktmap, origin, addr);
      if addr in pktmap {
        MappedSlot(addr, size);
        ghost var live, freed, stuck := ring.Live(), ring.freeReq, ring.Stuck();
        FreeSlot(addr, size);
        PlacedFree(ready + queued, pktmap, live, freed, ring.Live(), ring.freeReq, ring.base, addr, stuck);
        RemovedOne(pktmap, addr);
        pktmap, origin := pktmap - {addr}, origin - {addr};
      } else {
        assert pktmap - {addr} == pktmap;
      }
    }

    /** Feedback for a packet carries the address and the size that were sent. */
    predicate Carries(hers: seq<Her>, addr: nat, size: nat)
      reads this
    {
      && (addr in pktmap ==> Rounded(size) == Rounded(pktmap[addr]))
      && forall k: nat | k < |hers| && hers[k].addr == addr :: Rounded(size) == Rounded(hers[k].size)
    }

    /** The acknowledgements to be looked at, with one that may come now. */
    function Responses(bValid: bool): seq<bool>
      reads this, axi
    {
      axi.bQueue + if bValid && axi.writeQueue != [] then [axi.writeQueue[0] == 1] else []
    }

    /** The packets that have been written once the first of them has been looked at. */
    function Written(bValid: bool): seq<Her>
      reads this, axi
    {
      var acked := Responses(bValid);
      if acked != [] && acked[0] && queued != [] then ready + [queued[0]] else ready
    }

    /** The first half of a cycle: an acknowledgement may come, and the oldest one is looked at. */
    method Acknowledge(bValid: bool)
      requires Valid() && (bValid ==> axi.writeQueue != [])
      modifies this`acks, this`queued, this`ready, axi`writeQueue, axi`bQueue
      ensures Valid() && acks == old(acks) + (if bValid then 1 else 0) && ready + queued == old(ready + queued)
      ensures ready == old(Written(bValid)) && axi.writeQueue == AckIf(old(axi.writeQueue), bValid)
      ensures axi.bQueue == AfterFirst(old(Responses(bValid)))
    {
      hide InOrder, Wired, Housed, Stored;
      if bValid {
        BPosedge();
      }
      ProgressAxiWriteResponses();
    }

    /** One clock cycle: an acknowledgement may come for a burst that awaits one, and feedback for a packet. A packet
        that is written now becomes ready, the first packet that came is served if there is room, the first ready
        packet is sent if the cluster takes it, and the packet of the feedback is gone from the cluster. */
    method Posedge(bValid: bool, waiting: bool, herReady: bool, feedbackAddr: nat, feedbackSize: nat)
      requires Valid() && (bValid ==> axi.writeQueue != [])
      requires Carries(ready + queued, feedbackAddr, feedbackSize)
      modifies this, ring, axi
      ensures Valid() && arrived == old(arrived) && acks == old(acks) + if bValid then 1 else 0
      ensures var serves := !waiting && old(FirstFits());
        && incoming == (if serves then old(incoming)[1..] else old(incoming))
        && |accepted| == old(|accepted|) + (if serves then 1 else 0)
        && old(accepted) <= accepted && old(bursts) <= bursts
        && |axi.writeQueue| == |AckIf(old(axi.writeQueue), bValid)| + (if serves then 1 else 0)
      ensures var written := old(Written(bValid));
        var sends := herReady && written != [];
        && sent == old(sent) + (if sends then [written[0]] else [])
        && ready == (if sends then written[1..] else written)
        && pktmap == (if sends then old(pktmap)[written[0].addr := written[0].size] else old(pktmap)) - {feedbackAddr}
      ensures axi.bQueue == AfterFirst(old(Responses(bValid)))
      ensures AckIf(old(axi.writeQueue), bValid) <= axi.writeQueue
    {
      hide InOrder, Wired, Housed, Stored, Rounded, Served, Ring.HasRoom, Ring.Live, Ring.Stuck, AfterFree, Written,
        Responses, AckIf;
      Acknowledge(bValid);
      ghost var hers := ready + queued;
      assert forall k: nat | k < |ready| :: ready[k] == hers[k];
      ghost var _, _ := ProgressIncomingPackets(waiting);
      HerProgressPosedge(herReady);
      FeedbackProgress(feedbackAddr, feedbackSize);
    }

    /** HERs are sent in the order of arrival, each after all bursts of its packet are acknowledged; none is left to
        send, which is when the end of the stream is announced, if and only if all that arrived were sent. */
    lemma SentInOrder()
      requires Valid()
      ensures Ids(sent) <= PacketIds(arrived)
      ensures hersToSend == 0 <==> Ids(sent) == PacketIds(arrived)
      ensures |sent| <= |bursts| && SumTo(bursts, |sent|) <= acks
    {
      SentFirst(sent, ready + queued, arrived);
      ReadyIsWritten(|sent|);
    }

    /** What the environment may do now: acknowledge a burst that awaits it, give correct feedback. */
    predicate Possible(e: Event)
      reads this, axi
    {
      match e
      case Arrives(p) => p.data != []
      case Cycle(bValid, _, _, addr, size) => (bValid ==> axi.writeQueue != []) && Carries(ready + queued, addr, size)
    }

    /** Any run: whatever the environment does, as long as it is possible, no assertion of the engine fails, what
        arrives is sent in that order, and the data of every packet in flight is where its HER says. */
    method Run(events: seq<Event>)
      requires Valid()
      modifies this, ring, axi
      ensures Valid() && arrived == old(arrived) + Arrivals(events)
      ensures Filled(axi.awPending, axi.wPending, sent, ready + queued, arrived, pktmap, origin)
      ensures Ids(sent) <= PacketIds(arrived) && (hersToSend == 0 <==> Ids(sent) == PacketIds(arrived))
      ensures |sent| <= |bursts| && SumTo(bursts, |sent|) <= acks
      ensures ring.inFlight == |queued| + |ready| + |pktmap| + |ring.freeReq|
    {
      hide InOrder, Wired, Placed, Filled, Ring.Valid, Aligned, Carries, Ids, PacketIds, SumTo;
      for i := 0 to |events|
        invariant Valid() && arrived == old(arrived) + Arrivals(events[..i])
      {
        assert events[..i + 1][..i] == events[..i];
        if Possible(events[i]) {
          Happen(events[i]);
        }
      }
      assert events[..|events|] == events;
      SentInOrder();
    }

    /** The size that was sent, or will be sent, with an address. */
    function SentSize(addr: nat): nat
      reads this
    {
      if addr in pktmap then pktmap[addr] else SizeAt(ready + queued, addr)
    }

    lemma SentSizeCarries(addr: nat)
      requires Housed()
      ensures Carries(ready + queued, addr, SentSize(addr))
    {
      hide Ring.Valid, Owned, Aligned, Rounded;
      var hers := ready + queued;
      forall k: nat | k < |hers| && hers[k].addr == addr ensures Rounded(SentSize(addr)) == Rounded(hers[k].size) {
        SizeOf(hers, k);
      }
    }

    /** How many more cycles the packets that have space need, when no more get it. */
    ghost function Left(): nat
      requires Wired()
      reads this, axi
    {
      AckDue(bursts, axi.writeQueue, acks);
      SumTo(bursts, |bursts|) - acks + |axi.bQueue| + |ready|
    }

    /** A cycle in which a burst is acknowledged, if one awaits it, and the cluster takes what is sent. */
    method DrainCycle(feedbackAddr: nat)
      requires Valid()
      modifies this, ring, axi
      ensures Valid() && accepted == old(accepted) && incoming == old(incoming) && arrived == old(arrived)
      ensures Left() == 0 || Left() < old(Left())
    {
      hide InOrder, Housed, Stored, Carries, FirstFits, Acknowledged, Completions, SentSize, SumTo, AckIf;
      SentSizeCarries(feedbackAddr);
      AckDue(bursts, axi.writeQueue, acks);
      ghost var before := bursts;
      Posedge(axi.writeQueue != [], true, true, feedbackAddr, SentSize(feedbackAddr));
      assert accepted == old(accepted);
      assert bursts[..|bursts|] == before[..|before|];
      assert bursts == before && acks <= SumTo(bursts, |bursts|);
    }

    /** Whatever feedback comes, every packet that got space is sent in so many cycles, if each burst is acknowledged
        and the cluster takes what is sent. */
    method Drain(feedback: seq<nat>)
      requires Valid() && |feedback| >= Left()
      modifies this, ring, axi
      ensures Valid() && arrived == old(arrived) && accepted == old(accepted)
      ensures sent == accepted && ready == [] && queued == []
    {
      ghost var left := Left();
      for i := 0 to |feedback|
        invariant Valid() && arrived == old(arrived) && accepted == old(accepted)
        invariant Left() == 0 || Left() + i <= left
      {
        DrainCycle(feedback[i]);
      }
      NoneLeft();
    }

    lemma NoneLeft()
      requires Valid() && Left() == 0
      ensures sent == accepted && ready == [] && queued == []
    {
      hide Housed, Stored, Acknowledged;
      AckDue(bursts, axi.writeQueue, acks);
    }

    method Happen(e: Event)
      requires Valid() && Possible(e)
      modifies this, ring, axi
      ensures Valid()
      ensures arrived == old(arrived) + if e.Arrives? then [e.packet] else []
    {
      match e
      case Arrives(p) => AddPacket(p);
      case Cycle(bValid, waiting, herReady, addr, size) => Posedge(bValid, waiting, herReady, addr, size);
    }

    /** The slot of a packet in the cluster can be freed: it is in use, and no free of it is pending. */
    lemma MappedSlot(addr: nat, size: nat)
      requires Housed() && addr in pktmap && Rounded(size) == Rounded(pktmap[addr])
      ensures addr >= ring.base && addr - ring.base !in ring.freeReq
      ensures ring.CanFree(Slot(addr - ring.base, Rounded(size)))
    {
      OwnedSlot(ring.Live(), ring.freeReq, ring.base, addr, pktmap[addr]);
    }

    method FreeSlot(addr: nat, size: nat)
      requires ring.Valid() && addr >= ring.base && ring.CanFree(Slot(addr - ring.base, Rounded(size)))
      modifies ring
      ensures ring.Valid() && (ring.Stuck() <==> old(ring.Stuck()))
      ensures AfterFree(old(ring.Live()), old(ring.freeReq), ring.Live(), ring.freeReq, addr - ring.base,
                        old(ring.Stuck()))
      ensures ring.inFlight - |ring.freeReq| == old(ring.inFlight) - old(|ring.freeReq|) - 1
    {
      ring.FreePktSpace(addr, size);
    }
  }

  lemma FrontMoves(sent: seq<Her>, ready: seq<Her>, queued: seq<Her>)
    requires ready != []
    ensures (ready + queued)[0] == ready[0] && (ready + queued)[1..] == ready[1..] + queued
    ensures sent + (ready + queued) == (sent + [ready[0]]) + (ready[1..] + queued)
  {
  }

  lemma BackGrows(sent: seq<Her>, ready: seq<Her>, queued: seq<Her>, h: Her)
    ensures (ready + queued) + [h] == ready + (queued + [h])
    ensures sent + (ready + queued) + [h] == sent + (ready + (queued + [h]))
  {
  }

  /** What was sent is the first part of what arrived, and all of it if nothing else is left. */
  lemma SentFirst(sent: seq<Her>, rest: seq<Her>, arrived: seq<Packet>)
    requires |sent| + |rest| <= |arrived| && Ids(sent + rest) == PacketIds(arrived[..|sent + rest|])
    ensures Ids(sent) <= PacketIds(arrived) && (Ids(sent) == PacketIds(arrived) <==> |sent| == |arrived|)
  {
    var n := |sent + rest|;
    assert PacketIds(arrived)[..n] == PacketIds(arrived[..n]);
    assert Ids(sent + rest)[..|sent|] == Ids(sent);
    assert PacketIds(arrived)[..n][..|sent|] == PacketIds(arrived)[..|sent|];
  }

  lemma ArrivedSame(accepted: seq<Her>, arrived: seq<Packet>, h: Her)
    requires |accepted| < |arrived| && h.id == arrived[|accepted|].id
    requires Ids(accepted) == PacketIds(arrived[..|accepted|])
    ensures Ids(accepted + [h]) == PacketIds(arrived[..|accepted| + 1])
    ensures arrived[|accepted|..][1..] == arrived[|accepted| + 1..]
  {
    var k := |accepted|;
    assert arrived[..k + 1] == arrived[..k] + [arrived[k]];
    assert PacketIds(arrived[..k + 1]) == PacketIds(arrived[..k]) + [arrived[k].id];
    assert Ids(accepted + [h]) == Ids(accepted) + [h.id];
  }

  /** The writes of a packet change no byte of another slot that is in use. */
  lemma OtherSlotsKept(r: Ring, live: seq<Slot>, addr: nat, data: seq<byte>, aw: seq<AxBeat>, ws: seq<WBeat>, k: nat,
                       a: nat, before: byte)
    requires r.Valid() && addr >= r.base && r.Live() == live + [Slot(addr - r.base, Rounded(|data|))]
    requires Transfers(aw, ws, addr, data, addr + Rounded(|data|))
    requires k < |live| && r.base + live[k].offset <= a < r.base + live[k].End()
    ensures ByteAt(Lines(aw), ws, a, before) == before
  {
    hide Ring.Valid, Rounded, ByteAt;
    r.SlotsApart(k, |live|);
    assert r.Live()[k] == live[k] && r.Live()[|live|] == Slot(addr - r.base, Rounded(|data|));
  }

  /** A new slot begins where no other one does. */
  lemma NewSlot(r: Ring, live: seq<Slot>, s: Slot)
    requires r.Valid() && r.Live() == live + [s] && Pending(live, r.freeReq)
    ensures NewOffset(live, s) && s.offset !in r.freeReq
  {
    forall k: nat | k < |live| ensures live[k].offset != s.offset {
      r.SlotsApart(k, |live|);
      r.SlotInside(k);
      r.SlotInside(|live|);
      assert r.Live()[k] == live[k] && r.Live()[|live|] == s;
    }
  }

  /** A write of n bytes at the start of a slot touches nothing outside it. */
  lemma InSlot(bursts: seq<Burst>, addr: nat, n: nat)
    requires Split(bursts, addr, addr + n, addr + n) && n >= 1 && Aligned(addr)
    ensures ReachAll(bursts, addr) <= addr + Rounded(n)
  {
    hide Split, Legal, Reach, Rounded, Line;
    LastBurst(bursts, addr, n);
    ReachInLine(bursts[|bursts| - 1]);
    LineRounded(addr, n);
  }

  lemma LastBurst(bursts: seq<Burst>, addr: nat, n: nat)
    requires Split(bursts, addr, addr + n, addr + n) && n >= 1
    ensures bursts != [] && Legal(bursts[|bursts| - 1]) && bursts[|bursts| - 1].End() == addr + n
  {
  }

  lemma LineRounded(addr: nat, n: nat)
    requires n >= 1 && Aligned(addr)
    ensures (Line(addr + n - 1) + 1) * AXI_SW <= addr + Rounded(n)
  {
  }

  /** The bytes behind the data may be taken to reach to the end of the slot. */
  lemma Widen(aw: seq<AxBeat>, ws: seq<WBeat>, addr: nat, src: seq<byte>, reach: nat, reach': nat)
    requires Transfers(aw, ws, addr, src, reach) && reach <= reach'
    ensures Transfers(aw, ws, addr, src, reach')
  {
  }

  lemma MapGrows(m: map<nat, nat>, k: nat, v: nat)
    requires k !in m
    ensures |m[k := v]| == |m| + 1
  {
    assert m[k := v].Keys == m.Keys + {k};
    assert |m.Keys| == |m| && |m[k := v].Keys| == |m[k := v]|;
  }

  lemma OwnedSlot(live: seq<Slot>, freed: map<nat, nat>, base: nat, addr: nat, size: nat)
    requires Owned(live, freed, base, addr, size)
    ensures addr >= base && exists k: nat :: k < |live| && live[k] == Slot(addr - base, Rounded(size))
  {
    var k: nat :| At(live, k, addr - base) && live[k].size == Rounded(size);
    assert live[k] == Slot(addr - base, Rounded(size));
  }
}
