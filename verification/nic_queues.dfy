/** What the queues of the inbound engine hold: packets with slots of their own, and acknowledgements in order. */
module NicQueues {
  import opened Memory
  import opened Rings

  /** A handler execution request. */
  datatype Her = Her(id: nat, addr: nat, size: nat)

  datatype Packet = Packet(id: nat, data: seq<byte>)

  /** A packet comes from the network, or a clock cycle passes with the given inputs. */
  datatype Event =
    | Arrives(packet: Packet)
    | Cycle(bValid: bool, waiting: bool, herReady: bool, feedbackAddr: nat, feedbackSize: nat)

  /* ---------- packets and their slots ---------- */

  /** The packet at addr has a slot of its own, not yet freed. */
  ghost predicate Owned(live: seq<Slot>, freed: map<nat, nat>, base: nat, addr: nat, size: nat) {
    && addr >= base && addr - base !in freed
    && exists k: nat :: At(live, k, addr - base) && live[k].size == Rounded(size)
  }

  /** The packets in the queues and those in the cluster own distinct slots. */
  ghost predicate Placed(hers: seq<Her>, pktmap: map<nat, nat>, live: seq<Slot>, freed: map<nat, nat>, base: nat) {
    && (forall i: nat | i < |hers| :: Owned(live, freed, base, hers[i].addr, hers[i].size) && hers[i].addr !in pktmap)
    && (forall i: nat, j: nat | i < j < |hers| :: hers[i].addr != hers[j].addr)
    && (forall a: nat | a in pktmap :: Owned(live, freed, base, a, pktmap[a]))
  }

  ghost predicate NewOffset(live: seq<Slot>, s: Slot) {
    forall k: nat | k < |live| :: live[k].offset != s.offset
  }

  lemma OwnedPush(live: seq<Slot>, freed: map<nat, nat>, base: nat, addr: nat, size: nat, s: Slot)
    requires Owned(live, freed, base, addr, size) && NewOffset(live, s)
    ensures Owned(live + [s], freed, base, addr, size) && addr != base + s.offset
  {
    var k: nat :| At(live, k, addr - base) && live[k].size == Rounded(size);
    assert At(live + [s], k, addr - base);
  }

  /** A packet is accepted. */
  lemma PlacedAccept(hers: seq<Her>, pktmap: map<nat, nat>, live: seq<Slot>, freed: map<nat, nat>, base: nat, h: Her,
                     s: Slot)
    requires Placed(hers, pktmap, live, freed, base) && NewOffset(live, s) && s.offset !in freed
    requires h.addr == base + s.offset && s.size == Rounded(h.size)
    ensures Placed(hers + [h], pktmap, live + [s], freed, base)
  {
    assert At(live + [s], |live|, s.offset);
    forall i: nat | i < |hers| ensures Owned(live + [s], freed, base, hers[i].addr, hers[i].size)
      && hers[i].addr != h.addr
    {
      OwnedPush(live, freed, base, hers[i].addr, hers[i].size, s);
    }
    forall a: nat | a in pktmap ensures Owned(live + [s], freed, base, a, pktmap[a]) && a != h.addr {
      OwnedPush(live, freed, base, a, pktmap[a], s);
    }
  }

  /** The first packet goes to the cluster. */
  lemma PlacedSend(hers: seq<Her>, pktmap: map<nat, nat>, live: seq<Slot>, freed: map<nat, nat>, base: nat)
    requires Placed(hers, pktmap, live, freed, base) && hers != []
    ensures Placed(hers[1..], pktmap[hers[0].addr := hers[0].size], live, freed, base)
  {
  }

  /** The next packet is not yet in the cluster, and no other there has its address. */
  lemma FirstNotMapped(hers: seq<Her>, pktmap: map<nat, nat>, live: seq<Slot>, freed: map<nat, nat>, base: nat)
    requires Placed(hers, pktmap, live, freed, base) && hers != []
    ensures hers[0].addr !in pktmap
  {
  }

  /** What a free leaves of the slots. */
  ghost predicate AfterFree(live: seq<Slot>, freed: map<nat, nat>, live': seq<Slot>, freed': map<nat, nat>,
                            offset: nat, stuck: bool)
  {
    && live' == (if stuck then live else DropFreed(live, freed.Keys + {offset}))
    && (forall k: nat | k < |live'| :: live'[k].offset in freed' <==> live'[k].offset in freed.Keys + {offset})
  }

  lemma OwnedFree(live: seq<Slot>, freed: map<nat, nat>, live': seq<Slot>, freed': map<nat, nat>, base: nat,
                  offset: nat, stuck: bool, addr: nat, size: nat)
    requires Owned(live, freed, base, addr, size) && addr - base != offset
    requires AfterFree(live, freed, live', freed', offset, stuck)
    ensures Owned(live', freed', base, addr, size)
  {
    var k: nat :| At(live, k, addr - base) && live[k].size == Rounded(size);
    var s := live[k];
    if live' != live {
      DropFreedKeeps(live, freed.Keys + {offset}, s, k);
    }
    var m: nat :| m < |live'| && live'[m] == s;
    assert At(live', m, addr - base);
    assert live'[m].offset !in freed.Keys + {offset};
  }

  /** A packet in the cluster gives back its space. */
  lemma PlacedFree(hers: seq<Her>, pktmap: map<nat, nat>, live: seq<Slot>, freed: map<nat, nat>, live': seq<Slot>,
                   freed': map<nat, nat>, base: nat, addr: nat, stuck: bool)
    requires Placed(hers, pktmap, live, freed, base) && addr in pktmap && addr >= base
    requires AfterFree(live, freed, live', freed', addr - base, stuck)
    ensures Placed(hers, pktmap - {addr}, live', freed', base)
  {
    forall i: nat | i < |hers| ensures Owned(live', freed', base, hers[i].addr, hers[i].size) {
      OwnedFree(live, freed, live', freed', base, addr - base, stuck, hers[i].addr, hers[i].size);
    }
    forall a: nat | a in pktmap - {addr} ensures Owned(live', freed', base, a, pktmap[a]) {
      OwnedFree(live, freed, live', freed', base, addr - base, stuck, a, pktmap[a]);
    }
  }

  /* ---------- acknowledgements ---------- */

  function SumTo(bursts: seq<nat>, n: nat): nat
    requires n <= |bursts|
  {
    if n == 0 then 0 else SumTo(bursts, n - 1) + bursts[n - 1]
  }

  lemma {:induction false} SumToPrefix(bursts: seq<nat>, more: seq<nat>, n: nat)
    requires n <= |bursts|
    ensures SumTo(bursts + more, n) == SumTo(bursts, n)
    decreases n
  {
    if n > 0 {
      SumToPrefix(bursts, more, n - 1);
    }
  }

  lemma {:induction false} SumToMonotone(bursts: seq<nat>, n: nat, m: nat)
    requires n <= m <= |bursts|
    ensures SumTo(bursts, n) <= SumTo(bursts, m)
    decreases m
  {
    if n < m {
      SumToMonotone(bursts, n, m - 1);
    }
  }

  /** The write queue holds what is yet to be acknowledged of the last writes; `acks` acknowledgements came. */
  ghost predicate Acknowledged(bursts: seq<nat>, queue: seq<nat>, acks: nat) {
    && |queue| <= |bursts|
    && var m := |bursts| - |queue|;
    && (forall k: nat | k < |bursts| :: bursts[k] >= 1)
    && (forall k: nat | 1 <= k < |queue| :: queue[k] == bursts[m + k])
    && (queue == [] ==> acks == SumTo(bursts, m))
    && (queue != [] ==> 1 <= queue[0] <= bursts[m] && acks == SumTo(bursts, m) + (bursts[m] - queue[0]))
  }

  lemma AckWrite(bursts: seq<nat>, queue: seq<nat>, acks: nat, n: nat)
    requires Acknowledged(bursts, queue, acks) && n >= 1
    ensures Acknowledged(bursts + [n], queue + [n], acks)
  {
    SumToPrefix(bursts, [n], |bursts| - |queue|);
  }

  /** One more acknowledgement: the next queue. */
  function AckNext(queue: seq<nat>): seq<nat>
    requires queue != [] && queue[0] >= 1
  {
    if queue[0] == 1 then queue[1..] else queue[0 := queue[0] - 1]
  }

  /** The queue after a cycle in which an acknowledgement may come. */
  function AckIf(queue: seq<nat>, valid: bool): seq<nat> {
    if valid && queue != [] && queue[0] >= 1 then AckNext(queue) else queue
  }

  /** The responses that are left when the first has been looked at. */
  function AfterFirst(responses: seq<bool>): seq<bool> {
    if responses == [] then [] else responses[1..]
  }

  /** Acknowledgements are due as long as a write is in the queue. */
  lemma AckDue(bursts: seq<nat>, queue: seq<nat>, acks: nat)
    requires Acknowledged(bursts, queue, acks)
    ensures acks <= SumTo(bursts, |bursts|) && (queue == [] <==> acks == SumTo(bursts, |bursts|))
  {
    if queue != [] {
      var m := |bursts| - |queue|;
      assert SumTo(bursts, m + 1) == SumTo(bursts, m) + bursts[m];
      SumToMonotone(bursts, m + 1, |bursts|);
    }
  }

  lemma AckOne(bursts: seq<nat>, queue: seq<nat>, acks: nat)
    requires Acknowledged(bursts, queue, acks) && queue != []
    ensures Acknowledged(bursts, AckNext(queue), acks + 1)
  {
    var m := |bursts| - |queue|;
    if queue[0] == 1 {
      assert SumTo(bursts, m + 1) == SumTo(bursts, m) + bursts[m];
      if |queue| > 1 {
        assert queue[1] == bursts[m + 1];
      }
    }
  }

  /** All bursts of the writes that have left the queue are acknowledged. */
  lemma LeftQueue(bursts: seq<nat>, queue: seq<nat>, acks: nat, n: nat)
    requires Acknowledged(bursts, queue, acks) && n <= |bursts| - |queue|
    ensures SumTo(bursts, n) <= acks
  {
    SumToMonotone(bursts, n, |bursts| - |queue|);
  }

  function Completions(bs: seq<bool>): nat {
    if bs == [] then 0 else (if bs[0] then 1 else 0) + Completions(bs[1..])
  }

  lemma {:induction false} CompletionsPush(bs: seq<bool>, b: bool)
    ensures Completions(bs + [b]) == Completions(bs) + if b then 1 else 0
    decreases |bs|
  {
    if bs == [] {
      assert ([] + [b])[1..] == [];
    } else {
      CompletionsPush(bs[1..], b);
      assert (bs + [b])[1..] == bs[1..] + [b];
    }
  }

  /** The size in the HER for an address. */
  function SizeAt(hers: seq<Her>, addr: nat): nat {
    if hers == [] then 0 else if hers[0].addr == addr then hers[0].size else SizeAt(hers[1..], addr)
  }

  lemma {:induction false} SizeOf(hers: seq<Her>, k: nat)
    requires k < |hers| && forall i: nat, j: nat | i < j < |hers| :: hers[i].addr != hers[j].addr
    ensures SizeAt(hers, hers[k].addr) == hers[k].size
    decreases |hers|
  {
    if k > 0 {
      SizeOf(hers[1..], k - 1);
    }
  }

  /** The packets that arrive in a run of events; none is empty. */
  function Arrivals(events: seq<Event>): seq<Packet> {
    if events == [] then []
    else
      var e := events[|events| - 1];
      Arrivals(events[..|events| - 1]) + if e.Arrives? && e.packet.data != [] then [e.packet] else []
  }

  function Ids(hers: seq<Her>): (r: seq<nat>)
    ensures |r| == |hers|
  {
    seq(|hers|, i requires 0 <= i < |hers| => hers[i].id)
  }

  function PacketIds(packets: seq<Packet>): (r: seq<nat>)
    ensures |r| == |packets|
  {
    seq(|packets|, i requires 0 <= i < |packets| => packets[i].id)
  }
}
