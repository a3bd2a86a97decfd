/** What the write beats of the inbound engine leave in memory: the data of every packet in flight, at its address. */
module NicMemories {
  import opened Memory
  import opened Axi
  import opened AxiMasters
  import opened Rings
  import opened NicQueues

  lemma {:induction false} LinesAppend(a: seq<AxBeat>, b: seq<AxBeat>)
    ensures Lines(a + b) == Lines(a) + Lines(b) && Lasts(a + b) == Lasts(a) + Lasts(b)
    decreases |b|
  {
    hide LinesOf, LastsOf;
    if b == [] {
      assert a + b == a;
    } else {
      var k := |b| - 1;
      var all := a + b;
      LinesAppend(a, b[..k]);
      assert |all| == |a| + k + 1 && all[..|a| + k] == a + b[..k] && all[|a| + k] == b[k];
      LastBeat(all);
      LastBeat(b);
    }
  }

  lemma LastBeat(aw: seq<AxBeat>)
    requires aw != []
    ensures var k := |aw| - 1;
      && Lines(aw) == Lines(aw[..k]) + LinesOf(aw[k], aw[k].len + 1)
      && Lasts(aw) == Lasts(aw[..k]) + LastsOf(aw[k].len + 1, aw[k].len)
  {
  }

  /** Every data beat has its address beat: the slave expects the last beats where they are marked. */
  ghost predicate Paired(aw: seq<AxBeat>, ws: seq<WBeat>) {
    |Lines(aw)| == |ws| && Flags(ws) == Lasts(aw)
  }

  /** After all the beats the data is at its address, whatever was there before. */
  ghost predicate InMemory(aw: seq<AxBeat>, ws: seq<WBeat>, addr: nat, data: seq<byte>)
    requires Paired(aw, ws)
  {
    forall a: nat, before: byte :: addr <= a < addr + |data| ==> ByteAt(Lines(aw), ws, a, before) == data[a - addr]
  }

  lemma PairedWrite(aw: seq<AxBeat>, ws: seq<WBeat>, aw': seq<AxBeat>, ws': seq<WBeat>, addr: nat, data: seq<byte>,
                    reach: nat)
    requires Paired(aw, ws) && Transfers(aw', ws', addr, data, reach)
    ensures Paired(aw + aw', ws + ws')
  {
    hide Lines, Lasts;
    LinesAppend(aw, aw');
    assert Flags(ws + ws') == Flags(ws) + Flags(ws');
  }

  /** Data elsewhere stays. */
  lemma WriteKeeps(aw: seq<AxBeat>, ws: seq<WBeat>, addr: nat, data: seq<byte>, aw': seq<AxBeat>, ws': seq<WBeat>,
                   addr': nat, data': seq<byte>, reach: nat)
    requires Paired(aw, ws) && InMemory(aw, ws, addr, data) && Transfers(aw', ws', addr', data', reach)
    requires addr + |data| <= addr' || reach <= addr
    ensures Paired(aw + aw', ws + ws') && InMemory(aw + aw', ws + ws', addr, data)
  {
    PairedWrite(aw, ws, aw', ws', addr', data', reach);
    LinesAppend(aw, aw');
    hide Lines, Lasts, ByteAt, Flags;
    forall a: nat, before: byte
      ensures addr <= a < addr + |data| ==> ByteAt(Lines(aw + aw'), ws + ws', a, before) == data[a - addr]
    {
      ByteAtAppend(Lines(aw), ws, Lines(aw'), ws', a, before);
    }
  }

  /** The data written is there. */
  lemma WritePuts(aw: seq<AxBeat>, ws: seq<WBeat>, aw': seq<AxBeat>, ws': seq<WBeat>, addr: nat, data: seq<byte>,
                  reach: nat)
    requires Paired(aw, ws) && Transfers(aw', ws', addr, data, reach)
    ensures Paired(aw + aw', ws + ws') && InMemory(aw + aw', ws + ws', addr, data)
  {
    PairedWrite(aw, ws, aw', ws', addr, data, reach);
    LinesAppend(aw, aw');
    hide Lines, Lasts, ByteAt, Flags;
    forall a: nat, before: byte
      ensures addr <= a < addr + |data| ==> ByteAt(Lines(aw + aw'), ws + ws', a, before) == data[a - addr]
    {
      ByteAtAppend(Lines(aw), ws, Lines(aw'), ws', a, before);
    }
  }

  /** The HER is that of the packet. */
  predicate HerOf(h: Her, p: Packet) {
    h.id == p.id && h.size == |p.data|
  }

  /** The packets in flight: hers[i] is the HER of packet |sent| + i; the packet in the cluster at address a is packet
      origin[a], whose HER was sent. The data of each is in memory. */
  ghost predicate Filled(aw: seq<AxBeat>, ws: seq<WBeat>, sent: seq<Her>, hers: seq<Her>, arrived: seq<Packet>,
                         pktmap: map<nat, nat>, origin: map<nat, nat>)
  {
    && Paired(aw, ws) && |sent| + |hers| <= |arrived| && origin.Keys == pktmap.Keys
    && (forall i: nat | i < |hers| ::
          HerOf(hers[i], arrived[|sent| + i]) && InMemory(aw, ws, hers[i].addr, arrived[|sent| + i].data))
    && (forall a: nat | a in pktmap ::
          && origin[a] < |sent| && sent[origin[a]].addr == a && sent[origin[a]].size == pktmap[a]
          && HerOf(sent[origin[a]], arrived[origin[a]]) && InMemory(aw, ws, a, arrived[origin[a]].data))
  }

  /** A slot in use is apart from a new one. */
  lemma SlotApart(r: Ring, live: seq<Slot>, freed: map<nat, nat>, addr: nat, size: nat, s: Slot)
    requires r.Valid() && r.Live() == live + [s] && Owned(live, freed, r.base, addr, size)
    ensures addr + size <= r.base + s.offset || r.base + s.End() <= addr
  {
    var k: nat :| At(live, k, addr - r.base) && live[k].size == Rounded(size);
    hide Ring.Valid, Rounded;
    r.SlotsApart(k, |live|);
    assert r.Live()[k] == live[k] && r.Live()[|live|] == s;
  }

  /** A new packet is written to a slot of its own. */
  lemma FilledWrite(r: Ring, live: seq<Slot>, freed: map<nat, nat>, aw: seq<AxBeat>, ws: seq<WBeat>, sent: seq<Her>,
                    hers: seq<Her>, arrived: seq<Packet>, pktmap: map<nat, nat>, origin: map<nat, nat>,
                    aw': seq<AxBeat>, ws': seq<WBeat>, her: Her)
    requires Filled(aw, ws, sent, hers, arrived, pktmap, origin) && Placed(hers, pktmap, live, freed, r.base)
    requires |sent| + |hers| < |arrived| && HerOf(her, arrived[|sent| + |hers|]) && her.addr >= r.base && r.Valid()
    requires r.Live() == live + [Slot(her.addr - r.base, Rounded(her.size))]
    requires Transfers(aw', ws', her.addr, arrived[|sent| + |hers|].data, her.addr + Rounded(her.size))
    ensures Filled(aw + aw', ws + ws', sent, hers + [her], arrived, pktmap, origin)
  {
    var data, reach := arrived[|sent| + |hers|].data, her.addr + Rounded(her.size);
    var s := Slot(her.addr - r.base, Rounded(her.size));
    WritePuts(aw, ws, aw', ws', her.addr, data, reach);
    hide Paired, InMemory, Transfers, Rounded, Ring.Valid, Owned;
    forall i: nat | i < |hers| ensures InMemory(aw + aw', ws + ws', hers[i].addr, arrived[|sent| + i].data) {
      SlotApart(r, live, freed, hers[i].addr, hers[i].size, s);
      WriteKeeps(aw, ws, hers[i].addr, arrived[|sent| + i].data, aw', ws', her.addr, data, reach);
    }
    forall a: nat | a in pktmap ensures InMemory(aw + aw', ws + ws', a, arrived[origin[a]].data) {
      SlotApart(r, live, freed, a, pktmap[a], s);
      WriteKeeps(aw, ws, a, arrived[origin[a]].data, aw', ws', her.addr, data, reach);
    }
  }

  /** The first packet goes to the cluster. */
  lemma FilledSend(aw: seq<AxBeat>, ws: seq<WBeat>, sent: seq<Her>, hers: seq<Her>, arrived: seq<Packet>,
                   pktmap: map<nat, nat>, origin: map<nat, nat>)
    requires Filled(aw, ws, sent, hers, arrived, pktmap, origin) && hers != []
    ensures var h := hers[0];
      Filled(aw, ws, sent + [h], hers[1..], arrived, pktmap[h.addr := h.size], origin[h.addr := |sent|])
  {
    hide Paired, InMemory;
    assert arrived[|sent|] == arrived[|sent| + 0];
    forall i: nat | i < |hers[1..]|
      ensures HerOf(hers[1..][i], arrived[|sent| + 1 + i])
           && InMemory(aw, ws, hers[1..][i].addr, arrived[|sent| + 1 + i].data)
    {
      assert hers[1..][i] == hers[i + 1] && arrived[|sent| + 1 + i] == arrived[|sent| + (i + 1)];
    }
  }

  /** Later packets, and packets gone, change nothing. */
  lemma FilledMore(aw: seq<AxBeat>, ws: seq<WBeat>, sent: seq<Her>, hers: seq<Her>, arrived: seq<Packet>,
                   pktmap: map<nat, nat>, origin: map<nat, nat>, p: Packet)
    requires Filled(aw, ws, sent, hers, arrived, pktmap, origin)
    ensures Filled(aw, ws, sent, hers, arrived + [p], pktmap, origin)
  {
    hide Paired, InMemory;
  }

  lemma FilledGone(aw: seq<AxBeat>, ws: seq<WBeat>, sent: seq<Her>, hers: seq<Her>, arrived: seq<Packet>,
                   pktmap: map<nat, nat>, origin: map<nat, nat>, addr: nat)
    requires Filled(aw, ws, sent, hers, arrived, pktmap, origin)
    ensures Filled(aw, ws, sent, hers, arrived, pktmap - {addr}, origin - {addr})
  {
    hide Paired, InMemory;
  }
}
