/** The packet buffer of the inbound engine: a ring with a cut, out-of-order frees and in-order reclaim. */
module Rings {

  const NI_PKT_ADDR_ALIGNMENT: nat := 64

  /** Whole segments. */
  function Rounded(size: nat): (r: nat)
    ensures size <= r < size + NI_PKT_ADDR_ALIGNMENT
    ensures size >= 1 ==> r >= NI_PKT_ADDR_ALIGNMENT
    ensures Aligned(r)
  {
    (size + NI_PKT_ADDR_ALIGNMENT - 1) / NI_PKT_ADDR_ALIGNMENT * NI_PKT_ADDR_ALIGNMENT
  }

  predicate Aligned(x: nat) {
    x % NI_PKT_ADDR_ALIGNMENT == 0
  }

  datatype Slot = Slot(offset: nat, size: nat)
  {
    function End(): nat {
      offset + size
    }
  }

  /** The slots fill [a, b), one after the other. */
  ghost predicate Tiles(slots: seq<Slot>, a: nat, b: nat) {
    if slots == [] then a == b
    else
      && slots[0].offset == a && slots[0].size >= 1 && Aligned(slots[0].offset) && Aligned(slots[0].size)
      && Tiles(slots[1..], slots[0].End(), b)
  }

  lemma {:induction false} TilesPush(slots: seq<Slot>, a: nat, b: nat, size: nat)
    requires Tiles(slots, a, b) && size >= 1 && Aligned(size) && Aligned(b)
    ensures Tiles(slots + [Slot(b, size)], a, b + size)
    decreases |slots|
  {
    if slots == [] {
      assert (slots + [Slot(b, size)])[1..] == [];
    } else {
      TilesPush(slots[1..], slots[0].End(), b, size);
      assert (slots + [Slot(b, size)])[1..] == slots[1..] + [Slot(b, size)];
    }
  }

  lemma {:induction false} TilesAt(slots: seq<Slot>, a: nat, b: nat, k: nat)
    requires Tiles(slots, a, b) && k < |slots|
    ensures a <= slots[k].offset < slots[k].End() <= b
    ensures Aligned(slots[k].offset) && Aligned(slots[k].size)
    decreases |slots|
  {
    TilesUp(slots[1..], slots[0].End(), b);
    if k > 0 {
      TilesAt(slots[1..], slots[0].End(), b, k - 1);
    }
  }

  lemma {:induction false} TilesUp(slots: seq<Slot>, a: nat, b: nat)
    requires Tiles(slots, a, b)
    ensures a <= b && (a == b <==> slots == [])
    decreases |slots|
  {
    if slots != [] {
      TilesUp(slots[1..], slots[0].End(), b);
    }
  }

  /** Slots that tile are in order, so they do not overlap. */
  lemma {:induction false} TilesOrder(slots: seq<Slot>, a: nat, b: nat, j: nat, k: nat)
    requires Tiles(slots, a, b) && j < k < |slots|
    ensures slots[j].End() <= slots[k].offset
    decreases |slots|
  {
    if j > 0 {
      TilesOrder(slots[1..], slots[0].End(), b, j - 1, k - 1);
    } else {
      TilesAt(slots[1..], slots[0].End(), b, k - 1);
    }
  }

  /** The offset of a slot that is in use. */
  ghost predicate At(slots: seq<Slot>, k: nat, offset: nat) {
    k < |slots| && slots[k].offset == offset
  }

  /** The freed slots are slots in use, with their sizes. */
  ghost predicate Pending(slots: seq<Slot>, freed: map<nat, nat>) {
    forall o: nat | o in freed :: exists k: nat :: At(slots, k, o) && freed[o] == slots[k].size
  }

  lemma PendingPush(slots: seq<Slot>, freed: map<nat, nat>, s: Slot)
    requires Pending(slots, freed)
    ensures Pending(slots + [s], freed)
  {
    forall o: nat | o in freed ensures exists k: nat :: At(slots + [s], k, o) && freed[o] == (slots + [s])[k].size {
      var k: nat :| At(slots, k, o) && freed[o] == slots[k].size;
      assert At(slots + [s], k, o);
    }
  }

  /** What is left when the freed slots at the front are taken away. */
  ghost function DropFreed(slots: seq<Slot>, freed: set<nat>): seq<Slot> {
    if slots == [] || slots[0].offset !in freed then slots else DropFreed(slots[1..], freed)
  }

  lemma {:induction false} DropFreedAll(slots: seq<Slot>, freed: set<nat>)
    requires forall k: nat | k < |slots| :: slots[k].offset in freed
    ensures DropFreed(slots, freed) == []
    decreases |slots|
  {
    if slots != [] {
      DropFreedAll(slots[1..], freed);
    }
  }

  /** The slots in use fill the ring from the head to the tail, or to the cut and from the start to the tail. */
  ghost predicate Laid(older: seq<Slot>, newer: seq<Slot>, head: nat, tail: nat, cutPtr: nat, cut: bool, size: nat) {
    && Tiles(older, head, if cut then cutPtr else tail)
    && (if cut then Tiles(newer, 0, tail) && newer != [] && tail <= head && cutPtr <= size
        else newer == [] && tail <= size)
    && Aligned(head) && Aligned(tail)
  }

  /** With a new slot at the tail. */
  lemma TailGrown(older: seq<Slot>, newer: seq<Slot>, head: nat, tail: nat, cutPtr: nat, cut: bool, size: nat,
                  need: nat)
    requires Laid(older, newer, head, tail, cutPtr, cut, size) && need >= 1 && Aligned(need)
    requires tail + need <= if cut then head else size
    ensures cut ==> Laid(older, newer + [Slot(tail, need)], head, tail + need, cutPtr, cut, size)
    ensures !cut ==> Laid(older + [Slot(tail, need)], newer, head, tail + need, cutPtr, cut, size)
  {
    if cut {
      TilesPush(newer, 0, tail, need);
    } else {
      TilesPush(older, head, tail, need);
    }
  }

  /** With a cut at the tail, and a new slot at the start. */
  lemma Wrapped(older: seq<Slot>, newer: seq<Slot>, head: nat, tail: nat, cutPtr: nat, size: nat, need: nat)
    requires Laid(older, newer, head, tail, cutPtr, false, size) && 1 <= need <= head && Aligned(need)
    ensures Laid(older, newer + [Slot(0, need)], head, need, tail, true, size)
  {
    TilesPush([], 0, 0, need);
  }

  /** What the pointers say: whether the ring is empty, and where the head is. */
  lemma Pointers(older: seq<Slot>, newer: seq<Slot>, head: nat, tail: nat, cutPtr: nat, cut: bool, size: nat)
    requires Laid(older, newer, head, tail, cutPtr, cut, size)
    ensures !cut ==> head <= tail && newer == [] && (head == tail <==> older == [])
    ensures cut ==> tail <= head && newer != []
  {
    TilesUp(older, head, if cut then cutPtr else tail);
  }

  /** Without its first slot. */
  lemma FrontGone(older: seq<Slot>, newer: seq<Slot>, head: nat, tail: nat, cutPtr: nat, cut: bool, size: nat)
    requires Laid(older, newer, head, tail, cutPtr, cut, size) && older != []
    ensures Laid(older[1..], newer, older[0].End(), tail, cutPtr, cut, size)
  {
  }

  /** When the head has come to the cut, the ring starts over. */
  lemma CutGone(older: seq<Slot>, newer: seq<Slot>, tail: nat, cutPtr: nat, size: nat)
    requires Laid(older, newer, cutPtr, tail, cutPtr, true, size)
    ensures older == [] && Laid(newer, [], 0, tail, cutPtr, false, size)
  {
    TilesUp(older, cutPtr, cutPtr);
  }

  class Ring {
    const base: nat  // address of the buffer
    const size: nat  // its length
    var headPtr: nat
    var tailPtr: nat
    var cutPtr: nat
    var cut: bool
    var inFlight: nat
    var freeReq: map<nat, nat>  // freed slots that are not reclaimed yet: offset and size
    ghost var older: seq<Slot>  // from the head to the tail, or to the cut
    ghost var newer: seq<Slot>  // from the start of the buffer to the tail, if there is a cut

    ghost function Live(): seq<Slot>
      reads this
    {
      older + newer
    }

    ghost predicate Shape()
      reads this
    {
      && Laid(older, newer, headPtr, tailPtr, cutPtr, cut, size)
      && inFlight == |Live()| && Pending(Live(), freeReq)
    }

    /** What is freed at the head has been reclaimed. */
    ghost predicate Valid()
      reads this
    {
      Shape() && headPtr !in freeReq
    }

    /** The head waits at the cut, with no slot before it. */
    ghost predicate Stuck()
      reads this
    {
      cut && older == []
    }

    constructor (base: nat, size: nat)
      ensures Valid() && Live() == [] && !Stuck() && freeReq == map[] && this.base == base && this.size == size
      ensures headPtr == tailPtr == 0
    {
      this.base, this.size := base, size;
      headPtr, tailPtr, cutPtr, cut, inFlight := 0, 0, 0, false, 0;
      freeReq, older, newer := map[], [], [];
    }

    /** Live slots are aligned, inside the buffer and pairwise disjoint. */
    lemma SlotsApart(j: nat, k: nat)
      requires Valid() && j < k < |Live()|
      ensures Live()[j].End() <= Live()[k].offset || Live()[k].End() <= Live()[j].offset
    {
      var m := |older|;
      if k < m {
        TilesOrder(older, headPtr, if cut then cutPtr else tailPtr, j, k);
      } else if j >= m {
        TilesOrder(newer, 0, tailPtr, j - m, k - m);
      } else {
        TilesAt(older, headPtr, cutPtr, j);
        TilesAt(newer, 0, tailPtr, k - m);
      }
    }

    lemma SlotInside(k: nat)
      requires Valid() && k < |Live()|
      ensures Aligned(Live()[k].offset) && Aligned(Live()[k].size) && Live()[k].size >= 1 && Live()[k].End() <= size
    {
      var m := |older|;
      TilesUp(older, headPtr, if cut then cutPtr else tailPtr);
      if k < m {
        TilesAt(older, headPtr, if cut then cutPtr else tailPtr, k);
      } else {
        TilesAt(newer, 0, tailPtr, k - m);
      }
    }

    /** The room before the wrap, or between the tail and the head. */
    predicate HasRoom(need: nat)
      reads this
    {
      if cut then tailPtr + need <= headPtr else tailPtr + need <= size || need <= headPtr
    }

    /** A place in the buffer that overlaps no slot in use. */
    ghost predicate FreeAt(offset: nat, need: nat)
      reads this
    {
      && offset + need <= size
      && forall k: nat | k < |Live()| :: Live()[k].End() <= offset || offset + need <= Live()[k].offset
    }

    /** What the test decides: with slots in use and a head that is not stuck, whether the place behind the last slot
        or the one at the start of the buffer is free; with no slot in use, whether the pointers leave room, though
        all the buffer is free. */
    lemma RoomMeans(need: nat)
      requires Valid() && need >= 1
      ensures HasRoom(need) ==> FreeAt(tailPtr, need) || FreeAt(0, need)
      ensures Live() != [] && !Stuck() ==> (HasRoom(need) <==> FreeAt(tailPtr, need) || FreeAt(0, need))
      ensures Live() == [] ==> (HasRoom(need) <==> need <= size - tailPtr || need <= tailPtr)
      ensures Stuck() ==> (HasRoom(need) <==> tailPtr + need <= headPtr)
      ensures HasRoom(need) ==> (FreeAt(tailPtr, need) <==> cut || tailPtr + need <= size)
    {
      Pointers(older, newer, headPtr, tailPtr, cutPtr, cut, size);
      TilesUp(older, headPtr, if cut then cutPtr else tailPtr);
      forall k: nat | k < |older|
        ensures headPtr <= Live()[k].offset && Live()[k].End() <= if cut then size else tailPtr
      {
        TilesAt(older, headPtr, if cut then cutPtr else tailPtr, k);
      }
      forall k: nat | |older| <= k < |Live()| ensures Live()[k].End() <= tailPtr {
        TilesAt(newer, 0, tailPtr, k - |older|);
      }
      if Live() != [] {
        assert Live()[0] == if older != [] then older[0] else newer[0];
        if cut {
          assert Live()[|older|] == newer[0];
        }
      }
    }

    /** allocate_pkt_space. The head gets stuck if and only if the ring wraps while it is empty. */
    method AllocatePktSpace(pktSize: nat) returns (canAllocate: bool, addr: nat)
      requires Valid() && pktSize >= 1
      modifies this
      ensures Valid() && freeReq == old(freeReq) && headPtr == old(headPtr)
      ensures canAllocate <==> old(HasRoom(Rounded(pktSize)))
      ensures !canAllocate ==> Live() == old(Live()) && Stuck() == old(Stuck())
      ensures canAllocate ==> addr >= base && Live() == old(Live()) + [Slot(addr - base, Rounded(pktSize))]
      ensures canAllocate ==> addr - base == if old(FreeAt(tailPtr, Rounded(pktSize))) then old(tailPtr) else 0
      ensures canAllocate ==> (Stuck() <==>
                old(Stuck()) || (old(Live()) == [] && old(tailPtr) + Rounded(pktSize) > size))
      ensures old(headPtr == tailPtr && Live() != []) ==> !canAllocate
    {
      hide Ring.FreeAt;
      canAllocate, addr := false, 0;
      var need := Rounded(pktSize);
      RoomMeans(need);
      Pointers(older, newer, headPtr, tailPtr, cutPtr, cut, size);
      ghost var live, tail, cutPtr0, cut0 := Live(), tailPtr, cutPtr, cut;
      if tailPtr > headPtr || (tailPtr == headPtr && inFlight == 0) {
        if tailPtr + need <= size {
          canAllocate := true;
        } else if headPtr >= need {
          cutPtr := tailPtr;
          cut := true;
          tailPtr := 0;
          canAllocate := true;
        }
      } else if headPtr > tailPtr {
        if headPtr - tailPtr >= need {
          canAllocate := true;
        }
      }
      if canAllocate {
        addr := base + tailPtr;
        ghost var slot := Slot(tailPtr, need);
        PendingPush(live, freeReq, slot);
        if cut && !cut0 {
          Wrapped(older, newer, headPtr, tail, cutPtr0, size, need);
        } else {
          TailGrown(older, newer, headPtr, tailPtr, cutPtr, cut, size, need);
        }
        hide Laid, Pending, Rounded;
        if cut {
          assert live + [slot] == older + (newer + [slot]);
          newer := newer + [slot];
        } else {
          assert newer == [] && older + [] == older && older + [slot] + [] == older + [slot];
          older := older + [slot];
        }
        tailPtr := tailPtr + need;
        inFlight := inFlight + 1;
      }
    }

    /** A slot that can be freed. */
    ghost predicate CanFree(s: Slot)
      reads this
    {
      s.offset !in freeReq && exists k: nat :: k < |Live()| && Live()[k] == s
    }

    /** One slot at the head is reclaimed. */
    method Reclaim()
      requires Shape() && headPtr in freeReq
      modifies this
      ensures Shape() && tailPtr == old(tailPtr) && freeReq == old(freeReq) - {old(headPtr)}
      ensures forall k: nat | 0 < k < |old(Live())| :: old(Live())[k].offset != old(headPtr)
      ensures inFlight == old(inFlight) - 1
      ensures old(older) != [] && Live() == old(Live())[1..] && old(Live())[0].offset == old(headPtr)
      ensures !Stuck()
    {
      HeadIsFirst();
      PendingPop(Live(), freeReq);
      FrontGone(older, newer, headPtr, tailPtr, cutPtr, cut, size);
      ghost var live, rest := Live(), older[1..];
      assert live[1..] == rest + newer && newer + [] == newer;
      hide Laid, Pending;
      headPtr, freeReq := headPtr + freeReq[headPtr], freeReq - {headPtr};
      inFlight := inFlight - 1;
      older := rest;
      if cut && headPtr == cutPtr {
        CutGone(older, newer, tailPtr, cutPtr, size);
        headPtr := 0;
        cut := false;
        older, newer := newer, [];
      }
    }

    /** A freed slot at the head is the first one in use. */
    lemma HeadIsFirst()
      requires Shape() && headPtr in freeReq
      ensures older != [] && older[0] == Live()[0] && older[0].offset == headPtr && freeReq[headPtr] == older[0].size
      ensures forall k: nat | 0 < k < |Live()| :: Live()[k].offset != headPtr
    {
      var k: nat :| At(Live(), k, headPtr) && freeReq[headPtr] == Live()[k].size;
      forall i: nat | |older| <= i < |Live()| ensures Live()[i].offset < headPtr {
        TilesAt(newer, 0, tailPtr, i - |older|);
      }
      forall i: nat | 0 < i < |older| ensures Live()[i].offset > headPtr {
        TilesOrder(older, headPtr, if cut then cutPtr else tailPtr, 0, i);
      }
    }

    /** free_pkt_space: once a slot is freed, all freed slots at the front of the ring are reclaimed, unless the
        head is stuck. */
    method FreePktSpace(addr: nat, pktSize: nat)
      requires Valid() && addr >= base && CanFree(Slot(addr - base, Rounded(pktSize)))
      modifies this
      ensures Valid() && tailPtr == old(tailPtr)
      ensures Stuck() <==> old(Stuck())
      ensures inFlight - |freeReq| == old(inFlight) - old(|freeReq|) - 1
      ensures Live() == if old(Stuck()) then old(Live())
                        else DropFreed(old(Live()), old(freeReq.Keys) + {addr - base})
      ensures forall k: nat | k < |Live()| ::
                Live()[k].offset in freeReq <==> Live()[k].offset in old(freeReq.Keys) + {addr - base}
    {
      var offset, rounded := addr - base, Rounded(pktSize);
      if Stuck() {
        NotAtHead(Slot(offset, rounded));
      }
      PendingAdd(Live(), freeReq, Slot(offset, rounded));
      hide Tiles, Pending, DropFreed, Rounded;
      freeReq := freeReq[offset := rounded];
      assert freeReq.Keys == old(freeReq.Keys) + {offset} && Live() == old(Live());
      Drain(freeReq.Keys);
    }

    /** The loop of free_pkt_space. */
    method Drain(ghost freed: set<nat>)
      requires Shape() && freed == freeReq.Keys && (Stuck() ==> headPtr !in freeReq)
      modifies this
      ensures Valid() && tailPtr == old(tailPtr)
      ensures Stuck() <==> old(Stuck())
      ensures inFlight - |freeReq| == old(inFlight) - old(|freeReq|)
      ensures Live() == if old(Stuck()) then old(Live()) else DropFreed(old(Live()), freed)
      ensures forall k: nat | k < |Live()| :: Live()[k].offset in freeReq <==> Live()[k].offset in freed
    {
      ghost var live := Live();
      while freeReq != map[] && headPtr in freeReq
        invariant Shape() && tailPtr == old(tailPtr)
        invariant inFlight - |freeReq| == old(inFlight) - old(|freeReq|)
        invariant DropFreed(Live(), freed) == DropFreed(live, freed)
        invariant forall k: nat | k < |Live()| :: Live()[k].offset in freeReq <==> Live()[k].offset in freed
        invariant if old(Stuck()) then Stuck() && Live() == live && headPtr !in freeReq else !Stuck()
        decreases |Live()|
      {
        HeadIsFirst();
        DropFirst(Live(), freed);
        RemovedOne(freeReq, headPtr);
        hide Tiles, Pending, DropFreed;
        Reclaim();
      }
      if !Stuck() && older != [] {
        assert Live()[0].offset == headPtr;
      }
    }

    /** No slot in use begins at a head that is stuck. */
    lemma NotAtHead(s: Slot)
      requires Shape() && Stuck() && CanFree(s)
      ensures s.offset != headPtr
    {
      var k: nat :| k < |Live()| && Live()[k] == s;
      TilesAt(newer, 0, tailPtr, k);
    }
  }

  lemma DropFirst(slots: seq<Slot>, freed: set<nat>)
    requires slots != [] && slots[0].offset in freed
    ensures DropFreed(slots, freed) == DropFreed(slots[1..], freed)
  {
  }

  lemma RemovedOne(m: map<nat, nat>, k: nat)
    requires k in m
    ensures |m - {k}| == |m| - 1
  {
    assert (m - {k}).Keys == m.Keys - {k};
    assert |m.Keys| == |m| && |(m - {k}).Keys| == |m - {k}|;
  }

  lemma PendingAdd(slots: seq<Slot>, freed: map<nat, nat>, s: Slot)
    requires Pending(slots, freed) && exists k: nat :: k < |slots| && slots[k] == s
    ensures Pending(slots, freed[s.offset := s.size])
  {
    var f := freed[s.offset := s.size];
    forall o: nat | o in f ensures exists k: nat :: At(slots, k, o) && f[o] == slots[k].size {
      if o == s.offset {
        var k: nat :| k < |slots| && slots[k] == s;
        assert At(slots, k, o);
      } else {
        var k: nat :| At(slots, k, o) && freed[o] == slots[k].size;
        assert At(slots, k, o);
      }
    }
  }

  lemma PendingPop(slots: seq<Slot>, freed: map<nat, nat>)
    requires Pending(slots, freed) && slots != []
    requires forall k: nat | 0 < k < |slots| :: slots[k].offset != slots[0].offset
    ensures Pending(slots[1..], freed - {slots[0].offset})
  {
    var f := freed - {slots[0].offset};
    forall o: nat | o in f ensures exists k: nat :: At(slots[1..], k, o) && f[o] == slots[1..][k].size {
      var k: nat :| At(slots, k, o) && freed[o] == slots[k].size;
      assert At(slots[1..], k - 1, o);
    }
  }

  /* ---------- freeing everything ---------- */

  lemma {:induction false} DropFreedKeeps(slots: seq<Slot>, freed: set<nat>, s: Slot, k: nat)
    requires k < |slots| && slots[k] == s && s.offset !in freed
    ensures s in DropFreed(slots, freed)
    decreases |slots|
  {
    if slots[0].offset in freed {
      DropFreedKeeps(slots[1..], freed, s, k - 1);
    }
  }

  lemma {:induction false} DropFreedOnly(slots: seq<Slot>, freed: set<nat>, s: Slot)
    requires s in DropFreed(slots, freed)
    ensures s in slots
    decreases |slots|
  {
    if slots[0].offset in freed {
      DropFreedOnly(slots[1..], freed, s);
    }
  }

  lemma RoundedAligned(x: nat)
    requires Aligned(x)
    ensures Rounded(x) == x
  {
  }

  /** The slots that are yet to be freed, in the order of the frees. */
  ghost predicate Frees(r: Ring, order: seq<Slot>)
    reads r
  {
    && (forall i: nat | i < |order| :: r.CanFree(order[i]))
    && (forall i: nat, j: nat | i < j < |order| :: order[i].offset != order[j].offset)
    && (forall k: nat | k < |r.Live()| :: r.Live()[k].offset in r.freeReq || r.Live()[k] in order)
  }

  /** One free of many: the others can still be done. */
  method FreeNext(r: Ring, order: seq<Slot>)
    requires r.Valid() && order != [] && Frees(r, order)
    modifies r
    ensures r.Valid() && (r.Stuck() <==> old(r.Stuck())) && Frees(r, order[1..])
  {
    var s := order[0];
    ghost var live, freed := r.Live(), r.freeReq.Keys + {s.offset};
    FreesFirst(r, order);
    hide Frees, FirstFreed, Tiles, Pending, DropFreed, Rounded, Aligned;
    var addr := r.base + s.offset;
    assert addr - r.base == s.offset && r.freeReq.Keys + {addr - r.base} == freed;
    r.FreePktSpace(addr, s.size);
    FreesRest(live, freed, r, order);
  }

  /** The first slot of the order is freed, the others are in use. */
  ghost predicate FirstFreed(live: seq<Slot>, freed: set<nat>, order: seq<Slot>)
    requires order != []
  {
    && order[0].offset in freed
    && (forall i: nat | i < |order| :: order[i] in live && (i > 0 ==> order[i].offset !in freed))
    && (forall k: nat | k < |live| :: live[k].offset in freed || live[k] in order)
    && (forall i: nat, j: nat | i < j < |order| :: order[i].offset != order[j].offset)
  }

  lemma FreesFirst(r: Ring, order: seq<Slot>)
    requires r.Valid() && order != [] && Frees(r, order)
    ensures r.CanFree(Slot(r.base + order[0].offset - r.base, Rounded(order[0].size)))
    ensures FirstFreed(r.Live(), r.freeReq.Keys + {order[0].offset}, order)
  {
    var s := order[0];
    assert r.CanFree(s);
    var k: nat :| k < |r.Live()| && r.Live()[k] == s;
    r.SlotInside(k);
    RoundedAligned(s.size);
    forall i: nat | i < |order| ensures order[i] in r.Live() && order[i].offset !in r.freeReq {
      assert r.CanFree(order[i]);
    }
  }

  lemma FreesRest(live: seq<Slot>, freed: set<nat>, r: Ring, order: seq<Slot>)
    requires r.Valid() && order != [] && FirstFreed(live, freed, order)
    requires r.Live() == live || r.Live() == DropFreed(live, freed)
    requires forall k: nat | k < |r.Live()| :: r.Live()[k].offset in r.freeReq <==> r.Live()[k].offset in freed
    ensures Frees(r, order[1..])
  {
    var rest := order[1..];
    forall i: nat | i < |rest| ensures r.CanFree(rest[i]) {
      var s := order[i + 1];
      assert rest[i] == s;
      var k: nat :| k < |live| && live[k] == s;
      if r.Live() != live {
        DropFreedKeeps(live, freed, s, k);
      }
      var m: nat :| m < |r.Live()| && r.Live()[m] == s;
      assert r.Live()[m].offset !in freed;
    }
    forall k: nat | k < |r.Live()| ensures r.Live()[k].offset in r.freeReq || r.Live()[k] in rest {
      var s := r.Live()[k];
      if r.Live() != live {
        DropFreedOnly(live, freed, s);
      }
      var i: nat :| i < |live| && live[i] == s;
      if s.offset !in freed {
        var j: nat :| j < |order| && order[j] == s;
        assert rest[j - 1] == s;
      }
    }
  }

  /** Freeing all slots in whatever order empties the ring if and only if the head is not stuck, that is, if the
      ring did not wrap while it was empty. */
  method FreeInAnyOrder(r: Ring, order: seq<Slot>)
    requires r.Valid() && Frees(r, order)
    modifies r
    ensures r.Valid()
    ensures r.inFlight == 0 <==> !old(r.Stuck())
    ensures !old(r.Stuck()) ==> r.Live() == [] && r.freeReq == map[] && r.headPtr == r.tailPtr
  {
    for i := 0 to |order|
      invariant r.Valid() && (r.Stuck() <==> old(r.Stuck())) && Frees(r, order[i..])
    {
      assert order[i..][1..] == order[i + 1..];
      FreeNext(r, order[i..]);
    }
    AllFreed(r);
  }

  lemma OneSlot(r: Ring)
    requires r.Valid() && |r.Live()| == 1
    ensures !r.Stuck() ==> r.headPtr == r.Live()[0].offset && r.tailPtr == r.Live()[0].End()
    ensures r.Stuck() ==> r.Live()[0].offset == 0
  {
    var live := r.older + r.newer;
    if r.Stuck() {
      assert r.newer == live && r.newer[1..] == [];
    } else {
      assert |live| == |r.older| + |r.newer| && !r.cut;
      assert r.older == live && r.older[1..] == [];
      assert Tiles(r.older[1..], r.older[0].End(), r.tailPtr);
    }
  }

  lemma NoSlots(r: Ring)
    requires r.Valid() && r.Live() == []
    ensures !r.cut && r.headPtr == r.tailPtr && !r.Stuck() && r.freeReq == map[]
  {
    NonePending(r.freeReq);
  }

  /** Room for three segments: two are given and freed, and two more wrap while the ring is empty. When these are
      freed too, they stay in use. */
  method WrapWhileEmpty(base: nat) returns (r: Ring)
    ensures fresh(r) && r.Valid() && r.Stuck()
    ensures r.Live() == [Slot(0, 128)] && 0 in r.freeReq && r.inFlight == 1
  {
    hide Ring.Valid, Ring.Stuck, Laid, Pending, Ring.CanFree, DropFreed, Ring.FreeAt;
    assert Rounded(128) == 128;
    r := new Ring(base, 192);
    NoSlots(r);
    var ok, addr := r.AllocatePktSpace(128);
    assert r.Live() == [Slot(addr - base, 128)];
    OneSlot(r);
    Single(r, Slot(addr - base, 128));
    r.FreePktSpace(addr, 128);
    assert r.Live() == [];
    NoSlots(r);
    ok, addr := r.AllocatePktSpace(128);
    assert r.Live() == [Slot(addr - base, 128)];
    OneSlot(r);
    Single(r, Slot(addr - base, 128));
    r.FreePktSpace(addr, 128);
    assert r.Live()[0].offset == 0;
    InFlightIs(r);
  }

  lemma Single(r: Ring, s: Slot)
    requires r.Live() == [s] && r.freeReq == map[]
    ensures r.CanFree(s) && DropFreed([s], r.freeReq.Keys + {s.offset}) == []
  {
    assert r.Live()[0] == s;
  }

  lemma InFlightIs(r: Ring)
    requires r.Valid()
    ensures r.inFlight == |r.Live()|
  {
  }

  lemma HeadInUse(r: Ring)
    requires r.Valid() && r.older != []
    ensures r.Live() != [] && r.Live()[0].offset !in r.freeReq
  {
  }

  lemma NonePending(freed: map<nat, nat>)
    requires Pending([], freed)
    ensures freed == map[]
  {
    assert freed.Keys == {};
  }

  lemma AllFreed(r: Ring)
    requires r.Valid() && Frees(r, [])
    ensures r.inFlight == 0 <==> !r.Stuck()
    ensures !r.Stuck() ==> r.Live() == [] && r.freeReq == map[] && r.headPtr == r.tailPtr
  {
    if !r.Stuck() {
      if r.older != [] {
        HeadInUse(r);
      }
      NonePending(r.freeReq);
    }
  }
}
