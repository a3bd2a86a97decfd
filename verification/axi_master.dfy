/** The AXI master's writes: data and strobes of every beat, and what they do to memory. */
module AxiMasters {
  import opened Memory
  import opened Axi

  datatype WBeat = WBeat(data: seq<byte>, strb: seq<bool>, last: bool)
  {
    ghost predicate Valid() {
      |data| == AXI_SW && |strb| == AXI_SW
    }
  }

  function Max(a: int, b: int): int {
    if a >= b then a else b
  }

  function Min(a: int, b: int): int {
    if a <= b then a else b
  }

  /* ---------- the lanes of a beat ---------- */

  /** The first address of the line that beat i of a burst writes. */
  function Base(b: Burst, i: nat): nat {
    (Line(b.Start()) + i) * AXI_SW
  }

  /** One past the last byte that is strobed: the end of the burst, or of a single beat's container. */
  function Reach(b: Burst): nat {
    if b.beat.len > 0 then b.End() else AlignedAddress(b.Start(), b.beat.size) + NumBytes(b.beat.size)
  }

  lemma BeatLanes(b: Burst, i: nat)
    requires Legal(b) && i <= b.beat.len
    ensures Line(b.beat.BeatAddr(i)) == Line(b.Start()) + i
    ensures b.beat.LowerByte(i) == Max(b.Start(), Base(b, i)) - Base(b, i)
    ensures b.beat.UpperByte(i, b.nBytes) == Min(Reach(b), Base(b, i) + AXI_SW) - Base(b, i)
    ensures Min(b.beat.UpperByte(i, b.nBytes) - b.beat.LowerByte(i), b.nBytes)
         == Min(b.End(), Base(b, i) + AXI_SW) - Max(b.Start(), Base(b, i)) >= 1
    ensures b.beat.LowerByte(i) < b.beat.UpperByte(i, b.nBytes) <= AXI_SW
  {
    hide Smallest;
    InContainer(b.Start(), b.beat.size);
    if b.beat.len > 0 {
      WholeLines(b, i);
    } else {
      LegalHolds(b);
    }
  }

  lemma WholeLines(b: Burst, i: nat)
    requires Legal(b) && i <= b.beat.len && b.beat.len > 0
    ensures b.beat.BeatAddr(i) == if i == 0 then b.Start() else Base(b, i)
    ensures b.beat.LowerByte(i) == b.beat.BeatAddr(i) - Base(b, i) < AXI_SW
    ensures b.beat.UpperByte(i, b.nBytes) == Min(b.End(), Base(b, i) + AXI_SW) - Base(b, i)
    ensures Base(b, i) < b.End() && (i < b.beat.len ==> Base(b, i) + AXI_SW <= b.End())
  {
    hide Smallest, PageNum;
  }

  lemma EndOfLine(end: nat)
    requires end >= 1
    ensures end <= (Line(end - 1) + 1) * AXI_SW && (end % PAGE == 0 ==> end == (Line(end - 1) + 1) * AXI_SW)
  {
  }

  /** The reach of a burst stays in the line of its last byte. */
  lemma ReachInLine(b: Burst)
    requires Legal(b)
    ensures b.End() <= Reach(b) <= (Line(b.End() - 1) + 1) * AXI_SW
    ensures b.End() % PAGE == 0 ==> Reach(b) == b.End()
  {
    hide Smallest, NumBytes, AlignedAddress;
    EndOfLine(b.End());
    if b.beat.len == 0 {
      InContainer(b.Start(), b.beat.size);
      LegalHolds(b);
    }
  }

  /* ---------- what the beats do to memory ---------- */

  /** The line that a slave writes for each data beat, and where it expects the last one of a burst. */
  function Lines(aw: seq<AxBeat>): seq<nat> {
    if aw == [] then []
    else Lines(aw[..|aw| - 1]) + LinesOf(aw[|aw| - 1], aw[|aw| - 1].len + 1)
  }

  function LinesOf(ax: AxBeat, n: nat): (r: seq<nat>)
    ensures |r| == n
  {
    seq(n, i requires 0 <= i < n => Line(ax.BeatAddr(i)))
  }

  function Lasts(aw: seq<AxBeat>): seq<bool> {
    if aw == [] then []
    else Lasts(aw[..|aw| - 1]) + LastsOf(aw[|aw| - 1].len + 1, aw[|aw| - 1].len)
  }

  function LastsOf(n: nat, len: nat): (r: seq<bool>)
    ensures |r| == n
  {
    seq(n, i requires 0 <= i < n => i == len)
  }

  /** The byte at address a after the data beats. */
  function ByteAt(lines: seq<nat>, w: seq<WBeat>, a: nat, before: byte): byte
    requires |lines| == |w|
  {
    if w == [] then before
    else
      var k := |w| - 1;
      var lane := a % AXI_SW;
      if lines[k] == Line(a) && lane < |w[k].strb| && w[k].strb[lane] && lane < |w[k].data| then w[k].data[lane]
      else ByteAt(lines[..k], w[..k], a, before)
  }

  lemma {:induction false} ByteAtAppend(l: seq<nat>, w: seq<WBeat>, m: seq<nat>, v: seq<WBeat>, a: nat, before: byte)
    requires |l| == |w| && |m| == |v|
    ensures ByteAt(l + m, w + v, a, before) == ByteAt(m, v, a, ByteAt(l, w, a, before))
    decreases |v|
  {
    if v == [] {
      assert l + m == l && w + v == w;
    } else {
      var k := |v| - 1;
      assert (l + m)[..|l| + k] == l + m[..k] && (w + v)[..|l| + k] == w + v[..k];
      ByteAtAppend(l, w, m[..k], v[..k], a, before);
    }
  }

  /** The beats put src at [addr, addr + |src|), and may clear what lies between there and `reach`. */
  ghost predicate Puts(lines: seq<nat>, w: seq<WBeat>, addr: nat, src: seq<byte>, reach: nat) {
    && |lines| == |w|
    && (forall a: nat, before: byte :: addr <= a < addr + |src| ==> ByteAt(lines, w, a, before) == src[a - addr])
    && (forall a: nat, before: byte :: a < addr || a >= reach ==> ByteAt(lines, w, a, before) == before)
  }

  /** Beats that continue where others end: what those cleared is written now. */
  lemma PutsAppend(l: seq<nat>, w: seq<WBeat>, m: seq<nat>, v: seq<WBeat>, addr: nat, src: seq<byte>, more: seq<byte>,
                   reach: nat, reach': nat)
    requires Puts(l, w, addr, src, reach) && Puts(m, v, addr + |src|, more, reach')
    requires reach <= addr + |src| + |more| <= reach'
    ensures Puts(l + m, w + v, addr, src + more, reach')
  {
    forall a: nat, before: byte
      ensures addr <= a < addr + |src + more| ==> ByteAt(l + m, w + v, a, before) == (src + more)[a - addr]
      ensures a < addr || a >= reach' ==> ByteAt(l + m, w + v, a, before) == before
    {
      ByteAtAppend(l, w, m, v, a, before);
    }
  }

  lemma PutsNothing(addr: nat)
    ensures Puts([], [], addr, [], addr)
  {
  }

  /* ---------- one beat ---------- */

  /** The lanes of the beat for line `base` hold the bytes of src that belong there, and exactly the lanes from
      its first one to `reach` are strobed. */
  ghost predicate BeatOk(w: WBeat, base: nat, addr: nat, src: seq<byte>, reach: nat) {
    && w.Valid()
    && (forall i: nat | i < AXI_SW :: w.strb[i] <==> Max(addr, base) <= base + i < Min(reach, base + AXI_SW))
    && (forall i: nat | i < AXI_SW :: addr <= base + i < addr + |src| ==> w.data[i] == src[base + i - addr])
  }

  /** One data beat of a burst: `pos` bytes of the data have been used. */
  method MakeBeat(b: Burst, i: nat, src: seq<byte>, pos: nat) returns (w: WBeat, beatSize: nat)
    requires Legal(b) && i <= b.beat.len && |src| == b.nBytes && pos == Max(b.Start(), Base(b, i)) - b.Start()
    ensures BeatOk(w, Base(b, i), b.Start(), src, Reach(b))
    ensures w.last <==> i == b.beat.len
    ensures beatSize == Min(b.End(), Base(b, i) + AXI_SW) - Max(b.Start(), Base(b, i))
  {
    BeatLanes(b, i);
    var lower, upper := b.beat.LowerByte(i), b.beat.UpperByte(i, b.nBytes);
    var data := new byte[AXI_SW](_ => 0);
    beatSize := Min(upper - lower, b.nBytes);
    for j := 0 to beatSize
      invariant forall m: nat | lower <= m < lower + j :: data[m] == src[m - lower + pos]
    {
      data[lower + j] := src[pos + j];
    }
    var bytes := data[..];
    LanesOk(b, i, bytes, src, pos, beatSize);
    var strb := new bool[AXI_SW](_ => false);
    for j := lower to upper
      invariant forall k: nat | k < AXI_SW :: strb[k] <==> lower <= k < j
    {
      strb[j] := true;
    }
    w := WBeat(bytes, strb[..], i == b.beat.len);
  }

  lemma LanesOk(b: Burst, i: nat, data: seq<byte>, src: seq<byte>, pos: nat, beatSize: nat)
    requires Legal(b) && i <= b.beat.len && |src| == b.nBytes && pos == Max(b.Start(), Base(b, i)) - b.Start()
    requires |data| == AXI_SW && beatSize == Min(b.End(), Base(b, i) + AXI_SW) - Max(b.Start(), Base(b, i))
    requires b.beat.LowerByte(i) == Max(b.Start(), Base(b, i)) - Base(b, i)
    requires b.beat.LowerByte(i) + beatSize <= AXI_SW && pos + beatSize <= |src|
    requires forall m: nat | b.beat.LowerByte(i) <= m < b.beat.LowerByte(i) + beatSize ::
               data[m] == src[m - b.beat.LowerByte(i) + pos]
    ensures forall j: nat | j < AXI_SW :: b.Start() <= Base(b, i) + j < b.End() ==>
              data[j] == src[Base(b, i) + j - b.Start()]
  {
    forall j: nat | j < AXI_SW && b.Start() <= Base(b, i) + j < b.End()
      ensures data[j] == src[Base(b, i) + j - b.Start()]
    {
    }
  }

  /** The end of what the first n beats of a burst have put in place. */
  function Through(b: Burst, n: nat): nat {
    if n == 0 then b.Start() else Min(b.End(), Base(b, n - 1) + AXI_SW)
  }

  function StrobedThrough(b: Burst, n: nat): nat {
    if n == 0 then b.Start() else Min(Reach(b), Base(b, n - 1) + AXI_SW)
  }

  /** One good beat puts the bytes of its line. */
  lemma BeatPuts(b: Burst, i: nat, src: seq<byte>, w: WBeat)
    requires Legal(b) && i <= b.beat.len && |src| == b.nBytes && BeatOk(w, Base(b, i), b.Start(), src, Reach(b))
    requires b.Start() <= Through(b, i) <= Through(b, i + 1) <= b.End()
    ensures Puts([Line(b.beat.BeatAddr(i))], [w], Through(b, i),
                 src[Through(b, i) - b.Start()..Through(b, i + 1) - b.Start()], StrobedThrough(b, i + 1))
  {
    hide Legal, Reach;
    BeatLanes(b, i);
    var line, from, to := Line(b.beat.BeatAddr(i)), Through(b, i), Through(b, i + 1);
    ThroughIs(b, i);
    forall a: nat, before: byte
      ensures from <= a < to ==> ByteAt([line], [w], a, before) == src[a - b.Start()]
      ensures a < from || a >= StrobedThrough(b, i + 1) ==> ByteAt([line], [w], a, before) == before
    {
      assert [line][..0] == [] && [w][..0] == [];
      assert ByteAt([], [], a, before) == before;
      if Line(a) == line {
        assert Base(b, i) + a % AXI_SW == a;
      }
    }
  }

  lemma ThroughIs(b: Burst, i: nat)
    requires Legal(b) && i <= b.beat.len
    ensures Through(b, i) == Max(b.Start(), Base(b, i)) && Through(b, i + 1) <= StrobedThrough(b, i + 1)
    ensures b.Start() <= Through(b, i) < Through(b, i + 1) <= b.End()
    ensures StrobedThrough(b, i) <= Through(b, i + 1)
    ensures Through(b, b.beat.len + 1) == b.End() && StrobedThrough(b, b.beat.len + 1) == Reach(b)
  {
    ReachInLine(b);
    BeatLanes(b, i);
    if b.beat.len > 0 {
      WholeLines(b, i);
      WholeLines(b, b.beat.len);
      if i > 0 {
        WholeLines(b, i - 1);
      }
    }
  }

  /* ---------- one burst ---------- */

  /** All beats of one burst. */
  method MakeBurst(b: Burst, src: seq<byte>) returns (ws: seq<WBeat>)
    requires Legal(b) && |src| == b.nBytes
    ensures Puts(LinesOf(b.beat, b.beat.len + 1), ws, b.Start(), src, Reach(b))
    ensures Flags(ws) == LastsOf(b.beat.len + 1, b.beat.len)
  {
    ws := [];
    var written := 0;
    PutsNothing(b.Start());
    for i := 0 to b.beat.len + 1
      invariant written == Through(b, i) - b.Start() <= |src|
      invariant |ws| == i && Puts(LinesOf(b.beat, i), ws, b.Start(), src[..written], StrobedThrough(b, i))
      invariant Flags(ws) == LastsOf(i, b.beat.len)
    {
      ThroughIs(b, i);
      assert Through(b, i + 1) == Min(b.End(), Base(b, i) + AXI_SW);
      hide Puts, Legal, Through, StrobedThrough, Reach, Base, Min, Max, BeatOk;
      var w, beatSize := MakeBeat(b, i, src, written);
      BurstStep(b, i, src, ws, w, written);
      ws := ws + [w];
      written := written + beatSize;
    }
    ThroughIs(b, b.beat.len);
    assert src[..written] == src;
  }

  function Flags(ws: seq<WBeat>): (r: seq<bool>)
    ensures |r| == |ws|
  {
    seq(|ws|, i requires 0 <= i < |ws| => ws[i].last)
  }

  /** One more beat of a burst. */
  lemma BurstStep(b: Burst, i: nat, src: seq<byte>, ws: seq<WBeat>, w: WBeat, written: nat)
    requires Legal(b) && i <= b.beat.len && |src| == b.nBytes && written == Through(b, i) - b.Start() <= |src|
    requires BeatOk(w, Base(b, i), b.Start(), src, Reach(b)) && (w.last <==> i == b.beat.len)
    requires |ws| == i && Puts(LinesOf(b.beat, i), ws, b.Start(), src[..written], StrobedThrough(b, i))
    requires Flags(ws) == LastsOf(i, b.beat.len)
    ensures var next := Through(b, i + 1) - b.Start();
      && 0 <= next <= |src|
      && Puts(LinesOf(b.beat, i + 1), ws + [w], b.Start(), src[..next], StrobedThrough(b, i + 1))
      && Flags(ws + [w]) == LastsOf(i + 1, b.beat.len)
  {
    hide Puts, BeatOk, LinesOf, LastsOf, Flags, Legal;
    ThroughIs(b, i);
    BeatPuts(b, i, src, w);
    OneMore(b.beat, i, ws, w);
    var next := Through(b, i + 1) - b.Start();
    BeatAppend(LinesOf(b.beat, i), ws, Line(b.beat.BeatAddr(i)), w, b.Start(), src, written, next,
               StrobedThrough(b, i), StrobedThrough(b, i + 1));
  }

  lemma BeatAppend(lines: seq<nat>, ws: seq<WBeat>, line: nat, w: WBeat, start: nat, src: seq<byte>, written: nat,
                   next: nat, reach: nat, reach': nat)
    requires written <= next <= |src| && Puts(lines, ws, start, src[..written], reach)
    requires Puts([line], [w], start + written, src[written..next], reach') && reach <= start + next <= reach'
    ensures Puts(lines + [line], ws + [w], start, src[..next], reach')
  {
    hide Puts;
    Extended(src, written, next);
    PutsAppend(lines, ws, [line], [w], start, src[..written], src[written..next], reach, reach');
  }

  /** One more line, and one more flag. */
  lemma OneMore(ax: AxBeat, i: nat, ws: seq<WBeat>, w: WBeat)
    requires |ws| == i && Flags(ws) == LastsOf(i, ax.len) && (w.last <==> i == ax.len)
    ensures LinesOf(ax, i + 1) == LinesOf(ax, i) + [Line(ax.BeatAddr(i))]
    ensures Flags(ws + [w]) == LastsOf(i + 1, ax.len)
  {
    assert Flags(ws + [w]) == Flags(ws) + [w.last];
    assert LastsOf(i + 1, ax.len) == LastsOf(i, ax.len) + [i == ax.len];
  }

  /* ---------- the master ---------- */

  /** One past the last byte that the bursts may touch. */
  function ReachAll(bursts: seq<Burst>, addr: nat): nat {
    if bursts == [] then addr else Reach(bursts[|bursts| - 1])
  }

  function Beats(bursts: seq<Burst>): (r: seq<AxBeat>)
    ensures |r| == |bursts|
  {
    seq(|bursts|, i requires 0 <= i < |bursts| => bursts[i].beat)
  }

  /** The bursts of a transfer with all their beats: what they do to memory. */
  ghost predicate Transfers(aw: seq<AxBeat>, ws: seq<WBeat>, addr: nat, src: seq<byte>, reach: nat) {
    Puts(Lines(aw), ws, addr, src, reach) && Flags(ws) == Lasts(aw)
  }

  class AxiMaster {
    var awPending: seq<AxBeat>
    var wPending: seq<WBeat>
    var writeQueue: seq<nat>  // bursts of each write that are yet to be acknowledged
    var bQueue: seq<bool>     // acknowledgements: did one complete a write?

    constructor ()
      ensures awPending == [] && wPending == [] && writeQueue == [] && bQueue == []
    {
      awPending, wPending, writeQueue, bQueue := [], [], [], [];
    }

    method SendBurst(b: Burst, src: seq<byte>) returns (burst: seq<WBeat>)
      requires Legal(b) && |src| == b.nBytes
      modifies this`awPending, this`wPending
      ensures Puts(LinesOf(b.beat, b.beat.len + 1), burst, b.Start(), src, Reach(b))
      ensures Flags(burst) == LastsOf(b.beat.len + 1, b.beat.len)
      ensures awPending == old(awPending) + [b.beat] && wPending == old(wPending) + burst
    {
      awPending := awPending + [b.beat];
      burst := MakeBurst(b, src);
      wPending := wPending + burst;
    }

    /** After the first n bursts of a write: `written` bytes of src have been sent. */
    ghost predicate Writing(bursts: seq<Burst>, n: nat, addr: nat, src: seq<byte>, written: nat, aw0: seq<AxBeat>,
                            w0: seq<WBeat>, ws: seq<WBeat>)
      reads this`awPending, this`wPending
    {
      && n <= |bursts| && written <= |src| && addr + written == Done(bursts, n, addr)
      && awPending == aw0 + Beats(bursts[..n]) && wPending == w0 + ws
      && Transfers(Beats(bursts[..n]), ws, addr, src[..written], ReachAll(bursts[..n], addr))
    }

    lemma WritingNone(bursts: seq<Burst>, addr: nat, src: seq<byte>)
      ensures Writing(bursts, 0, addr, src, 0, awPending, wPending, [])
    {
      NothingYet(bursts, addr);
      assert src[..0] == [];
    }

    lemma WritingAll(bursts: seq<Burst>, addr: nat, src: seq<byte>, written: nat, aw0: seq<AxBeat>, w0: seq<WBeat>,
                     ws: seq<WBeat>)
      requires Split(bursts, addr, addr + |src|, addr + |src|)
      requires Writing(bursts, |bursts|, addr, src, written, aw0, w0, ws)
      ensures awPending == aw0 + Beats(bursts) && wPending == w0 + ws
      ensures bursts != [] || src == []
      ensures Transfers(Beats(bursts), ws, addr, src, ReachAll(bursts, addr))
    {
      AllDone(bursts, addr, addr + |src|);
      assert bursts[..|bursts|] == bursts && src[..|src|] == src;
    }

    /** One more burst of a write, cut out of the caller's data. */
    method WriteBurst(bursts: seq<Burst>, n: nat, addr: nat, data: seq<byte>, nBytes: nat, offset: nat, written: nat,
                      ghost aw0: seq<AxBeat>, ghost w0: seq<WBeat>, ghost ws: seq<WBeat>)
      returns (ghost more: seq<WBeat>)
      requires offset + nBytes <= |data| && n < |bursts| && Split(bursts, addr, addr + nBytes, addr + nBytes)
      requires Writing(bursts, n, addr, data[offset..offset + nBytes], written, aw0, w0, ws)
      modifies this`awPending, this`wPending
      ensures Writing(bursts, n + 1, addr, data[offset..offset + nBytes], written + bursts[n].nBytes, aw0, w0, more)
    {
      ghost var src := data[offset..offset + nBytes];
      var b := bursts[n];
      InnerReach(bursts, n, addr, addr + nBytes);
      BeatsNext(bursts, n);
      hide Split, Transfers, Puts, Legal, Reach, ReachAll, Beats, LinesOf, LastsOf;
      SliceOfSlice(data, offset, nBytes, written, written + b.nBytes);
      var burst := SendBurst(b, data[offset + written..offset + written + b.nBytes]);
      WriteStep(bursts, n, addr, src, ws, burst, written);
      PushTwice(aw0, Beats(bursts[..n]), [b.beat]);
      PushTwice(w0, ws, burst);
      more := ws + burst;
    }

    /** Write: every byte goes to its address. Bytes behind the last one are touched only if a single beat ends
        the transfer, and then only in its container. */
    method Write(addr: nat, data: seq<byte>, nBytes: nat, offset: nat)
      returns (ghost bursts: seq<Burst>, ghost ws: seq<WBeat>)
      requires nBytes >= 1 && offset + nBytes <= |data|
      modifies this
      ensures Split(bursts, addr, addr + nBytes, addr + nBytes)
      ensures awPending == old(awPending) + Beats(bursts) && wPending == old(wPending) + ws
      ensures Transfers(Beats(bursts), ws, addr, data[offset..offset + nBytes], ReachAll(bursts, addr))
      ensures |bursts| >= 1 && writeQueue == old(writeQueue) + [|bursts|] && bQueue == old(bQueue)
    {
      var beats := CreateAxBeats(addr, nBytes, []);
      assert beats[0..] == beats;
      AllDone(beats, addr, addr + nBytes);
      bursts, ws := beats, [];
      writeQueue := writeQueue + [|beats|];
      var bytesWritten: nat := 0;
      ghost var aw0, w0, src := awPending, wPending, data[offset..offset + nBytes];
      WritingNone(beats, addr, src);
      hide *;
      for n := 0 to |beats|
        invariant Writing(beats, n, addr, src, bytesWritten, aw0, w0, ws)
        invariant writeQueue == old(writeQueue) + [|beats|] && bQueue == old(bQueue)
      {
        ws := WriteBurst(beats, n, addr, data, nBytes, offset, bytesWritten, aw0, w0, ws);
        bytesWritten := bytesWritten + beats[n].nBytes;
      }
      WritingAll(beats, addr, src, bytesWritten, aw0, w0, ws);
    }
  }

  lemma NothingYet(bursts: seq<Burst>, addr: nat)
    ensures Transfers(Beats(bursts[..0]), [], addr, [], ReachAll(bursts[..0], addr))
    ensures Beats(bursts[..0]) == []
  {
    PutsNothing(addr);
  }

  lemma SliceOfSlice<T>(s: seq<T>, o: nat, n: nat, a: nat, b: nat)
    requires o + n <= |s| && a <= b <= n
    ensures s[o..o + n][a..b] == s[o + a..o + b]
  {
    var t, u := s[o..o + n][a..b], s[o + a..o + b];
    forall i: nat | i < |t| ensures t[i] == u[i] {
      assert s[o..o + n][a + i] == s[o + (a + i)];
    }
  }

  lemma Extended<T>(s: seq<T>, a: nat, b: nat)
    requires a <= b <= |s|
    ensures s[..b] == s[..a] + s[a..b]
  {
  }

  lemma PushTwice<T>(base: seq<T>, s: seq<T>, t: seq<T>)
    ensures base + s + t == base + (s + t)
  {
  }

  lemma BeatsNext(bursts: seq<Burst>, n: nat)
    requires n < |bursts|
    ensures Beats(bursts[..n + 1]) == Beats(bursts[..n]) + [bursts[n].beat]
  {
  }

  /** Where the first n bursts end. */
  function Done(bursts: seq<Burst>, n: nat, addr: nat): nat
    requires n <= |bursts|
  {
    if n == 0 then addr else bursts[n - 1].End()
  }

  lemma {:induction false} BurstAt(bursts: seq<Burst>, n: nat, a: nat, b: nat)
    requires Covered(bursts, a, b) && n < |bursts|
    ensures bursts[n].Start() == Done(bursts, n, a) && bursts[n].End() <= b && a <= bursts[n].Start()
    decreases |bursts|
  {
    var k := |bursts| - 1;
    if n < k {
      BurstAt(bursts[..k], n, a, bursts[k].Start());
    } else if k > 0 {
      assert bursts[..k][k - 1].End() == bursts[k].Start();
    }
  }

  lemma AllDone(bursts: seq<Burst>, a: nat, b: nat)
    requires Split(bursts, a, b, b)
    ensures Done(bursts, |bursts|, a) == b
  {
  }

  /** A burst that is not the last one ends with its page, so its last beat is full. */
  lemma InnerReach(bursts: seq<Burst>, n: nat, a: nat, b: nat)
    requires Split(bursts, a, b, b) && n < |bursts|
    ensures Legal(bursts[n]) && bursts[n].Start() == Done(bursts, n, a) && bursts[n].End() <= b
    ensures n > 0 ==> Reach(bursts[n - 1]) == bursts[n - 1].End()
  {
    BurstAt(bursts, n, a, b);
    if n > 0 {
      ReachInLine(bursts[n - 1]);
      assert bursts[n].nBytes >= 1;
    }
  }

  lemma ReachAllPush(bursts: seq<Burst>, n: nat, addr: nat)
    requires n < |bursts| && (n > 0 ==> Reach(bursts[n - 1]) == bursts[n - 1].End())
    ensures ReachAll(bursts[..n], addr) == Done(bursts, n, addr)
    ensures ReachAll(bursts[..n + 1], addr) == Reach(bursts[n])
    ensures bursts[..n + 1] == bursts[..n] + [bursts[n]]
  {
  }

  /** The beats of one more burst. */
  lemma TransferAppend(aw: seq<AxBeat>, ws: seq<WBeat>, ax: AxBeat, more: seq<WBeat>, addr: nat, src: seq<byte>,
                       data: seq<byte>, reach: nat, reach': nat)
    requires Transfers(aw, ws, addr, src, reach)
    requires Puts(LinesOf(ax, ax.len + 1), more, addr + |src|, data, reach')
    requires Flags(more) == LastsOf(ax.len + 1, ax.len)
    requires reach <= addr + |src| + |data| <= reach'
    ensures Transfers(aw + [ax], ws + more, addr, src + data, reach')
  {
    var all := aw + [ax];
    assert all[..|all| - 1] == aw;
    assert Flags(ws + more) == Flags(ws) + Flags(more);
    hide Puts;
    PutsAppend(Lines(aw), ws, LinesOf(ax, ax.len + 1), more, addr, src, data, reach, reach');
  }

  lemma TransferStep(prefix: seq<Burst>, b: Burst, addr: nat, src: seq<byte>, data: seq<byte>, ws: seq<WBeat>,
                     more: seq<WBeat>)
    requires Legal(b) && |data| == b.nBytes && addr + |src| == b.Start() == ReachAll(prefix, addr)
    requires Transfers(Beats(prefix), ws, addr, src, ReachAll(prefix, addr))
    requires Puts(LinesOf(b.beat, b.beat.len + 1), more, b.Start(), data, Reach(b))
    requires Flags(more) == LastsOf(b.beat.len + 1, b.beat.len)
    ensures Transfers(Beats(prefix + [b]), ws + more, addr, src + data, ReachAll(prefix + [b], addr))
  {
    assert Beats(prefix + [b]) == Beats(prefix) + [b.beat];
    ReachInLine(b);
    TransferAppend(Beats(prefix), ws, b.beat, more, addr, src, data, ReachAll(prefix, addr), Reach(b));
  }

  lemma WriteStep(bursts: seq<Burst>, n: nat, addr: nat, src: seq<byte>, ws: seq<WBeat>, more: seq<WBeat>, written: nat)
    requires n < |bursts| && Legal(bursts[n]) && written + bursts[n].nBytes <= |src|
    requires addr + written == bursts[n].Start() == Done(bursts, n, addr)
    requires n > 0 ==> Reach(bursts[n - 1]) == bursts[n - 1].End()
    requires Transfers(Beats(bursts[..n]), ws, addr, src[..written], ReachAll(bursts[..n], addr))
    requires Puts(LinesOf(bursts[n].beat, bursts[n].beat.len + 1), more, bursts[n].Start(),
                  src[written..written + bursts[n].nBytes], Reach(bursts[n]))
    requires Flags(more) == LastsOf(bursts[n].beat.len + 1, bursts[n].beat.len)
    ensures Transfers(Beats(bursts[..n + 1]), ws + more, addr, src[..written + bursts[n].nBytes],
                      ReachAll(bursts[..n + 1], addr))
  {
    hide Transfers, Puts, Legal, Reach, Beats, LinesOf, LastsOf, Flags;
    ReachAllPush(bursts, n, addr);
    Extended(src, written, written + bursts[n].nBytes);
    hide *;
    TransferStep(bursts[..n], bursts[n], addr, src[..written], src[written..written + bursts[n].nBytes], ws, more);
  }
}
