/** Splitting a transfer into AXI bursts, and the write beats of the master. */
module Axi {

  const AXI_SW: nat := 64      // bytes of the data bus
  const AXI_SW_LOG: nat := 6
  const PAGE: nat := 4096

  type AxSize = s: nat | s <= AXI_SW_LOG

  /** Bytes of a beat. */
  function NumBytes(size: AxSize): (n: nat)
    ensures 1 <= n <= AXI_SW
  {
    match size
    case 0 => 1
    case 1 => 2
    case 2 => 4
    case 3 => 8
    case 4 => 16
    case 5 => 32
    case _ => 64
  }

  function Power(s: nat): nat {
    if s == 0 then 1 else 2 * Power(s - 1)
  }

  /** The sizes of beats are the powers of two up to the width of the bus. */
  lemma Doubling(size: AxSize)
    ensures NumBytes(0) == 1 && NumBytes(AXI_SW_LOG) == AXI_SW && PAGE == Power(12)
    ensures size < AXI_SW_LOG ==> NumBytes(size + 1) == 2 * NumBytes(size)
    ensures NumBytes(size) == Power(size)
  {
    assert Power(3) == 8 && Power(6) == 8 * Power(3) && Power(9) == 8 * Power(6) && Power(12) == 8 * Power(9);
    assert Power(1) == 2 && Power(2) == 4 && Power(4) == 2 * Power(3) && Power(5) == 2 * Power(4);
  }

  /** log2, rounded down, of a number of bytes that fits the bus. */
  function Log2(n: nat): (s: AxSize)
    requires 1 <= n <= AXI_SW
    ensures NumBytes(s) <= n && forall t: AxSize | t < s :: NumBytes(t) < n
  {
    if n < 2 then 0 else if n < 4 then 1 else if n < 8 then 2 else if n < 16 then 3
    else if n < 32 then 4 else if n < 64 then 5 else 6
  }

  function AlignedAddress(addr: nat, size: AxSize): nat {
    addr / NumBytes(size) * NumBytes(size)
  }

  function Line(addr: nat): nat {
    addr / AXI_SW
  }

  function PageNum(addr: nat): nat {
    addr / PAGE
  }

  datatype AxBeat = AxBeat(addr: nat, size: AxSize, len: nat)
  {
    function BeatAddr(i: nat): nat {
      if i == 0 then addr else AlignedAddress(addr, size) + i * NumBytes(size)
    }

    function LowerByte(i: nat): nat {
      BeatAddr(i) % AXI_SW
    }

    function UpperByte(i: nat, nBytes: nat): int {
      if i == 0 then AlignedAddress(addr, size) + NumBytes(size) - Line(addr) * AXI_SW
      else if i == len then nBytes - (AXI_SW - LowerByte(0)) - (len - 1) * AXI_SW
      else LowerByte(i) + NumBytes(size)
    }
  }

  datatype Burst = Burst(beat: AxBeat, nBytes: nat)
  {
    function Start(): nat {
      beat.addr
    }

    function End(): nat {
      beat.addr + nBytes
    }
  }

  /* ---------- the container of a single beat ---------- */

  lemma InContainer(addr: nat, size: AxSize)
    ensures AlignedAddress(addr, size) <= addr < AlignedAddress(addr, size) + NumBytes(size)
    ensures Line(addr) * AXI_SW <= AlignedAddress(addr, size)
    ensures AlignedAddress(addr, size) + NumBytes(size) <= Line(addr) * AXI_SW + AXI_SW
  {
    assert NumBytes(size) * NumBytes(AXI_SW_LOG - size) == AXI_SW;
    hide NumBytes;
    var w, k := NumBytes(size), NumBytes(AXI_SW_LOG - size);
    var p, q := addr / w, addr / AXI_SW;
    assert p * w <= addr < p * w + w;
    InBlock(addr, w, k, p, q);
  }

  lemma Regroup(q: nat, k: nat, w: nat)
    ensures q * (w * k) == (q * k) * w
  {
  }

  /** A block of w bytes lies inside one of w * k bytes. */
  lemma InBlock(addr: nat, w: nat, k: nat, p: nat, q: nat)
    requires w * k == AXI_SW && p * w <= addr < p * w + w && q * AXI_SW <= addr < q * AXI_SW + AXI_SW
    ensures q * AXI_SW <= p * w && p * w + w <= q * AXI_SW + AXI_SW
  {
    Regroup(q, k, w);
    Regroup(q + 1, k, w);
    Between(addr, w, p, q * k, (q + 1) * k);
  }

  lemma Between(addr: nat, w: nat, p: nat, a: nat, b: nat)
    requires p * w <= addr < p * w + w && a * w <= addr < b * w
    ensures a * w <= p * w && p * w + w <= b * w
  {
    assert (p + 1) * w == p * w + w;
    Scaled(a, p + 1, w);
    Scaled(p, b, w);
    Scaled(p, a, w);
    Scaled(b, p + 1, w);
  }

  /** Multiples of w are in the order of their factors. */
  lemma Scaled(x: int, y: int, w: nat)
    ensures x * w < y * w ==> x < y
    ensures x >= y ==> x * w >= y * w
  {
    if x >= y {
      assert (x - y) * w >= 0;
    }
  }

  /** The aligned container of 2^size bytes holds n bytes from addr on. */
  predicate Holds(addr: nat, n: nat, size: AxSize) {
    addr + n <= AlignedAddress(addr, size) + NumBytes(size)
  }

  /** The n bytes from addr on lie in one aligned block of w bytes. */
  ghost predicate OneBlock(addr: nat, n: nat, w: nat) {
    w >= 1 && n >= 1 && addr / w == (addr + n - 1) / w
  }

  lemma HoldsIs(addr: nat, n: nat, size: AxSize)
    requires n >= 1
    ensures Holds(addr, n, size) <==> OneBlock(addr, n, Power(size))
  {
    Doubling(size);
    hide Power, NumBytes;
    SameBlock(addr, n, NumBytes(size));
  }

  lemma SameBlock(addr: nat, n: nat, w: nat)
    requires n >= 1 && w >= 1
    ensures addr + n <= addr / w * w + w <==> addr / w == (addr + n - 1) / w
  {
    var q, e := addr / w, addr + n - 1;
    assert addr == q * w + addr % w && e == e / w * w + e % w;
    if e < q * w + w {
      DivOf(e, w, q, e - q * w);
    }
  }

  lemma DivOf(a: nat, w: nat, q: nat, r: nat)
    requires w >= 1 && a == q * w + r && r < w
    ensures a / w == q
  {
    var d := a / w - q;
    assert d * w == r - a % w;
    Scaled(d, 1, w);
    Scaled(-1, d, w);
  }

  lemma LegalHolds(b: Burst)
    requires Legal(b) && b.beat.len == 0
    ensures Holds(b.Start(), b.nBytes, b.beat.size)
  {
    SmallestIs(b.Start(), b.nBytes, b.beat.size);
  }

  /** The smallest aligned block of a power of two that holds them. */
  ghost predicate Smallest(addr: nat, n: nat, size: AxSize) {
    OneBlock(addr, n, Power(size)) && forall s: nat | s < size :: !OneBlock(addr, n, Power(s))
  }

  lemma SmallestIs(addr: nat, n: nat, size: AxSize)
    requires n >= 1
    ensures Smallest(addr, n, size) <==> Holds(addr, n, size) && forall s: AxSize | s < size :: !Holds(addr, n, s)
  {
    hide Holds, OneBlock, Power;
    forall s: AxSize ensures Holds(addr, n, s) <==> OneBlock(addr, n, Power(s)) {
      HoldsIs(addr, n, s);
    }
    if Smallest(addr, n, size) {
      forall s: AxSize | s < size ensures !Holds(addr, n, s) {
        assert !OneBlock(addr, n, Power(s));
      }
    }
    if Holds(addr, n, size) && forall s: AxSize | s < size :: !Holds(addr, n, s) {
      forall s: nat | s < size ensures !OneBlock(addr, n, Power(s)) {
        var t: AxSize := s;
        assert !Holds(addr, n, t);
      }
    }
  }

  /** The loop that widens the beat until the bytes fit: it ends with the smallest aligned block of a power of two that
      holds them. */
  method BeatSize(addr: nat, nBytes: nat) returns (size: AxSize)
    requires nBytes >= 1 && Line(addr) == Line(addr + nBytes - 1)
    ensures Smallest(addr, nBytes, size)
  {
    size := Log2(nBytes);
    InContainer(addr, size);
    TooSmall(addr, nBytes, size);
    while AxBeat(addr, size, 0).UpperByte(0, nBytes) - AxBeat(addr, size, 0).LowerByte(0) < nBytes
      invariant forall s: AxSize | s < size :: !Holds(addr, nBytes, s)
      decreases AXI_SW_LOG - size
    {
      FullLine(addr, nBytes);
      assert size < AXI_SW_LOG;
      size := size + 1;
    }
    SmallestIs(addr, nBytes, size);
  }

  lemma FullLine(addr: nat, n: nat)
    requires n >= 1 && Line(addr) == Line(addr + n - 1)
    ensures Holds(addr, n, AXI_SW_LOG)
  {
  }

  lemma TooSmall(addr: nat, n: nat, size: AxSize)
    requires 1 <= n <= AXI_SW && size <= Log2(n)
    ensures forall s: AxSize | s < size :: !Holds(addr, n, s)
  {
    forall s: AxSize | s < size ensures !Holds(addr, n, s) {
      InContainer(addr, s);
    }
  }

  /* ---------- bursts ---------- */

  /** A burst as the protocol wants it (AMBA AXI, IHI 0022, section A3.4.1): within one page, at most 256
      beats, as many beats as lines touched; whole lines, or one beat in the smallest container. */
  ghost predicate Legal(b: Burst) {
    && b.nBytes >= 1
    && PageNum(b.Start()) == PageNum(b.End() - 1)
    && b.beat.len == Line(b.End() - 1) - Line(b.Start()) < 256
    && (if b.beat.len > 0 then b.beat.size == AXI_SW_LOG else Smallest(b.Start(), b.nBytes, b.beat.size))
  }

  /** A burst ends at the end of the transfer or of a page. */
  ghost predicate EndsWell(b: Burst, end: nat) {
    b.End() == end || b.End() % PAGE == 0
  }

  /** The bursts cover [a, b), one after the other. */
  ghost predicate Covered(bursts: seq<Burst>, a: nat, b: nat) {
    if bursts == [] then a == b
    else
      var k := |bursts| - 1;
      bursts[k].End() == b && a <= bursts[k].Start() && Covered(bursts[..k], a, bursts[k].Start())
  }

  lemma CoveredPush(bursts: seq<Burst>, a: nat, burst: Burst)
    requires Covered(bursts, a, burst.Start()) && a <= burst.Start()
    ensures Covered(bursts + [burst], a, burst.End())
  {
    assert (bursts + [burst])[..|bursts|] == bursts;
  }

  lemma {:induction false} CoveredJoin(xs: seq<Burst>, ys: seq<Burst>, a: nat, b: nat, c: nat)
    requires Covered(xs, a, b) && Covered(ys, b, c) && a <= b
    ensures Covered(xs + ys, a, c)
    decreases |ys|
  {
    if ys == [] {
      assert xs + ys == xs;
    } else {
      var k := |ys| - 1;
      CoveredJoin(xs, ys[..k], a, b, ys[k].Start());
      CoveredPush(xs + ys[..k], a, ys[k]);
      assert xs + ys == xs + ys[..k] + [ys[k]];
    }
  }

  /** Beats of a transfer that stays in its page. */
  lemma BeatCount(addr: nat, n: nat)
    requires n >= 1 && PageNum(addr) == PageNum(addr + n - 1)
    ensures n > AXI_SW - addr % AXI_SW ==>
      1 + (n - (AXI_SW - addr % AXI_SW) + AXI_SW - 1) / AXI_SW == Line(addr + n - 1) - Line(addr) + 1 <= 64
    ensures n <= AXI_SW - addr % AXI_SW <==> Line(addr) == Line(addr + n - 1)
  {
  }

  /** The end of the page that addr is in. */
  lemma PageEnd(addr: nat, n: nat)
    requires n >= 1 && PageNum(addr) != PageNum(addr + n - 1)
    ensures 1 <= PAGE - addr % PAGE < n && (addr + (PAGE - addr % PAGE)) % PAGE == 0
    ensures PageNum(addr) == PageNum(addr + (PAGE - addr % PAGE) - 1)
  {
  }

  /** Legal bursts that cover [a, b) and break at page ends only, but for the end of the transfer. */
  ghost predicate Split(bursts: seq<Burst>, a: nat, b: nat, end: nat) {
    && Covered(bursts, a, b)
    && forall k: nat | k < |bursts| :: Legal(bursts[k]) && EndsWell(bursts[k], end)
  }

  lemma SplitPush(bursts: seq<Burst>, a: nat, burst: Burst, end: nat)
    requires Split(bursts, a, burst.Start(), end) && a <= burst.Start() && Legal(burst) && EndsWell(burst, end)
    ensures Split(bursts + [burst], a, burst.End(), end)
  {
    CoveredPush(bursts, a, burst);
  }

  /** A part of the transfer up to the end of a page. */
  lemma SplitJoin(xs: seq<Burst>, ys: seq<Burst>, a: nat, b: nat, c: nat, end: nat)
    requires Split(xs, a, b, end) && Split(ys, b, c, c) && a <= b && c % PAGE == 0
    ensures Split(xs + ys, a, c, end)
  {
    CoveredJoin(xs, ys, a, b, c);
  }

  /** create_ax_beats */
  method CreateAxBeats(addr0: nat, nBytes0: nat, axBeats0: seq<Burst>) returns (axBeats: seq<Burst>)
    ensures axBeats0 <= axBeats
    ensures Split(axBeats[|axBeats0|..], addr0, addr0 + nBytes0, addr0 + nBytes0)
    decreases nBytes0
  {
    var addr: nat, nBytes: nat := addr0, nBytes0;
    ghost var end, m0 := addr0 + nBytes0, |axBeats0|;
    axBeats := axBeats0;
    assert axBeats[m0..] == [];
    hide Split, Legal;
    assert Split([], addr0, addr0, end) by {
      SplitNothing(addr0, end);
    }
    while nBytes > 0
      invariant addr + nBytes == end && addr0 <= addr
      invariant axBeats0 <= axBeats && Split(axBeats[m0..], addr0, addr, end)
      decreases nBytes
    {
      ghost var before := axBeats[m0..];
      var bytesInBurst;
      if PageNum(addr) != PageNum(addr + nBytes - 1) {
        PageEnd(addr, nBytes);
        bytesInBurst := PAGE - addr % PAGE;
        var m := |axBeats|;
        axBeats := CreateAxBeats(addr, bytesInBurst, axBeats);
        SplitJoin(before, axBeats[m..], addr0, addr, addr + bytesInBurst, end);
        assert axBeats[m0..] == before + axBeats[m..];
      } else {
        var burst := OneBurst(addr, nBytes);
        bytesInBurst := burst.nBytes;
        SplitPush(before, addr0, burst, end);
        assert (axBeats + [burst])[m0..] == before + [burst];
        axBeats := axBeats + [burst];
      }
      addr := addr + bytesInBurst;
      nBytes := nBytes - bytesInBurst;
    }
  }

  lemma SplitNothing(a: nat, end: nat)
    ensures Split([], a, a, end)
  {
  }

  /** The burst for bytes that stay in their page. */
  method OneBurst(addr: nat, nBytes: nat) returns (burst: Burst)
    requires nBytes >= 1 && PageNum(addr) == PageNum(addr + nBytes - 1)
    ensures burst.Start() == addr && burst.nBytes == nBytes && Legal(burst)
  {
    BeatCount(addr, nBytes);
    var axSize: AxSize;
    if nBytes > AXI_SW || Line(addr) != Line(addr + nBytes - 1) {
      axSize := AXI_SW_LOG;
    } else {
      axSize := BeatSize(addr, nBytes);
    }
    var bytesInFirstBeat, bytesInLastBeat, nBeats := AXI_SW - addr % AXI_SW, 0, 0;
    if nBytes <= bytesInFirstBeat {
      bytesInFirstBeat := nBytes;
      nBeats := 1;
    } else {
      nBeats := 1 + (nBytes - bytesInFirstBeat + AXI_SW - 1) / AXI_SW;
      bytesInLastBeat := nBytes - bytesInFirstBeat - AXI_SW * (nBeats - 2);
    }
    var bytesInBurst := bytesInFirstBeat;
    if nBeats > 256 {
      nBeats := 256;
      bytesInLastBeat := AXI_SW;
    }
    if nBeats > 1 {
      bytesInBurst := bytesInBurst + (nBeats - 2) * AXI_SW + bytesInLastBeat;
    }
    burst := Burst(AxBeat(addr, axSize, nBeats - 1), bytesInBurst);
  }
}
