/** Blocks at wrong displacements: when a loop made for other displacements selects the right bytes all the same. */
module BlockDisps {
  import opened Dataloops
  import opened Types
  import opened CreateVectors
  import opened CreateBlocks

  /** Blocks that start elsewhere select other bytes. */
  lemma {:induction false} OtherDisps(h: Handle, blk: nat, d: seq<int>, e: seq<int>)
    requires h.Sized() && h.Size() > 0 && blk >= 1 && |d| == |e|
    requires BlockCopies(h, 0, Same(|d|, blk), d) == BlockCopies(h, 0, Same(|e|, blk), e)
    ensures d == e
    decreases |d|
  {
    if d != [] {
      var n := |d|;
      SameTail(n, blk);
      ghost var x, y := Copies(h, 0 + d[0], blk), Copies(h, 0 + e[0], blk);
      ghost var s, t := BlockCopies(h, 0, Same(n - 1, blk), d[1..]), BlockCopies(h, 0, Same(n - 1, blk), e[1..]);
      CopiesLen(h, d[0], blk);
      CopiesLen(h, e[0], blk);
      assert x + s == y + t;
      SplitEqual(x, s, y, t);
      FirstByte(h, d[0], blk);
      FirstByte(h, e[0], blk);
      OtherDisps(h, blk, d[1..], e[1..]);
    }
  }

  lemma SplitEqual<T>(x: seq<T>, s: seq<T>, y: seq<T>, t: seq<T>)
    requires |x| == |y| && x + s == y + t
    ensures x == y && s == t
  {
    assert x == (x + s)[..|x|] && y == (y + t)[..|x|];
    assert s == (x + s)[|x|..] && t == (y + t)[|x|..];
  }

  lemma FirstByte(h: Handle, b: int, n: nat)
    requires h.Sized() && h.Size() > 0 && n >= 1
    ensures |TypeBytes(h, 0)| > 0 && Copies(h, b, n) != [] && Copies(h, b, n)[0] == TypeBytes(h, 0)[0] + b
  {
    TypeBytesLen(h, 0);
    TypeBytesShift(h, 0, b);
  }

  /* ---------- a constructor that is not exact for the wrong displacements ---------- */

  /** The right blocks are the ones that the merged or fused loop selects. */
  ghost predicate HappensRight(h: Handle, blk: nat, got: seq<int>, want: seq<int>)
    requires Coalesces(h) && |got| == |want| >= 1
  {
    if ContigCount(got, blk * h.Extent()) == 1 then
      blk == 1 && forall j: nat | j < |want| :: want[j] == j * Packed(h).dextent
    else
      && |got| >= 2 && Bytes(h.loop, 0) == Run(-want[0], h.dsize)
      && forall j: nat | j < |want| :: want[j] == want[0] + j * got[1]
  }

  function Multiples(n: nat, x: int): seq<int> {
    seq(n, j => j * x)
  }

  /** Instances one after the other are blocks of one. */
  lemma SingleBlocks(h: Handle, n: nat)
    requires h.Derived?
    ensures Copies(h, 0, n) == BlockCopies(h, 0, Same(n, 1), Multiples(n, h.dextent))
  {
    var d := Multiples(n, h.dextent);
    StridedBlocks(h, 0, 0, d, 1, h.dextent);
    AdjoiningCopies(h, 0, 0, n, 1, h.dextent);
    assert d[0..] == d;
  }

  /** Blocks of one do not depend on the extent. */
  lemma {:induction false} SinglesFree(h: Handle, e: int, d: seq<int>)
    requires h.Derived?
    ensures BlockCopies(h, 0, Same(|d|, 1), d) == BlockCopies(h.(dextent := e), 0, Same(|d|, 1), d)
    decreases |d|
  {
    if d != [] {
      SameTail(|d|, 1);
      var g := h.(dextent := e);
      assert Copies(h, 0 + d[0], 1) == TypeBytes(h, d[0]) + Copies(h, d[0] + h.Extent(), 0);
      assert Copies(g, 0 + d[0], 1) == TypeBytes(g, d[0]) + Copies(g, d[0] + g.Extent(), 0);
      SinglesFree(h, e, d[1..]);
    }
  }

  /** The first byte of the first instance, and of the second one. */
  lemma TwoCopies(h: Handle, b: int, n: nat)
    requires h.Sized() && h.Derived? && n >= 2 && h.dsize != 0
    ensures |Bytes(h.loop, 0)| == h.dsize < |Copies(h, b, n)|
    ensures Copies(h, b, n)[0] == Bytes(h.loop, 0)[0] + b
    ensures Copies(h, b, n)[h.dsize] == Bytes(h.loop, 0)[0] + b + h.dextent
  {
    AtShift(h.loop, b);
    AtShift(h.loop, b + h.dextent);
    hide Bytes;
    assert Copies(h, b, n) == Bytes(h.loop, b) + Copies(h, b + h.dextent, n - 1);
    assert Copies(h, b + h.dextent, n - 1) == Bytes(h.loop, b + h.dextent)
                                              + Copies(h, b + h.dextent + h.dextent, n - 2);
  }

  lemma FirstOfBlocks(h: Handle, blk: nat, d: seq<int>)
    requires h.Sized() && d != []
    ensures |BlockCopies(h, 0, Same(|d|, blk), d)| >= |Copies(h, d[0], blk)|
    ensures BlockCopies(h, 0, Same(|d|, blk), d)[..|Copies(h, d[0], blk)|] == Copies(h, d[0], blk)
  {
    SameTail(|d|, blk);
    assert 0 + d[0] == d[0];
  }

  /** Blocks of two or more show the extent. */
  lemma ExtentShows(h: Handle, blk: nat, n: nat, want: seq<int>)
    requires h.Sized() && Coalesces(h) && h.dsize != 0 && blk >= 2 && |want| >= 1 && n >= 2
    requires Copies(Packed(h), 0, n) == BlockCopies(h, 0, Same(|want|, blk), want)
    ensures Packed(h).dextent == h.dextent
  {
    TwoCopies(Packed(h), 0, n);
    TwoCopies(h, want[0], blk);
    hide Copies, BlockCopies, Bytes;
    FirstOfBlocks(h, blk, want);
    var all, first := BlockCopies(h, 0, Same(|want|, blk), want), Copies(h, want[0], blk);
    assert all[..|first|][0] == all[0] && all[..|first|][h.dsize] == all[h.dsize];
  }

  /** One merged loop. */
  lemma PackedRight(h: Handle, blk: nat, got: seq<int>, want: seq<int>)
    requires h.Sized() && h.Size() > 0 && blk >= 1 && |got| == |want| >= 1
    requires ContigCount(got, blk * h.Extent()) == 1 && !BlockIndexedExact(h, blk, got, true)
    ensures Coalesces(h)
    ensures WrongBlocks(h, blk, got, true) == BlockCopies(h, 0, Same(|want|, blk), want)
       <==> HappensRight(h, blk, got, want)
  {
    var n, x := |got|, Packed(h).dextent;
    assert !ContigExact(h, n * blk);
    hide BlockCopies, Copies, Bytes;
    if blk == 1 {
      SingleBlocks(Packed(h), n);
      SinglesFree(h, x, Multiples(n, x));
      if HappensRight(h, blk, got, want) {
        assert want == Multiples(n, x);
      } else if WrongBlocks(h, blk, got, true) == BlockCopies(h, 0, Same(n, blk), want) {
        OtherDisps(h, 1, want, Multiples(n, x));
      }
    } else if WrongBlocks(h, blk, got, true) == BlockCopies(h, 0, Same(n, blk), want) {
      ExtentShows(h, blk, n * blk, want);
    }
  }

  /* ---------- the fused vector ---------- */

  /** A type that is one run from x on. */
  lemma {:induction false} RunsFrom(h: Handle, x: int, b: int, n: nat)
    requires h.Derived? && h.dextent == h.dsize && Bytes(h.loop, 0) == Run(x, h.dsize)
    ensures Copies(h, b, n) == Copies(Basic(h.dsize), b + x, n)
    decreases n
  {
    hide Bytes;
    if n > 0 {
      BytesShift(h.loop, 0, b);
      assert TypeBytes(h, b) == Bytes(h.loop, 0 + b) == Run(b + x, h.dsize);
      RunsFrom(h, x, b + h.dextent, n - 1);
      assert b + h.dextent + x == b + x + h.dsize;
    }
  }

  lemma {:induction false} RunBlocks(h: Handle, x: int, blk: nat, want: seq<int>, d: seq<int>)
    requires h.Derived? && h.dextent == h.dsize && Bytes(h.loop, 0) == Run(x, h.dsize)
    requires |want| == |d| && forall j: nat | j < |d| :: d[j] == want[j] + x
    ensures BlockCopies(h, 0, Same(|want|, blk), want) == BlockCopies(Basic(h.dsize), 0, Same(|d|, blk), d)
    decreases |d|
  {
    hide Bytes, Run, Copies;
    if d != [] {
      SameTail(|d|, blk);
      RunsFrom(h, x, 0 + want[0], blk);
      RunBlocks(h, x, blk, want[1..], d[1..]);
    }
  }

  /** The first instance of the first block. */
  lemma FirstInstance(h: Handle, blk: nat, d: seq<int>)
    requires h.Sized() && blk >= 1 && |d| >= 1
    ensures |BlockCopies(h, 0, Same(|d|, blk), d)| >= h.Size()
    ensures BlockCopies(h, 0, Same(|d|, blk), d)[..h.Size()] == TypeBytes(h, d[0])
  {
    FirstOfBlocks(h, blk, d);
    TypeBytesLen(h, d[0]);
    var all, first := BlockCopies(h, 0, Same(|d|, blk), d), Copies(h, d[0], blk);
    assert first == TypeBytes(h, d[0]) + Copies(h, d[0] + h.Extent(), blk - 1);
    hide BlockCopies, Copies, TypeBytes;
    assert all[..h.Size()] == all[..|first|][..h.Size()] == first[..h.Size()];
  }

  lemma ShiftedBack(h: Handle, w: int)
    requires h.Derived? && TypeBytes(h, w) == Run(0, h.dsize)
    ensures Bytes(h.loop, 0) == Run(-w, h.dsize)
  {
    hide Bytes;
    TypeBytesShift(h, w, -w);
    assert Shift(Run(0, h.dsize), -w) == Run(-w, h.dsize);
  }

  /** It shows what the type is. */
  lemma RunShows(h: Handle, blk: nat, want: seq<int>, d: seq<int>)
    requires h.Sized() && h.Derived? && blk >= 1 && |want| == |d| >= 1 && d[0] == 0
    requires BlockCopies(Basic(h.dsize), 0, Same(|d|, blk), d) == BlockCopies(h, 0, Same(|want|, blk), want)
    ensures Bytes(h.loop, 0) == Run(-want[0], h.dsize)
  {
    hide BlockCopies, Bytes, Run;
    FirstInstance(h, blk, want);
    FirstInstance(Basic(h.dsize), blk, d);
    ShiftedBack(h, want[0]);
  }

  lemma FusedRight(h: Handle, blk: nat, got: seq<int>, want: seq<int>)
    requires h.Sized() && h.Size() > 0 && blk >= 1 && |got| == |want| >= 1
    requires ContigCount(got, blk * h.Extent()) != 1 && !BlockIndexedExact(h, blk, got, true)
    ensures Coalesces(h)
    ensures WrongBlocks(h, blk, got, true) == BlockCopies(h, 0, Same(|want|, blk), want)
       <==> HappensRight(h, blk, got, want)
  {
    hide BlockCopies, StridedCopies, Bytes, Copies, VectorExact, Run, ContigCount;
    assert |got| >= 2 && FixedStride(got, got[1]) && !VectorExact(h, |got|, blk, got[1], true);
    FusedThen(h, blk, got, true);
    var n, plain := |got|, Basic(h.dsize);
    StridedBlocks(plain, 0, 0, got, blk, got[1]);
    assert got[0..] == got && got[0] == 0 * got[1];
    var d := seq(n, j requires 0 <= j < n => want[j] - want[0]);
    if BlockCopies(plain, 0, Same(n, blk), got) == BlockCopies(h, 0, Same(n, blk), want) {
      RunShows(h, blk, want, got);
      RunBlocks(h, -want[0], blk, want, d);
      OtherDisps(plain, blk, d, got);
      assert forall j: nat | j < n :: d[j] == got[j];
    } else if HappensRight(h, blk, got, want) {
      RunBlocks(h, -want[0], blk, want, got);
    }
  }

  /** What was made for other displacements is right just when it happens to be. */
  lemma WrongBlocksRight(h: Handle, blk: nat, got: seq<int>, want: seq<int>)
    requires h.Sized() && h.Size() > 0 && blk >= 1 && |got| == |want| >= 1 && !BlockIndexedExact(h, blk, got, true)
    ensures Coalesces(h)
    ensures WrongBlocks(h, blk, got, true) == BlockCopies(h, 0, Same(|want|, blk), want)
       <==> HappensRight(h, blk, got, want)
  {
    hide *;
    if ContigCount(got, blk * h.Extent()) == 1 {
      PackedRight(h, blk, got, want);
    } else {
      FusedRight(h, blk, got, want);
    }
  }
}
