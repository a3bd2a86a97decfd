/** Dataloop_create_contiguous and Dataloop_create_vector with their shortcuts. Each keeps the meaning of
    the type if and only if a condition on the old type holds. */
module CreateVectors {
  import opened Dataloops
  import opened LeafBlocks
  import opened FlattenCount
  import opened Types

  /** The loop stored for a type without data. */
  function EmptyLoop(allBytes: bool): Loop {
    var size := if allBytes then 1 else 4;
    Leaf(Contig(0), size, size)
  }

  lemma EmptyBytes(allBytes: bool, b: int)
    ensures Bytes(EmptyLoop(allBytes), b) == []
  {
    var l := EmptyLoop(allBytes);
    assert BlocksFrom(l, b, 1) == [];
    assert BlocksFrom(l, b, 0) == Elems(l, b + 0, 0) + BlocksFrom(l, b, 1);
  }

  /** Elements do not depend on the shape. */
  lemma {:induction false} SameElems(l: Loop, m: Loop, b: int, n: nat)
    requires l.Leaf? <==> m.Leaf?
    requires l.elSize == m.elSize && l.elExtent == m.elExtent
    requires l.Node? ==> l.child == m.child
    ensures Elems(l, b, n) == Elems(m, b, n)
    decreases n
  {
    if n > 0 {
      SameElems(l, m, b + l.Step(), n - 1);
    }
  }

  lemma ContigBytes(l: Loop, b: int)
    requires l.shape.Contig?
    ensures Bytes(l, b) == Elems(l, b, l.shape.count)
  {
    assert BlocksFrom(l, b, 1) == [];
    assert BlocksFrom(l, b, 0) == Elems(l, b + 0, l.shape.count) + BlocksFrom(l, b, 1);
  }

  lemma ContigHasData(l: Loop)
    requires l.shape.Contig? && Bytes(l, 0) != []
    ensures l.shape.Positive()
  {
    ContigBytes(l, 0);
  }

  lemma EmptyCarries(h: Handle, allBytes: bool, grain: nat)
    ensures Carries(h, EmptyLoop(allBytes)) && Bytes(EmptyLoop(allBytes), 0) == []
    ensures Over(h, EmptyLoop(allBytes), grain)
  {
    EmptyBytes(allBytes, 0);
  }

  lemma ContigSize(h: Handle)
    requires h.Derived? && h.Sized() && h.loop.shape.Contig?
    ensures h.loop.shape.count * h.loop.elSize == h.dsize && ElemSize(h.loop) == h.loop.elSize
  {
    ContigBytes(h.loop, 0);
    ElemsLen(h.loop, 0, h.loop.shape.count);
  }

  /* ---------- contiguous ---------- */

  /** A contiguous loop over a type whose size is its extent is merged into the old loop. */
  predicate Coalesces(h: Handle) {
    h.Derived? && h.loop.shape.Contig? && h.dsize == h.dextent
  }

  /** Merging is right for leaves; for nodes, if the old type's extent is that of its elements laid out
      one after the other (a resized type may have another). */
  predicate ContigExact(h: Handle, count: nat) {
    Coalesces(h) && h.loop.Node? && count >= 2 && h.dsize != 0 ==>
      h.dextent == h.loop.shape.count * h.loop.elExtent
  }

  function Coalesced(l: Loop, count: nat): Loop
    requires l.shape.Contig?
  {
    l.(shape := Contig(l.shape.count * count))
  }

  lemma {:induction false} CoalescedCopies(h: Handle, b: int, n: nat)
    requires h.Derived? && h.loop.shape.Contig?
    requires h.dextent == h.loop.shape.count * h.loop.Step()
    ensures Elems(h.loop, b, h.loop.shape.count * n) == Copies(h, b, n)
    decreases n
  {
    var l, k := h.loop, h.loop.shape.count;
    if n == 0 {
      assert k * n == 0;
    } else {
      CoalescedCopies(h, b + h.dextent, n - 1);
      assert k * n == k + k * (n - 1);
      ElemsAppend(l, b, k, k * (n - 1));
      ContigBytes(l, b);
    }
  }

  /** The first byte of the second copy in the merged loop. */
  lemma SecondMerged(h: Handle, n: nat)
    requires h.Sized() && Coalesces(h) && n >= 2 && h.dsize != 0
    ensures h.dsize < |Elems(h.loop, 0, h.loop.shape.count * n)| && |Bytes(h.loop, 0)| > 0
    ensures Elems(h.loop, 0, h.loop.shape.count * n)[h.dsize]
         == Bytes(h.loop, 0)[0] + h.loop.shape.count * h.loop.Step()
  {
    hide Elems, Bytes;
    var l, k := h.loop, h.loop.shape.count;
    var o := k * l.Step();
    TimesLast(k, n);
    TimesLast(k, n - 1);
    ElemsAppend(l, 0, k, k * (n - 1));
    ElemsAppend(l, o, k, k * (n - 2));
    ContigBytes(l, 0);
    ContigBytes(l, o);
    AtShift(l, o);
  }

  lemma TimesLast(k: nat, n: nat)
    requires n >= 1
    ensures k * n == k + k * (n - 1) && k * (n - 1) >= 0
  {
  }

  lemma AtShift(l: Loop, o: int)
    requires |Bytes(l, 0)| > 0
    ensures |Bytes(l, o)| == |Bytes(l, 0)| && Bytes(l, o)[0] == Bytes(l, 0)[0] + o
  {
    BytesShift(l, 0, o);
  }

  /** The first byte of the second copy. */
  lemma SecondCopy(h: Handle, n: nat)
    requires h.Sized() && h.Derived? && n >= 2 && h.dsize != 0
    ensures h.dsize < |Copies(h, 0, n)| && |Bytes(h.loop, 0)| > 0
    ensures Copies(h, 0, n)[h.dsize] == Bytes(h.loop, 0)[0] + h.dextent
  {
    AtShift(h.loop, h.dextent);
    hide Bytes;
    assert Copies(h, 0, n) == Bytes(h.loop, 0) + Copies(h, 0 + h.dextent, n - 1);
    assert Copies(h, 0 + h.dextent, n - 1) == Bytes(h.loop, h.dextent) + Copies(h, h.dextent + h.dextent, n - 2);
  }

  /** The first byte of the second copy is where the merged loop puts it only if the extents agree. */
  lemma CoalescedOnlyIf(h: Handle, n: nat)
    requires h.Sized() && Coalesces(h) && n >= 2 && h.dsize != 0
    requires Elems(h.loop, 0, h.loop.shape.count * n) == Copies(h, 0, n)
    ensures h.dextent == h.loop.shape.count * h.loop.Step()
  {
    SecondMerged(h, n);
    SecondCopy(h, n);
  }

  /** The type with the extent that its elements have when laid out one after the other. */
  function Packed(h: Handle): Handle
    requires Coalesces(h)
  {
    h.(dextent := h.loop.shape.count * h.loop.Step())
  }

  /** Merging is right for this type. */
  lemma CoalescedIsPacked(h: Handle, count: nat)
    requires h.Sized() && Coalesces(h)
    ensures Bytes(Coalesced(h.loop, count), 0) == Copies(Packed(h), 0, count)
  {
    ContigBytes(Coalesced(h.loop, count), 0);
    SameElems(Coalesced(h.loop, count), h.loop, 0, h.loop.shape.count * count);
    CoalescedCopies(Packed(h), 0, count);
  }

  method CreateContiguous(count: nat, h: Handle, allBytes: bool) returns (dlp: Loop)
    requires h.Sized()
    ensures Bytes(dlp, 0) == Copies(h, 0, count) <==> ContigExact(h, count)
    ensures !ContigExact(h, count) ==> Bytes(dlp, 0) == Copies(Packed(h), 0, count)
    ensures Carries(h, dlp) && Fills(h, dlp, count)
    ensures count == 1 && h.Derived? ==> dlp == h.loop
    ensures h.Basic? ==> dlp.Leaf? && dlp.shape.Contig?
    ensures Over(h, dlp, Grain(h, allBytes))
  {
    CopiesLen(h, 0, count);
    match h {
      case Basic(size) =>
        if allBytes {
          ByteElems(Contig(count * size), h, 0, count);
          dlp := Leaf(Contig(count * size), 1, 1);
          ContigBytes(dlp, 0);
        } else {
          WrapContig(h, 0, count);
          dlp := Leaf(Contig(count), size, size);
        }
      case Derived(loop, size, extent) =>
        if count == 1 {
          assert Copies(h, 0, 1) == TypeBytes(h, 0);
          dlp := loop;
        } else if loop.shape.Contig? && size == extent {
          dlp := Coalesced(loop, count);
          CoalescedMeans(h, count);
          CoalescedIsPacked(h, count);
          CoalescedLen(h, count);
        } else {
          WrapContig(h, 0, count);
          dlp := Node(Contig(count), size, extent, loop);
        }
    }
    if dlp.shape.Contig? && Bytes(dlp, 0) != [] {
      ContigHasData(dlp);
    }
  }

  lemma CoalescedLen(h: Handle, count: nat)
    requires h.Sized() && Coalesces(h)
    ensures Fills(h, Coalesced(h.loop, count), count)
  {
    var l := Coalesced(h.loop, count);
    ContigBytes(l, 0);
    ContigSize(h);
    ElemsLen(l, 0, h.loop.shape.count * count);
    assert h.loop.shape.count * count * h.loop.elSize == count * (h.loop.shape.count * h.loop.elSize);
  }

  lemma CoalescedMeans(h: Handle, count: nat)
    requires h.Sized() && Coalesces(h)
    ensures Bytes(Coalesced(h.loop, count), 0) == Copies(h, 0, count)
       <==> (count >= 2 && h.dsize != 0 && h.loop.Node? ==> h.dextent == h.loop.shape.count * h.loop.elExtent)
  {
    var l := Coalesced(h.loop, count);
    ContigBytes(l, 0);
    SameElems(l, h.loop, 0, h.loop.shape.count * count);
    ContigSize(h);
    if h.dextent == h.loop.shape.count * h.loop.Step() {
      CoalescedCopies(h, 0, count);
    } else if count == 0 {
      assert h.loop.shape.count * count == 0;
    } else if h.dsize == 0 {
      CopiesLen(h, 0, count);
      ElemsLen(h.loop, 0, h.loop.shape.count * count);
      NoBytes(h.loop.shape.count, h.loop.elSize, count);
    } else if count == 1 {
      ContigBytes(h.loop, 0);
      assert Copies(h, 0, 1) == TypeBytes(h, 0);
    } else if Bytes(l, 0) == Copies(h, 0, count) {
      CoalescedOnlyIf(h, count);
    }
  }

  lemma NoBytes(k: nat, es: nat, count: nat)
    requires k * es == 0
    ensures (k * count) * es == 0
  {
    if k != 0 && es != 0 {
      MulLe(1, k, es);
    }
  }

  /* ---------- vector ---------- */

  /** The stride in bytes. */
  function StrideBytes(h: Handle, stride: int, inBytes: bool): int {
    if inBytes then stride else stride * h.Extent()
  }

  /** Blocks that follow one another: handled as a contiguous type. */
  predicate Adjoining(h: Handle, blocklen: nat, stride: int, inBytes: bool) {
    (if inBytes then blocklen * h.Extent() else blocklen) == stride
  }

  /** The fused loop copies runs of bytes: right if and only if the absorbed type is one run from its
      start; the other branches are right whenever the contiguous loop they use is. */
  ghost predicate VectorExact(h: Handle, count: nat, blocklen: nat, stride: int, inBytes: bool) {
    if count == 0 || blocklen == 0 then true
    else if count == 1 then ContigExact(h, blocklen)
    else if Adjoining(h, blocklen, stride, inBytes) then ContigExact(h, count * blocklen)
    else Coalesces(h) ==> Bytes(h.loop, 0) == Run(0, h.dsize)
  }

  lemma {:induction false} NoCopies(h: Handle, b: int, i: nat, count: nat, stride: int)
    ensures StridedCopies(h, b, i, count, 0, stride) == []
    decreases count - i
  {
    if i < count {
      NoCopies(h, b, i + 1, count, stride);
    }
  }

  lemma {:induction false} AdjoiningCopies(h: Handle, b: int, i: nat, count: nat, blocklen: nat, stride: int)
    requires stride == blocklen * h.Extent() && i <= count
    ensures StridedCopies(h, b, i, count, blocklen, stride) == Copies(h, b + i * stride, (count - i) * blocklen)
    decreases count - i
  {
    if i < count {
      AdjoiningCopies(h, b, i + 1, count, blocklen, stride);
      TimesNext(i + 1, stride);
      TimesNext(count - i, blocklen);
      CopiesAppend(h, b + i * stride, blocklen, (count - i - 1) * blocklen);
    } else {
      assert (count - i) * blocklen == 0;
    }
  }

  lemma RunAt(h: Handle, b: int)
    requires h.Derived? && Bytes(h.loop, 0) == Run(0, h.dsize)
    ensures TypeBytes(h, b) == Run(b, h.dsize)
  {
    BytesShift(h.loop, 0, b);
    hide Bytes;
    assert Shift(Run(0, h.dsize), b) == Run(b, h.dsize);
  }

  /** A type that is one run can be taken for a basic type of its size. */
  lemma {:induction false} RunCopies(h: Handle, b: int, n: nat)
    requires h.Derived? && h.dextent == h.dsize && Bytes(h.loop, 0) == Run(0, h.dsize)
    ensures Copies(h, b, n) == Copies(Basic(h.dsize), b, n)
    decreases n
  {
    hide Bytes, Run;
    if n > 0 {
      RunAt(h, b);
      RunCopies(h, b + h.dextent, n - 1);
    }
  }

  lemma {:induction false} RunStrided(h: Handle, b: int, i: nat, count: nat, blocklen: nat, stride: int)
    requires h.Derived? && h.dextent == h.dsize && Bytes(h.loop, 0) == Run(0, h.dsize)
    ensures StridedCopies(h, b, i, count, blocklen, stride)
         == StridedCopies(Basic(h.dsize), b, i, count, blocklen, stride)
    decreases count - i
  {
    hide Bytes, Run, Copies;
    if i < count {
      RunCopies(h, b + i * stride, blocklen);
      RunStrided(h, b, i + 1, count, blocklen, stride);
    }
  }

  function Fused(h: Handle, count: nat, blocklen: nat, stride: int): Loop
    requires Coalesces(h)
  {
    Leaf(Vector(count, blocklen * h.loop.shape.count, stride), h.loop.elSize, h.loop.elExtent)
  }

  lemma TimesAssoc(a: nat, b: nat, c: nat)
    ensures a * b * c == a * (b * c)
  {
  }

  /** The fused loop is a vector of runs. */
  lemma {:induction false} FusedRuns(h: Handle, b: int, i: nat, count: nat, blocklen: nat, stride: int)
    requires h.Sized() && Coalesces(h)
    ensures BlocksFrom(Fused(h, count, blocklen, stride), b, i)
         == StridedCopies(Basic(h.dsize), b, i, count, blocklen, stride)
    decreases count - i
  {
    if i < count {
      var k, es, o := h.loop.shape.count, h.loop.elSize, b + i * stride;
      ContigSize(h);
      var n := blocklen * k;
      LeafElems(Fused(h, count, blocklen, stride), o, n);
      TimesAssoc(blocklen, k, es);
      WrapElems(Contig(0), Basic(h.dsize), o, blocklen);
      LeafElems(Wrap(Contig(0), Basic(h.dsize)), o, blocklen);
      FusedRuns(h, b, i + 1, count, blocklen, stride);
    }
  }

  lemma FusedMeans(h: Handle, count: nat, blocklen: nat, stride: int)
    requires h.Sized() && Coalesces(h) && count >= 1 && blocklen >= 1
    ensures Bytes(Fused(h, count, blocklen, stride), 0) == StridedCopies(h, 0, 0, count, blocklen, stride)
       <==> Bytes(h.loop, 0) == Run(0, h.dsize)
  {
    FusedRuns(h, 0, 0, count, blocklen, stride);
    var plain := Basic(h.dsize);
    if Bytes(h.loop, 0) == Run(0, h.dsize) {
      RunStrided(h, 0, 0, count, blocklen, stride);
    } else if StridedCopies(h, 0, 0, count, blocklen, stride) == StridedCopies(plain, 0, 0, count, blocklen, stride) {
      FirstCopy(h, count, blocklen, stride);
      FirstCopy(plain, count, blocklen, stride);
    }
  }

  lemma FirstCopy(h: Handle, count: nat, blocklen: nat, stride: int)
    requires count >= 1 && blocklen >= 1 && h.Sized()
    ensures |StridedCopies(h, 0, 0, count, blocklen, stride)| >= h.Size()
    ensures StridedCopies(h, 0, 0, count, blocklen, stride)[..h.Size()] == TypeBytes(h, 0)
  {
    TypeBytesLen(h, 0);
    var rest := StridedCopies(h, 0, 1, count, blocklen, stride);
    assert 0 * stride == 0;
    assert StridedCopies(h, 0, 0, count, blocklen, stride) == Copies(h, 0, blocklen) + rest;
    assert Copies(h, 0, blocklen) == TypeBytes(h, 0) + Copies(h, 0 + h.Extent(), blocklen - 1);
  }

  /** The new loop is the old type's own loop, rewritten. */
  predicate Rewrites(h: Handle, count: nat, blocklen: nat, stride: int, inBytes: bool) {
    count >= 2 && blocklen >= 1 && !Adjoining(h, blocklen, stride, inBytes) && Coalesces(h)
  }

  /** The loop that the old type has afterwards. */
  function OldLoop(h: Handle, count: nat, blocklen: nat, stride: int, inBytes: bool): Loop
    requires h.Derived?
  {
    if Rewrites(h, count, blocklen, stride, inBytes) then Fused(h, count, blocklen, StrideBytes(h, stride, inBytes))
    else h.loop
  }

  /** The old type keeps its byte map if and only if its loop is not rewritten, or it has no data. */
  lemma OldTypeKept(h: Handle, count: nat, blocklen: nat, stride: int, inBytes: bool)
    requires h.Sized() && h.Derived?
    ensures Bytes(OldLoop(h, count, blocklen, stride, inBytes), 0) == Bytes(h.loop, 0)
       <==> !Rewrites(h, count, blocklen, stride, inBytes) || h.dsize == 0
  {
    if Rewrites(h, count, blocklen, stride, inBytes) {
      var bytes := StrideBytes(h, stride, inBytes);
      FusedRuns(h, 0, 0, count, blocklen, bytes);
      StridedLength(Basic(h.dsize), 0, 0, count, blocklen, bytes);
      hide Bytes, StridedCopies;
      MulLe(2, count, blocklen * h.dsize);
      MulLe(1, blocklen, h.dsize);
      assert count * (blocklen * h.dsize) >= 2 * h.dsize;
    }
  }

  /** The fused loop has the elements of the old loop's top level. */
  function VectorGrain(h: Handle, count: nat, blocklen: nat, stride: int, inBytes: bool, allBytes: bool): nat {
    if Rewrites(h, count, blocklen, stride, inBytes) then h.loop.elSize else Grain(h, allBytes)
  }

  lemma {:induction false} StridedLength(h: Handle, b: int, i: nat, count: nat, blocklen: nat, stride: int)
    requires h.Sized() && i <= count
    ensures |StridedCopies(h, b, i, count, blocklen, stride)| == (count - i) * (blocklen * h.Size())
    decreases count - i
  {
    if i < count {
      CopiesLen(h, b + i * stride, blocklen);
      StridedLength(h, b, i + 1, count, blocklen, stride);
      Times(count - i - 1, 1, blocklen * h.Size());
    } else {
      assert 0 * (blocklen * h.Size()) == 0;
    }
  }

  method CreateVector(count: nat, blocklen: nat, stride: int, inBytes: bool, h: Handle, allBytes: bool)
    returns (dlp: Loop)
    requires h.Sized()
    ensures Bytes(dlp, 0) == StridedCopies(h, 0, 0, count, blocklen, StrideBytes(h, stride, inBytes))
       <==> VectorExact(h, count, blocklen, stride, inBytes)
    ensures Carries(h, dlp) && Fills(h, dlp, count * blocklen)
    ensures Rewrites(h, count, blocklen, stride, inBytes) ==> dlp == OldLoop(h, count, blocklen, stride, inBytes)
    ensures Over(h, dlp, VectorGrain(h, count, blocklen, stride, inBytes, allBytes))
  {
    ghost var bytes := StrideBytes(h, stride, inBytes);
    if count == 0 || blocklen == 0 {
      NoCopies(h, 0, 0, count, bytes);
      EmptyCarries(h, allBytes, VectorGrain(h, count, blocklen, stride, inBytes, allBytes));
      return EmptyLoop(allBytes);
    }
    if count == 1 {
      assert StridedCopies(h, 0, 0, 1, blocklen, bytes) == Copies(h, 0 + 0 * bytes, blocklen);
      dlp := CreateContiguous(blocklen, h, allBytes);
    } else if (if inBytes then blocklen * h.Extent() else blocklen) == stride {
      AdjoiningCopies(h, 0, 0, count, blocklen, bytes);
      dlp := CreateContiguous(count * blocklen, h, allBytes);
    } else {
      dlp := StoreVector(count, blocklen, stride, inBytes, h, allBytes);
    }
  }

  /** The branches that make a vector. */
  method StoreVector(count: nat, blocklen: nat, stride: int, inBytes: bool, h: Handle, allBytes: bool)
    returns (dlp: Loop)
    requires h.Sized() && count >= 2 && blocklen >= 1
    ensures Bytes(dlp, 0) == StridedCopies(h, 0, 0, count, blocklen, StrideBytes(h, stride, inBytes))
       <==> (Coalesces(h) ==> Bytes(h.loop, 0) == Run(0, h.dsize))
    ensures Carries(h, dlp) && Fills(h, dlp, count * blocklen)
    ensures Coalesces(h) ==> dlp == Fused(h, count, blocklen, StrideBytes(h, stride, inBytes))
    ensures Over(h, dlp, if Coalesces(h) then h.loop.elSize else Grain(h, allBytes))
  {
    ghost var bytes := StrideBytes(h, stride, inBytes);
    hide Fills;
    match h {
      case Basic(size) =>
        if allBytes {
          ByteStrided(h, 0, 0, count, blocklen, bytes);
          dlp := Leaf(Vector(count, blocklen * size, if inBytes then stride else stride * size), 1, 1);
          if size >= 1 {
            MulLe(1, blocklen, size);
          }
        } else {
          WrapStrided(h, 0, 0, count, blocklen, bytes);
          dlp := Leaf(Vector(count, blocklen, if inBytes then stride else stride * size), size, size);
        }
      case Derived(loop, size, extent) =>
        if loop.shape.Contig? && size == extent {
          FusedMeans(h, count, blocklen, bytes);
          FusedCarries(h, count, blocklen, bytes);
          FusedFills(h, count, blocklen, bytes);
          dlp := Leaf(Vector(count, blocklen * loop.shape.count, if inBytes then stride else stride * extent),
                      loop.elSize, loop.elExtent);
        } else {
          WrapStrided(h, 0, 0, count, blocklen, bytes);
          dlp := Node(Vector(count, blocklen, if inBytes then stride else stride * extent), size, extent, loop);
        }
    }
    if !Coalesces(h) {
      StridedFills(h, dlp, count, blocklen, bytes);
    }
  }

  lemma StridedFills(h: Handle, dlp: Loop, count: nat, blocklen: nat, stride: int)
    requires h.Sized() && Bytes(dlp, 0) == StridedCopies(h, 0, 0, count, blocklen, stride)
    ensures Fills(h, dlp, count * blocklen)
  {
    StridedLength(h, 0, 0, count, blocklen, stride);
    hide Bytes, StridedCopies;
    TimesAssoc(count, blocklen, h.Size());
  }

  lemma FusedFills(h: Handle, count: nat, blocklen: nat, stride: int)
    requires h.Sized() && Coalesces(h)
    ensures Fills(h, Fused(h, count, blocklen, stride), count * blocklen)
  {
    FusedRuns(h, 0, 0, count, blocklen, stride);
    StridedLength(Basic(h.dsize), 0, 0, count, blocklen, stride);
    hide Bytes, StridedCopies;
    TimesAssoc(count, blocklen, h.Size());
  }

  lemma FusedCarries(h: Handle, count: nat, blocklen: nat, stride: int)
    requires h.Sized() && Coalesces(h) && count >= 1 && blocklen >= 1
    ensures Carries(h, Fused(h, count, blocklen, stride))
  {
    if Grounded(h) {
      assert h.loop.shape.BlockSize(0) >= 1;
      MulLe(1, blocklen, h.loop.shape.count);
      if h.loop.Node? {
        Nonempty(h.loop.child, 0);
      }
    }
  }

  /** A leaf whose elements fill it is one run: for such types both shortcuts are always right. */
  lemma LeafContigIsRun(h: Handle)
    requires h.Derived? && h.Sized() && h.loop.Leaf? && h.loop.shape.Contig?
    ensures Bytes(h.loop, 0) == Run(0, h.dsize)
  {
    ContigBytes(h.loop, 0);
    LeafElems(h.loop, 0, h.loop.shape.count);
  }

  /** The fusion is wrong for a contiguous type of a type that is not one run: two copies of the blocks at
      byte 4 and at byte 0. */
  lemma FusionLosesOrder(stride: int)
    requires stride != 16
    ensures var pair := Leaf(Indexed([1, 1], [4, 0], 2), 4, 4);
      var h := Derived(Node(Contig(2), 8, 8, pair), 16, 16);
      h.Sized() && Coalesces(h) && !VectorExact(h, 2, 1, stride, true)
      && VectorGrain(h, 2, 1, stride, true, false) == 8 && Grain(h, false) == 4
  {
    var pair := Leaf(Indexed([1, 1], [4, 0], 2), 4, 4);
    var h := Derived(Node(Contig(2), 8, 8, pair), 16, 16);
    assert BlocksFrom(pair, 0, 2) == [];
    assert BlocksFrom(pair, 0, 1) == Elems(pair, 0 + 0, 1) + BlocksFrom(pair, 0, 2);
    assert BlocksFrom(pair, 0, 0) == Elems(pair, 0 + 4, 1) + BlocksFrom(pair, 0, 1);
    LeafElems(pair, 0, 1);
    LeafElems(pair, 4, 1);
    assert |Bytes(pair, 0)| == 8 && Bytes(pair, 0)[0] == 4;
    ContigBytes(h.loop, 0);
    ElemsLen(h.loop, 0, 2);
    assert Elems(h.loop, 0, 2) == Elem(h.loop, 0) + Elems(h.loop, 0 + 8, 1);
    assert Bytes(h.loop, 0)[0] == 4 && Run(0, 16)[0] == 0;
  }

  /** Coalescing across a resized type is wrong: an int of extent 12, twice, resized to extent 8, three times. */
  lemma CoalescingLosesExtent()
    ensures var twice := Node(Contig(2), 4, 12, Leaf(Contig(1), 4, 12));
      var h := Derived(twice, 8, 8);
      h.Sized() && Coalesces(h) && !ContigExact(h, 3)
  {
    var twice := Node(Contig(2), 4, 12, Leaf(Contig(1), 4, 12));
    ContigBytes(twice, 0);
    ContigBytes(twice.child, 0);
    ElemsLen(twice, 0, 2);
    ElemsLen(twice.child, 0, 1);
  }
}
