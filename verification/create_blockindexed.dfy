/** Dataloop_create_blockindexed: blocks of one length become a contiguous loop, one block, or a vector if
    their displacements allow it. */
module CreateBlocks {
  import opened Dataloops
  import opened LeafBlocks
  import opened FlattenCount
  import opened Types
  import opened CreateVectors

  /** Displacements in bytes. */
  function ByteDisps(h: Handle, disps: seq<int>, inBytes: bool): seq<int> {
    if inBytes then disps else Scaled(disps, h.Extent())
  }

  function Scaled(disps: seq<int>, e: int): seq<int> {
    seq(|disps|, k requires 0 <= k < |disps| => disps[k] * e)
  }

  /** The number of blocks that do not abut the block before them, and one. */
  function ContigCount(disps: seq<int>, step: int): (n: nat)
    requires disps != []
    ensures n >= 1
  {
    if |disps| == 1 then 1
    else (if disps[0] + step != disps[1] then 1 else 0) + ContigCount(disps[1..], step)
  }

  /** Type_blockindexed_count_contig; `unit` is the old extent for displacements in bytes, else 1. */
  method BlockindexedCountContig(disps: seq<int>, blklen: nat, unit: int) returns (contigCount: nat)
    requires disps != []
    ensures contigCount == ContigCount(disps, blklen * unit)
  {
    contigCount := 1;
    var cur := disps[0];
    var step := blklen * unit;
    for i := 1 to |disps|
      invariant cur == disps[i - 1]
      invariant contigCount - 1 + ContigCount(disps[i - 1..], step) == ContigCount(disps, step)
    {
      var next := disps[i];
      assert disps[i - 1..][1..] == disps[i..];
      if cur + step != next {
        contigCount := contigCount + 1;
      }
      cur := next;
    }
  }

  /** With a count of one the second block begins where the first one ends. */
  lemma NextAbuts(h: Handle, disps: seq<int>, blklen: nat, inBytes: bool)
    requires |disps| >= 2
    requires ContigCount(disps, blklen * if inBytes then h.Extent() else 1) == 1
    ensures ContigCount(disps[1..], blklen * if inBytes then h.Extent() else 1) == 1
    ensures ByteDisps(h, disps[1..], inBytes) == ByteDisps(h, disps, inBytes)[1..]
    ensures ByteDisps(h, disps, inBytes)[1] == ByteDisps(h, disps, inBytes)[0] + blklen * h.Extent()
  {
    if !inBytes {
      assert (disps[0] + blklen) * h.Extent() == disps[0] * h.Extent() + blklen * h.Extent();
    }
  }

  lemma SameTail(n: nat, v: nat)
    requires n >= 1
    ensures Same(n, v)[0] == v && Same(n, v)[1..] == Same(n - 1, v)
  {
  }

  lemma ByteDispsLen(h: Handle, disps: seq<int>, inBytes: bool)
    ensures |ByteDisps(h, disps, inBytes)| == |disps|
  {
  }

  /** A count of one means one run of blocks. */
  lemma {:induction false} OneRun(h: Handle, b: int, disps: seq<int>, blklen: nat, inBytes: bool)
    requires disps != []
    requires ContigCount(disps, blklen * if inBytes then h.Extent() else 1) == 1
    ensures BlockCopies(h, b, Same(|disps|, blklen), ByteDisps(h, disps, inBytes))
         == Copies(h, b + ByteDisps(h, disps, inBytes)[0], |disps| * blklen)
    decreases |disps|
  {
    hide ContigCount, ByteDisps, Copies;
    var d := ByteDisps(h, disps, inBytes);
    ByteDispsLen(h, disps, inBytes);
    SameTail(|disps|, blklen);
    if |disps| == 1 {
      assert BlockCopies(h, b, Same(0, blklen), d[1..]) == [];
      assert 1 * blklen == blklen;
    } else {
      NextAbuts(h, disps, blklen, inBytes);
      OneRun(h, b, disps[1..], blklen, inBytes);
      TimesNext(|disps|, blklen);
      CopiesAppend(h, b + d[0], blklen, (|disps| - 1) * blklen);
    }
  }

  /** Displacements 0, s, 2s, ... */
  predicate FixedStride(d: seq<int>, s: int) {
    forall k: nat | k < |d| :: d[k] == k * s
  }

  lemma {:induction false} StridedBlocks(h: Handle, b: int, i: nat, d: seq<int>, blklen: nat, s: int)
    requires FixedStride(d, s) && i <= |d|
    ensures BlockCopies(h, b, Same(|d| - i, blklen), d[i..]) == StridedCopies(h, b, i, |d|, blklen, s)
    decreases |d| - i
  {
    if i < |d| {
      StridedBlocks(h, b, i + 1, d, blklen, s);
      assert d[i..][1..] == d[i + 1..];
      assert Same(|d| - i, blklen)[1..] == Same(|d| - i - 1, blklen);
    }
  }

  /** The test that the displacements have a fixed stride from 0 on. */
  method IsVectorizable(d: seq<int>) returns (yes: bool, stride: int)
    requires |d| >= 2
    ensures yes <==> FixedStride(d, d[1])
    ensures stride == d[1]
  {
    stride := d[1];
    if d[0] != 0 {
      assert d[0] != 0 * stride;
      return false, stride;
    }
    for i := 2 to |d|
      invariant forall k: nat | k < i :: d[k] == k * stride
    {
      assert i * stride == (i - 1) * stride + stride;
      if d[i] - d[i - 1] != stride {
        return false, stride;
      }
    }
    yes := true;
  }

  /** Which condition applies is decided by the branch taken. */
  ghost predicate BlockIndexedExact(h: Handle, blklen: nat, disps: seq<int>, inBytes: bool) {
    var d := ByteDisps(h, disps, inBytes);
    if disps == [] || blklen == 0 then true
    else if ContigCount(disps, blklen * if inBytes then h.Extent() else 1) == 1 then
      disps[0] == 0 ==> ContigExact(h, |disps| * blklen)
    else if |d| >= 2 && FixedStride(d, d[1]) then VectorExact(h, |d|, blklen, d[1], true)
    else true
  }

  /** What the loop selects where it does not select the blocks of the type. */
  ghost function WrongBlocks(h: Handle, blklen: nat, disps: seq<int>, inBytes: bool): seq<int>
    requires Coalesces(h)
  {
    var d := ByteDisps(h, disps, inBytes);
    if disps == [] then []
    else if ContigCount(disps, blklen * if inBytes then h.Extent() else 1) == 1 then
      Copies(Packed(h), 0, |disps| * blklen)
    else StridedCopies(Basic(h.dsize), 0, 0, |disps|, blklen, if |d| >= 2 then d[1] else 0)
  }

  /** Displacements that have the length of a block as their stride abut. */
  lemma {:induction false} StrideAbuts(disps: seq<int>, d: int, step: int)
    requires disps != [] && forall k: nat | k < |disps| :: disps[k] == d + k * step
    ensures ContigCount(disps, step) == 1
    decreases |disps|
  {
    if |disps| > 1 {
      assert disps[0] == d + 0 * step && disps[1] == d + 1 * step;
      forall k: nat | k < |disps| - 1 ensures disps[1..][k] == d + step + k * step {
        assert disps[k + 1] == d + (k + 1) * step;
      }
      StrideAbuts(disps[1..], d + step, step);
    }
  }

  /** Only the fused vector is wrong, not one whose blocks follow one another. */
  lemma FusedThen(h: Handle, blklen: nat, disps: seq<int>, inBytes: bool)
    requires h.Sized() && |disps| >= 2 && blklen >= 1
    requires |ByteDisps(h, disps, inBytes)| >= 2
    requires FixedStride(ByteDisps(h, disps, inBytes), ByteDisps(h, disps, inBytes)[1])
    requires ContigCount(disps, blklen * if inBytes then h.Extent() else 1) != 1
    requires !VectorExact(h, |disps|, blklen, ByteDisps(h, disps, inBytes)[1], true)
    ensures Rewrites(h, |disps|, blklen, ByteDisps(h, disps, inBytes)[1], true)
  {
    var d := ByteDisps(h, disps, inBytes);
    if Adjoining(h, blklen, d[1], true) {
      if inBytes {
        StrideAbuts(disps, 0, blklen * h.Extent());
      } else {
        assert d[1] == disps[1] * h.Extent() == blklen * h.Extent();
        SameTimes(disps[1], blklen, h.Extent());
        forall k: nat | k < |disps| ensures disps[k] == 0 + k * blklen {
          assert d[k] == disps[k] * h.Extent() == k * (blklen * h.Extent());
          Swap(k, blklen, h.Extent());
          SameTimes(disps[k], k * blklen, h.Extent());
        }
        StrideAbuts(disps, 0, blklen);
      }
    }
  }

  lemma SameTimes(a: int, b: int, e: int)
    requires a * e == b * e && e != 0
    ensures a == b
  {
  }

  lemma Swap(a: int, b: int, c: int)
    ensures a * (b * c) == a * b * c
  {
  }

  lemma FusedBytes(h: Handle, count: nat, blocklen: nat, stride: int)
    requires h.Sized() && Coalesces(h)
    ensures Bytes(Fused(h, count, blocklen, stride), 0) == StridedCopies(Basic(h.dsize), 0, 0, count, blocklen, stride)
  {
    FusedRuns(h, 0, 0, count, blocklen, stride);
  }

  lemma {:induction false} WrapBlockIndexed(h: Handle, b: int, i: nat, blklen: nat, d: seq<int>)
    requires i <= |d|
    ensures BlocksFrom(Wrap(BlockIndexed(blklen, d), h), b, i) == BlockCopies(h, b, Same(|d| - i, blklen), d[i..])
    decreases |d| - i
  {
    if i < |d| {
      WrapElems(BlockIndexed(blklen, d), h, b + d[i], blklen);
      WrapBlockIndexed(h, b, i + 1, blklen, d);
      assert d[i..][1..] == d[i + 1..];
      assert Same(|d| - i, blklen)[1..] == Same(|d| - i - 1, blklen);
    }
  }

  lemma {:induction false} ByteBlockIndexed(h: Handle, b: int, i: nat, blklen: nat, d: seq<int>)
    requires h.Basic? && i <= |d|
    ensures BlocksFrom(Leaf(BlockIndexed(blklen * h.bsize, d), 1, 1), b, i)
         == BlockCopies(h, b, Same(|d| - i, blklen), d[i..])
    decreases |d| - i
  {
    if i < |d| {
      ByteElems(BlockIndexed(blklen * h.bsize, d), h, b + d[i], blklen);
      ByteBlockIndexed(h, b, i + 1, blklen, d);
      assert d[i..][1..] == d[i + 1..];
      assert Same(|d| - i, blklen)[1..] == Same(|d| - i - 1, blklen);
    }
  }

  lemma {:induction false} NoBlocks(h: Handle, b: int, disps: seq<int>)
    ensures BlockCopies(h, b, Same(|disps|, 0), disps) == []
    decreases |disps|
  {
    if disps != [] {
      NoBlocks(h, b, disps[1..]);
      assert Same(|disps|, 0)[1..] == Same(|disps| - 1, 0);
    }
  }

  /** Blockindexed_array_copy: displacements are stored in bytes. */
  method BlockindexedArrayCopy(h: Handle, disps: seq<int>, inBytes: bool) returns (out: seq<int>)
    ensures out == ByteDisps(h, disps, inBytes)
  {
    out := [];
    for i := 0 to |disps|
      invariant |out| == i && out == ByteDisps(h, disps, inBytes)[..i]
    {
      out := out + [if inBytes then disps[i] else disps[i] * h.Extent()];
    }
  }

  /** The elements of what the branch taken makes. */
  function BlockGrain(h: Handle, blklen: nat, disps: seq<int>, inBytes: bool, allBytes: bool): nat {
    var d := ByteDisps(h, disps, inBytes);
    if disps != [] && ContigCount(disps, blklen * if inBytes then h.Extent() else 1) != 1 && |d| >= 2
       && FixedStride(d, d[1])
    then VectorGrain(h, |d|, blklen, d[1], true, allBytes)
    else Grain(h, allBytes)
  }

  lemma NoneFilled(h: Handle, d: seq<int>, blklen: nat, allBytes: bool, grain: nat)
    requires d == [] || blklen == 0
    ensures BlockCopies(h, 0, Same(|d|, blklen), d) == [] == Bytes(EmptyLoop(allBytes), 0)
    ensures Carries(h, EmptyLoop(allBytes)) && Fills(h, EmptyLoop(allBytes), |d| * blklen)
    ensures Over(h, EmptyLoop(allBytes), grain)
  {
    NoBlocks(h, 0, d);
    EmptyCarries(h, allBytes, grain);
    assert |d| * blklen == 0;
  }

  method CreateBlockIndexed(blklen0: nat, disps0: seq<int>, inBytes: bool, h: Handle, allBytes: bool)
    returns (dlp: Loop)
    requires h.Sized()
    ensures Bytes(dlp, 0) == BlockCopies(h, 0, Same(|disps0|, blklen0), ByteDisps(h, disps0, inBytes))
       <==> BlockIndexedExact(h, blklen0, disps0, inBytes)
    ensures !BlockIndexedExact(h, blklen0, disps0, inBytes) ==>
              Coalesces(h) && Bytes(dlp, 0) == WrongBlocks(h, blklen0, disps0, inBytes)
    ensures Carries(h, dlp) && Fills(h, dlp, |disps0| * blklen0)
    ensures Over(h, dlp, BlockGrain(h, blklen0, disps0, inBytes, allBytes))
  {
    hide Carries, Fills, Over, Grain, VectorGrain, VectorExact, Copies, StridedCopies, BlockCopies, Bytes;
    var blklen, disps := blklen0, disps0;
    ghost var d0 := ByteDisps(h, disps0, inBytes);
    if disps == [] || blklen == 0 {
      NoneFilled(h, d0, blklen0, allBytes, BlockGrain(h, blklen0, disps0, inBytes, allBytes));
      return EmptyLoop(allBytes);
    }
    var contigCount := BlockindexedCountContig(disps, blklen, if inBytes then h.Extent() else 1);
    if contigCount == 1 {
      OneRun(h, 0, disps, blklen, inBytes);
      if disps[0] == 0 {
        assert d0[0] == 0;
        dlp := CreateContiguous(|disps| * blklen, h, allBytes);
        return;
      }
      blklen, disps := |disps| * blklen, [disps[0]];
    }
    var d := BlockindexedArrayCopy(h, disps, inBytes);
    if |d| > 1 {
      var yes, stride := IsVectorizable(d);
      if yes {
        StridedBlocks(h, 0, 0, d, blklen, stride);
        assert d[0..] == d;
        dlp := CreateVector(|d|, blklen, stride, true, h, allBytes);
        if !VectorExact(h, |d|, blklen, stride, true) {
          FusedThen(h, blklen, disps, inBytes);
          FusedBytes(h, |d|, blklen, stride);
        }
        return;
      }
    }
    SingleBlock(h, blklen, d);
    dlp := StoreBlockIndexed(blklen, d, h, allBytes);
  }

  method StoreBlockIndexed(blklen: nat, d: seq<int>, h: Handle, allBytes: bool) returns (dlp: Loop)
    requires h.Sized() && blklen >= 1 && d != []
    ensures Bytes(dlp, 0) == BlockCopies(h, 0, Same(|d|, blklen), d)
    ensures Carries(h, dlp) && Fills(h, dlp, |d| * blklen)
    ensures Over(h, dlp, Grain(h, allBytes))
  {
    BlockCopiesLen(h, 0, Same(|d|, blklen), d);
    SumSame(|d|, blklen);
    assert d[0..] == d;
    if h.Basic? && allBytes {
      ByteBlockIndexed(h, 0, 0, blklen, d);
      dlp := Leaf(BlockIndexed(blklen * h.bsize, d), 1, 1);
      if h.bsize >= 1 {
        MulLe(1, blklen, h.bsize);
      }
    } else {
      WrapBlockIndexed(h, 0, 0, blklen, d);
      dlp := Wrap(BlockIndexed(blklen, d), h);
    }
  }

  lemma SingleBlock(h: Handle, blklen: nat, d: seq<int>)
    ensures |d| == 1 ==> BlockCopies(h, 0, Same(|d|, blklen), d) == Copies(h, 0 + d[0], blklen)
  {
    if |d| == 1 {
      assert BlockCopies(h, 0, Same(1, blklen)[1..], d[1..]) == [];
    }
  }
}
