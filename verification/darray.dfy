/** The index arithmetic of distributed arrays: ranks and coordinates, block and cyclic distributions. */
module Darrays {
  import opened LeafBlocks

  /* ---------- ranks and coordinates ---------- */

  /** The number of processes of a grid. */
  function Procs(psizes: seq<nat>): nat {
    if psizes == [] then 1 else psizes[0] * Procs(psizes[1..])
  }

  ghost predicate Grid(psizes: seq<nat>) {
    forall k: nat | k < |psizes| :: psizes[k] >= 1
  }

  ghost predicate InGrid(coords: seq<nat>, psizes: seq<nat>) {
    |coords| == |psizes| && forall k: nat | k < |psizes| :: coords[k] < psizes[k]
  }

  /** Row-major order: the rank of a process. */
  function RankOf(coords: seq<nat>, psizes: seq<nat>): nat
    requires |coords| == |psizes|
  {
    if psizes == [] then 0 else coords[0] * Procs(psizes[1..]) + RankOf(coords[1..], psizes[1..])
  }

  lemma {:induction false} ProcsPositive(psizes: seq<nat>)
    requires Grid(psizes)
    ensures Procs(psizes) >= 1
  {
    if psizes != [] {
      ProcsPositive(psizes[1..]);
      MulLe(1, psizes[0], Procs(psizes[1..]));
    }
  }

  lemma {:induction false} RankInRange(coords: seq<nat>, psizes: seq<nat>)
    requires Grid(psizes) && InGrid(coords, psizes)
    ensures RankOf(coords, psizes) < Procs(psizes)
  {
    if psizes != [] {
      RankInRange(coords[1..], psizes[1..]);
      var p := Procs(psizes[1..]);
      MulLe(coords[0] + 1, psizes[0], p);
      Times(coords[0], 1, p);
    }
  }

  /** Different coordinates have different ranks. */
  lemma {:induction false} RankInjective(a: seq<nat>, b: seq<nat>, psizes: seq<nat>)
    requires Grid(psizes) && InGrid(a, psizes) && InGrid(b, psizes) && RankOf(a, psizes) == RankOf(b, psizes)
    ensures a == b
    decreases |psizes|
  {
    if psizes != [] {
      var p := Procs(psizes[1..]);
      ProcsPositive(psizes[1..]);
      RankInRange(a[1..], psizes[1..]);
      RankInRange(b[1..], psizes[1..]);
      SameQuotient(a[0], RankOf(a[1..], psizes[1..]), b[0], RankOf(b[1..], psizes[1..]), p);
      RankInjective(a[1..], b[1..], psizes[1..]);
      assert a == [a[0]] + a[1..] && b == [b[0]] + b[1..];
    }
  }

  lemma SameQuotient(q: nat, r: nat, q': nat, r': nat, p: nat)
    requires p >= 1 && r < p && r' < p && q * p + r == q' * p + r'
    ensures q == q' && r == r'
  {
    DivIs(q * p + r, p, q, r);
    DivIs(q' * p + r', p, q', r');
  }

  lemma ProcsStep(psizes: seq<nat>, i: nat)
    requires i < |psizes|
    ensures Procs(psizes[i..]) == psizes[i] * Procs(psizes[i + 1..])
  {
    assert psizes[i..][1..] == psizes[i + 1..];
  }

  /** The decoding loop of Type_convert_darray: the coordinates that have this rank. */
  method Coords(size: nat, rank: nat, psizes: seq<nat>) returns (coords: array<nat>)
    requires Grid(psizes) && size == Procs(psizes) && rank < size
    ensures fresh(coords) && InGrid(coords[..], psizes) && RankOf(coords[..], psizes) == rank
  {
    coords := new nat[|psizes|](_ => 0);
    var procs, tmpRank := size, rank;
    assert psizes[0..] == psizes && coords[..0] == [] && Weighted([], psizes) == 0;
    hide Procs, Weighted, RankOf;
    for i := 0 to |psizes|
      invariant procs == Procs(psizes[i..]) && tmpRank < procs
      invariant forall k: nat | k < i :: coords[k] < psizes[k]
      invariant rank == Weighted(coords[..i], psizes) + tmpRank
    {
      ghost var before := coords[..i];
      ghost var p, q, r := CoordStep(before, psizes, procs, tmpRank);
      procs := procs / psizes[i];
      assert procs == p;
      coords[i] := tmpRank / procs;
      assert coords[i] == q;
      assert coords[..i + 1] == before + [coords[i]];
      tmpRank := tmpRank % procs;
    }
    assert coords[..|psizes|] == coords[..] && psizes[|psizes|..] == [];
    NoProcs();
    WeightedIsRank(coords[..], psizes);
  }

  lemma NoProcs()
    ensures Procs([]) == 1
  {
  }

  /** One coordinate. */
  lemma CoordStep(before: seq<nat>, psizes: seq<nat>, procs: nat, tmpRank: nat) returns (p: nat, q: nat, r: nat)
    requires Grid(psizes) && |before| < |psizes| && procs == Procs(psizes[|before|..]) && tmpRank < procs
    ensures p >= 1 && p == procs / psizes[|before|] && q == tmpRank / p && r == tmpRank % p
    ensures p == Procs(psizes[|before| + 1..]) && q < psizes[|before|] && r < p
    ensures Weighted(before, psizes) + tmpRank == Weighted(before + [q], psizes) + r
  {
    var i := |before|;
    ProcsStep(psizes, i);
    ProcsPositive(psizes[i + 1..]);
    p := Procs(psizes[i + 1..]);
    q, r := tmpRank / p, tmpRank % p;
    hide Procs, Weighted;
    var w := DivideStep(psizes[i], p, procs, tmpRank);
    WeightedPush(before, q, psizes, w);
  }

  lemma DivideStep(a: nat, b: nat, procs: nat, r: nat) returns (w: nat)
    requires a >= 1 && b >= 1 && procs == a * b && r < procs
    ensures procs / a == b && r / b < a && r % b < b && w == (r / b) * b && r == w + r % b
  {
    Quotient(a, b);
    QuotientBound(r, a, b);
    w := (r / b) * b;
  }

  lemma Quotient(a: nat, b: nat)
    requires a >= 1
    ensures (a * b) / a == b
  {
    assert a * b == b * a;
    DivIs(a * b, a, b, 0);
  }

  lemma QuotientBound(r: nat, a: nat, b: nat)
    requires b >= 1 && r < a * b
    ensures r / b < a && r == (r / b) * b + r % b && r % b < b
  {
    if r / b >= a {
      MulLe(a, r / b, b);
    }
  }

  /** What the first coordinates contribute to the rank. */
  ghost function Weighted(coords: seq<nat>, psizes: seq<nat>): nat
    requires |coords| <= |psizes|
  {
    if coords == [] then 0
    else
      var k := |coords| - 1;
      Weighted(coords[..k], psizes) + coords[k] * Procs(psizes[k + 1..])
  }

  lemma WeightedPush(coords: seq<nat>, c: nat, psizes: seq<nat>, w: nat)
    requires |coords| < |psizes| && w == c * Procs(psizes[|coords| + 1..])
    ensures Weighted(coords + [c], psizes) == Weighted(coords, psizes) + w
  {
    assert (coords + [c])[..|coords|] == coords;
  }

  lemma {:induction false} WeightedTail(coords: seq<nat>, psizes: seq<nat>, n: nat)
    requires n < |coords| == |psizes|
    ensures Weighted(coords[..n + 1], psizes)
         == coords[0] * Procs(psizes[1..]) + Weighted(coords[1..][..n], psizes[1..])
    decreases n
  {
    var c, p := coords[1..], psizes[1..];
    if n == 0 {
      assert coords[..1][..0] == [] && c[..0] == [];
    } else {
      WeightedTail(coords, psizes, n - 1);
      assert coords[..n + 1][..n] == coords[..n] && c[..n][..n - 1] == c[..n - 1];
      assert psizes[n + 1..] == p[n..];
    }
  }

  lemma {:induction false} WeightedIsRank(coords: seq<nat>, psizes: seq<nat>)
    requires |coords| == |psizes|
    ensures Weighted(coords, psizes) == RankOf(coords, psizes)
    decreases |coords|
  {
    if coords != [] {
      var n := |coords| - 1;
      WeightedTail(coords, psizes, n);
      assert coords[..n + 1] == coords && coords[1..][..n] == coords[1..];
      WeightedIsRank(coords[1..], psizes[1..]);
    }
  }

  /** The coordinates of a rank are the only ones with that rank: ranks and coordinates correspond one to one. */
  lemma OneProcess(coords: seq<nat>, other: seq<nat>, psizes: seq<nat>, rank: nat)
    requires Grid(psizes) && InGrid(coords, psizes) && RankOf(coords, psizes) == rank
    requires InGrid(other, psizes)
    ensures rank < Procs(psizes) && (RankOf(other, psizes) == rank <==> other == coords)
  {
    RankInRange(coords, psizes);
    if RankOf(other, psizes) == rank {
      RankInjective(coords, other, psizes);
    }
  }

  /* ---------- block distribution ---------- */

  datatype Darg = Default | Given(d: int)

  datatype Part = Error | Part(mysize: nat, stOffset: int)

  function BlockBlksize(globalSize: nat, nprocs: nat, darg: Darg): int
    requires nprocs >= 1
  {
    if darg.Default? then (globalSize + nprocs - 1) / nprocs else darg.d
  }

  /** The size of a block: the one given, else the least with which the processes cover the dimension. */
  ghost predicate BlockSize(globalSize: nat, nprocs: nat, darg: Darg, b: int) {
    if darg.Given? then b == darg.d
    else b >= 0 && b * nprocs >= globalSize && (b - 1) * nprocs < globalSize
  }

  /** There is exactly one such size, and it is the one computed. */
  lemma BlockSizeIs(globalSize: nat, nprocs: nat, darg: Darg, b: int)
    requires nprocs >= 1
    ensures BlockSize(globalSize, nprocs, darg, b) <==> b == BlockBlksize(globalSize, nprocs, darg)
  {
    if darg.Default? {
      LeastCover(globalSize, nprocs);
      var c := (globalSize + nprocs - 1) / nprocs;
      if BlockSize(globalSize, nprocs, darg, b) && b < c {
        MulLe(b, c - 1, nprocs);
      } else if BlockSize(globalSize, nprocs, darg, b) && b > c {
        MulLe(c, b - 1, nprocs);
      }
    }
  }

  lemma LeastCover(g: nat, n: nat)
    requires n >= 1
    ensures ((g + n - 1) / n) * n >= g && ((g + n - 1) / n - 1) * n < g
  {
    var m := g + n - 1;
    var q := m / n;
    assert m == q * n + m % n;
    assert (q - 1) * n == q * n - n;
  }

  /** MPIOI_Type_block: the part of process `rank`. */
  function TypeBlock(globalSize: nat, nprocs: nat, rank: nat, darg: Darg): Part
    requires nprocs >= 1
  {
    var blksize := BlockBlksize(globalSize, nprocs, darg);
    if darg.Given? && (blksize <= 0 || blksize * nprocs < globalSize) then Error
    else
      var j := globalSize - blksize * rank;
      var mysize := if (if blksize < j then blksize else j) < 0 then 0 else if blksize < j then blksize else j;
      Part(mysize, if mysize == 0 then 0 else blksize * rank)
  }

  ghost predicate Holds(p: Part, x: nat) {
    p.Part? && p.stOffset <= x < p.stOffset + p.mysize
  }

  /** Whether the arguments are accepted does not depend on the process. */
  lemma BlockAccepted(globalSize: nat, nprocs: nat, rank: nat, darg: Darg)
    requires nprocs >= 1
    ensures TypeBlock(globalSize, nprocs, rank, darg).Part?
       <==> darg.Default? || (darg.d > 0 && darg.d * nprocs >= globalSize)
  {
    if darg.Given? {
      assert darg.d * nprocs == BlockBlksize(globalSize, nprocs, darg) * nprocs;
    }
  }

  /** An accepted block size covers the array. */
  lemma BlockCovers(globalSize: nat, nprocs: nat, darg: Darg)
    requires nprocs >= 1 && TypeBlock(globalSize, nprocs, 0, darg).Part?
    ensures BlockBlksize(globalSize, nprocs, darg) * nprocs >= globalSize
    ensures BlockBlksize(globalSize, nprocs, darg) >= 0
    ensures globalSize >= 1 ==> BlockBlksize(globalSize, nprocs, darg) >= 1
  {
    var b := BlockBlksize(globalSize, nprocs, darg);
    if darg.Default? {
      var n := globalSize + nprocs - 1;
      assert n == (n / nprocs) * nprocs + n % nprocs;
    }
    if b == 0 {
      assert b * nprocs == 0;
    }
  }

  /** Every index is held by exactly one process: the one whose block it falls into. */
  lemma BlockOwner(globalSize: nat, nprocs: nat, darg: Darg, rank: nat, x: nat, b: int)
    requires nprocs >= 1 && rank < nprocs && TypeBlock(globalSize, nprocs, 0, darg).Part?
    requires x < globalSize && BlockSize(globalSize, nprocs, darg, b)
    ensures b >= 1 && x / b < nprocs && (Holds(TypeBlock(globalSize, nprocs, rank, darg), x) <==> rank == x / b)
  {
    BlockSizeIs(globalSize, nprocs, darg, b);
    BlockCovers(globalSize, nprocs, darg);
    BlockAccepted(globalSize, nprocs, rank, darg);
    BlockAccepted(globalSize, nprocs, 0, darg);
    OwnerBounds(x, b, nprocs, rank);
  }

  lemma OwnerBounds(x: nat, b: int, nprocs: nat, rank: nat)
    requires b >= 1 && x < b * nprocs
    ensures x / b < nprocs && (b * rank <= x < b * rank + b <==> rank == x / b)
  {
    var q := x / b;
    assert x == q * b + x % b;
    if q >= nprocs {
      MulLe(nprocs, q, b);
    }
    if rank < q {
      MulLe(rank + 1, q, b);
      Times(rank, 1, b);
    } else if rank > q {
      MulLe(q + 1, rank, b);
      Times(q, 1, b);
    }
  }

  /** The indices held by the first `ranks` processes. */
  function SumBlocks(globalSize: nat, nprocs: nat, darg: Darg, ranks: nat): nat
    requires nprocs >= 1 && TypeBlock(globalSize, nprocs, 0, darg).Part?
  {
    if ranks == 0 then 0
    else SumBlocks(globalSize, nprocs, darg, ranks - 1) + TypeBlock(globalSize, nprocs, ranks - 1, darg).mysize
  }

  lemma {:induction false} BlocksSoFar(globalSize: nat, nprocs: nat, darg: Darg, ranks: nat)
    requires nprocs >= 1 && TypeBlock(globalSize, nprocs, 0, darg).Part?
    ensures var b := BlockBlksize(globalSize, nprocs, darg);
      SumBlocks(globalSize, nprocs, darg, ranks) == if b * ranks <= globalSize then b * ranks else globalSize
    decreases ranks
  {
    BlockCovers(globalSize, nprocs, darg);
    if ranks > 0 {
      BlocksSoFar(globalSize, nprocs, darg, ranks - 1);
      BlockAccepted(globalSize, nprocs, ranks - 1, darg);
      Times(ranks - 1, 1, BlockBlksize(globalSize, nprocs, darg));
    }
  }

  /** The sizes of the blocks add up to the global size. */
  lemma BlocksAddUp(globalSize: nat, nprocs: nat, darg: Darg)
    requires nprocs >= 1 && TypeBlock(globalSize, nprocs, 0, darg).Part?
    ensures SumBlocks(globalSize, nprocs, darg, nprocs) == globalSize
  {
    BlocksSoFar(globalSize, nprocs, darg, nprocs);
    BlockCovers(globalSize, nprocs, darg);
  }

  /* ---------- cyclic distribution ---------- */

  /** MPIOI_Type_cyclic: how many indices process `rank` holds. */
  function LocalSize(globalSize: nat, nprocs: nat, rank: nat, blksize: nat): int
    requires nprocs >= 1 && blksize >= 1 && nprocs * blksize >= 1
  {
    var stIndex, endIndex := rank * blksize, globalSize - 1;
    if endIndex < stIndex then 0
    else
      var d := endIndex - stIndex + 1;
      var rem := d % (nprocs * blksize);
      (d / (nprocs * blksize)) * blksize + if rem < blksize then rem else blksize
  }

  /** The index at local position k: full blocks at a fixed stride, then the remainder. */
  function GlobalIndex(nprocs: nat, rank: nat, blksize: nat, k: nat): nat
    requires blksize >= 1
  {
    rank * blksize + (k / blksize) * (nprocs * blksize) + k % blksize
  }

  function CyclicOwner(nprocs: nat, blksize: nat, x: nat): nat
    requires nprocs >= 1 && blksize >= 1
  {
    x / blksize % nprocs
  }

  lemma ProductPositive(a: nat, b: nat)
    requires a >= 1 && b >= 1
    ensures a * b >= 1 && a * b >= b
  {
    MulLe(1, a, b);
  }

  /** The index m behind the start of round i of a process. */
  lemma RoundOwner(nprocs: nat, rank: nat, blksize: nat, i: nat, m: nat)
    requires nprocs >= 1 && blksize >= 1 && rank < nprocs && m < nprocs * blksize
    ensures CyclicOwner(nprocs, blksize, rank * blksize + i * (nprocs * blksize) + m) == rank <==> m < blksize
  {
    var q, j := m / blksize, m % blksize;
    assert m == q * blksize + j;
    if q >= nprocs {
      MulLe(nprocs, q, blksize);
    }
    var x := rank * blksize + i * (nprocs * blksize) + m;
    Regroup(rank, i, nprocs, blksize, q);
    DivIs(x, blksize, rank + i * nprocs + q, j);
    if q == 0 {
      DivIs(rank + i * nprocs, nprocs, i, rank);
    } else if rank + q < nprocs {
      DivIs(rank + i * nprocs + q, nprocs, i, rank + q);
    } else {
      Times(i, 1, nprocs);
      DivIs(rank + i * nprocs + q, nprocs, i + 1, rank + q - nprocs);
    }
    if q >= 1 {
      MulLe(1, q, blksize);
    }
  }

  lemma Regroup(rank: nat, i: nat, nprocs: nat, blksize: nat, q: nat)
    ensures rank * blksize + i * (nprocs * blksize) + q * blksize == (rank + i * nprocs + q) * blksize
  {
    assert i * (nprocs * blksize) == (i * nprocs) * blksize;
    Times(rank, i * nprocs, blksize);
    Times(rank + i * nprocs, q, blksize);
  }

  /** Indices before the first block of a process belong to others. */
  lemma BeforeFirst(nprocs: nat, rank: nat, blksize: nat, x: nat)
    requires nprocs >= 1 && blksize >= 1 && rank < nprocs && x < rank * blksize
    ensures CyclicOwner(nprocs, blksize, x) != rank
  {
    var q := x / blksize;
    assert x == q * blksize + x % blksize;
    if q >= rank {
      MulLe(rank, q, blksize);
    }
    DivIs(q, nprocs, 0, q);
  }

  /** The size in terms of whole rounds and what is left of the last one. */
  lemma SizeInRounds(g: nat, nprocs: nat, rank: nat, blksize: nat, i: nat, m: nat)
    requires nprocs >= 1 && blksize >= 1 && m < nprocs * blksize
    requires g == rank * blksize + i * (nprocs * blksize) + m
    ensures LocalSize(g, nprocs, rank, blksize) == i * blksize + if m < blksize then m else blksize
  {
    var p, st := nprocs * blksize, rank * blksize;
    var d := i * p + m;
    DivIs(d, p, i, m);
    if d == 0 {
      DivIs(d, p, 0, 0);
      assert i * blksize == 0;
    }
  }

  lemma DivMod(d: nat, p: nat)
    requires p >= 1
    ensures d == d / p * p + d % p && d % p < p
  {
  }

  lemma NoneYet(g: nat, nprocs: nat, rank: nat, blksize: nat)
    requires nprocs * blksize >= 1 && g <= rank * blksize
    ensures LocalSize(g, nprocs, rank, blksize) == 0
  {
  }

  /** One more index in the array is one more for its owner only. */
  lemma SizeStep(g: nat, nprocs: nat, rank: nat, blksize: nat)
    requires nprocs >= 1 && blksize >= 1 && rank < nprocs && nprocs * blksize >= 1
    ensures LocalSize(g + 1, nprocs, rank, blksize)
         == LocalSize(g, nprocs, rank, blksize) + if CyclicOwner(nprocs, blksize, g) == rank then 1 else 0
  {
    hide LocalSize, CyclicOwner;
    var p, st := nprocs * blksize, rank * blksize;
    ProductPositive(nprocs, blksize);
    if g < st {
      NoneYet(g, nprocs, rank, blksize);
      NoneYet(g + 1, nprocs, rank, blksize);
      BeforeFirst(nprocs, rank, blksize, g);
    } else {
      DivMod(g - st, p);
      RoundStep(g, nprocs, rank, blksize, (g - st) / p, (g - st) % p);
    }
  }

  lemma RoundStep(g: nat, nprocs: nat, rank: nat, blksize: nat, i: nat, m: nat)
    requires nprocs >= 1 && blksize >= 1 && rank < nprocs && m < nprocs * blksize
    requires g == rank * blksize + i * (nprocs * blksize) + m
    ensures LocalSize(g + 1, nprocs, rank, blksize)
         == LocalSize(g, nprocs, rank, blksize) + if CyclicOwner(nprocs, blksize, g) == rank then 1 else 0
  {
    hide LocalSize, CyclicOwner;
    ProductPositive(nprocs, blksize);
    RoundOwner(nprocs, rank, blksize, i, m);
    SizeInRounds(g, nprocs, rank, blksize, i, m);
    if m + 1 < nprocs * blksize {
      SizeInRounds(g + 1, nprocs, rank, blksize, i, m + 1);
    } else {
      Times(i, 1, nprocs * blksize);
      SizeInRounds(g + 1, nprocs, rank, blksize, i + 1, 0);
      Times(i, 1, blksize);
    }
  }

  /** How many of the first g indices belong to a process. */
  function Owned(g: nat, nprocs: nat, rank: nat, blksize: nat): nat
    requires nprocs >= 1 && blksize >= 1
  {
    if g == 0 then 0
    else Owned(g - 1, nprocs, rank, blksize) + if CyclicOwner(nprocs, blksize, g - 1) == rank then 1 else 0
  }

  /** The size computed is the number of indices that are the process's own. */
  lemma {:induction false} SizeIsOwned(g: nat, nprocs: nat, rank: nat, blksize: nat)
    requires nprocs >= 1 && blksize >= 1 && rank < nprocs && nprocs * blksize >= 1
    ensures LocalSize(g, nprocs, rank, blksize) == Owned(g, nprocs, rank, blksize)
    decreases g
  {
    if g == 0 {
      assert -1 < rank * blksize;
    } else {
      SizeIsOwned(g - 1, nprocs, rank, blksize);
      SizeStep(g - 1, nprocs, rank, blksize);
    }
  }

  function SumOwned(g: nat, nprocs: nat, blksize: nat, ranks: nat): nat
    requires nprocs >= 1 && blksize >= 1
  {
    if ranks == 0 then 0 else SumOwned(g, nprocs, blksize, ranks - 1) + Owned(g, nprocs, ranks - 1, blksize)
  }

  lemma {:induction false} SumStep(g: nat, nprocs: nat, blksize: nat, ranks: nat)
    requires nprocs >= 1 && blksize >= 1
    ensures SumOwned(g + 1, nprocs, blksize, ranks)
         == SumOwned(g, nprocs, blksize, ranks) + if CyclicOwner(nprocs, blksize, g) < ranks then 1 else 0
    decreases ranks
  {
    if ranks > 0 {
      SumStep(g, nprocs, blksize, ranks - 1);
    }
  }

  /** The local sizes add up to the global size. */
  lemma {:induction false} SizesAddUp(g: nat, nprocs: nat, blksize: nat)
    requires nprocs >= 1 && blksize >= 1
    ensures SumOwned(g, nprocs, blksize, nprocs) == g
    decreases g
  {
    if g == 0 {
      NoneOwned(nprocs, blksize, nprocs);
    } else {
      SizesAddUp(g - 1, nprocs, blksize);
      SumStep(g - 1, nprocs, blksize, nprocs);
    }
  }

  lemma {:induction false} NoneOwned(nprocs: nat, blksize: nat, ranks: nat)
    requires nprocs >= 1 && blksize >= 1
    ensures SumOwned(0, nprocs, blksize, ranks) == 0
    decreases ranks
  {
    if ranks > 0 {
      NoneOwned(nprocs, blksize, ranks - 1);
    }
  }

  /** The local positions are, one to one, the indices of the process: position k holds an index that is its own,
      and each index of its own is at one position. */
  lemma CyclicPositions(g: nat, nprocs: nat, rank: nat, blksize: nat, k: nat)
    requires nprocs >= 1 && blksize >= 1 && rank < nprocs && nprocs * blksize >= 1
    ensures k < LocalSize(g, nprocs, rank, blksize) <==> GlobalIndex(nprocs, rank, blksize, k) < g
    ensures CyclicOwner(nprocs, blksize, GlobalIndex(nprocs, rank, blksize, k)) == rank
  {
    var p, st := nprocs * blksize, rank * blksize;
    ProductPositive(nprocs, blksize);
    var i, j := k / blksize, k % blksize;
    assert k == i * blksize + j;
    RoundOwner(nprocs, rank, blksize, i, j);
    MulLe(0, i, p);
    if st < g {
      var d := g - st;
      assert d == (d / p) * p + d % p;
      RoundBound(i, j, d / p, d % p, p, blksize);
    }
  }

  /** Position (i, j) comes before the end of the array in bytes exactly when it does locally. */
  lemma RoundBound(i: nat, j: nat, q: nat, m: nat, p: nat, blksize: nat)
    requires j < blksize <= p && m < p
    ensures i * p + j < q * p + m <==> i < q || (i == q && j < m)
    ensures i * blksize + j < q * blksize + (if m < blksize then m else blksize) <==> i < q || (i == q && j < m)
  {
    if i < q {
      MulLe(i + 1, q, p);
      MulLe(i + 1, q, blksize);
      Times(i, 1, p);
      Times(i, 1, blksize);
    } else if i > q {
      MulLe(q + 1, i, p);
      MulLe(q + 1, i, blksize);
      Times(q, 1, p);
      Times(q, 1, blksize);
    }
  }

  /** Every index of the process is at a position. */
  lemma CyclicOnto(nprocs: nat, rank: nat, blksize: nat, x: nat) returns (k: nat)
    requires nprocs >= 1 && blksize >= 1 && rank < nprocs && CyclicOwner(nprocs, blksize, x) == rank
    ensures GlobalIndex(nprocs, rank, blksize, k) == x
  {
    var q, j := x / blksize, x % blksize;
    assert x == q * blksize + j;
    var i := q / nprocs;
    assert q == i * nprocs + rank;
    k := i * blksize + j;
    DivIs(k, blksize, i, j);
    Regroup(rank, i, nprocs, blksize, 0);
    assert rank + i * nprocs + 0 == q && 0 * blksize == 0;
  }

  lemma SplitPosition(nprocs: nat, rank: nat, blksize: nat, k: nat) returns (q: nat, r: nat)
    requires blksize >= 1
    ensures k == q * blksize + r && r < blksize
    ensures GlobalIndex(nprocs, rank, blksize, k) == rank * blksize + (q * (nprocs * blksize) + r)
  {
    q, r := k / blksize, k % blksize;
  }

  /** No two positions have the same index. */
  lemma CyclicOnce(nprocs: nat, rank: nat, blksize: nat, k: nat, k': nat)
    requires nprocs >= 1 && blksize >= 1
    requires GlobalIndex(nprocs, rank, blksize, k) == GlobalIndex(nprocs, rank, blksize, k')
    ensures k == k'
  {
    hide GlobalIndex;
    var p := nprocs * blksize;
    ProductPositive(nprocs, blksize);
    var q, r := SplitPosition(nprocs, rank, blksize, k);
    var q', r' := SplitPosition(nprocs, rank, blksize, k');
    SameQuotient(q, r, q', r', p);
  }

  /* ---------- all dimensions ---------- */

  /** How a dimension is distributed. */
  datatype Distrib = Block(darg: Darg) | Cyclic(darg: Darg) | Undistributed

  datatype Order = Fortran | C

  function CyclicBlksize(darg: Darg): int {
    if darg.Default? then 1 else darg.d
  }

  /** No error is returned for the dimension. */
  predicate Accepted(dist: Distrib, g: nat, nprocs: nat)
    requires nprocs >= 1
  {
    match dist
    case Block(darg) => TypeBlock(g, nprocs, 0, darg).Part?
    case Cyclic(darg) => CyclicBlksize(darg) > 0
    case Undistributed => true
  }

  ghost predicate AtPosition(g: nat, nprocs: nat, coord: nat, blksize: nat, x: nat)
    requires nprocs >= 1 && blksize >= 1
  {
    && nprocs * blksize >= 1
    && exists k: nat :: k < LocalSize(g, nprocs, coord, blksize) && GlobalIndex(nprocs, coord, blksize, k) == x
  }

  /** The process with this coordinate holds index x of the dimension. An undistributed dimension is a block
      distribution, in Fortran order on one process, in C order on all. */
  ghost predicate HasIndex(dist: Distrib, order: Order, g: nat, nprocs: nat, coord: nat, x: nat)
    requires nprocs >= 1 && Accepted(dist, g, nprocs)
  {
    match dist
    case Block(darg) => Holds(TypeBlock(g, nprocs, coord, darg), x)
    case Cyclic(darg) => AtPosition(g, nprocs, coord, CyclicBlksize(darg), x)
    case Undistributed =>
      if order.Fortran? then Holds(TypeBlock(g, 1, 0, Default), x) else Holds(TypeBlock(g, nprocs, coord, Default), x)
  }

  lemma CyclicHolds(g: nat, nprocs: nat, coord: nat, blksize: nat, x: nat)
    requires nprocs >= 1 && blksize >= 1 && coord < nprocs && x < g
    ensures AtPosition(g, nprocs, coord, blksize, x) <==> coord == CyclicOwner(nprocs, blksize, x)
  {
    ProductPositive(nprocs, blksize);
    if CyclicOwner(nprocs, blksize, x) == coord {
      var k := CyclicOnto(nprocs, coord, blksize, x);
      CyclicPositions(g, nprocs, coord, blksize, k);
    }
    if AtPosition(g, nprocs, coord, blksize, x) {
      var k: nat :| k < LocalSize(g, nprocs, coord, blksize) && GlobalIndex(nprocs, coord, blksize, k) == x;
      CyclicPositions(g, nprocs, coord, blksize, k);
    }
  }

  /** The process that an index of a dimension is dealt to: the one whose block it is in, or blocks dealt in turn, of
      one index each unless a size is given. */
  ghost predicate DealtTo(dist: Distrib, g: nat, nprocs: nat, x: nat, owner: nat)
    requires nprocs >= 1
  {
    match dist
    case Block(darg) => forall b: int | BlockSize(g, nprocs, darg, b) :: b >= 1 && owner == x / b
    case Cyclic(darg) =>
      if darg.Default? then owner == x % nprocs else darg.d >= 1 && owner == x / darg.d % nprocs
    case Undistributed => forall b: int | BlockSize(g, nprocs, Default, b) :: b >= 1 && owner == x / b
  }

  /** Every index of a dimension has exactly one owner, unless an undistributed dimension is spread over more than
      one process in Fortran order: then all of them hold it. */
  lemma OneCoordinate(dist: Distrib, order: Order, g: nat, nprocs: nat, x: nat) returns (owner: nat)
    requires nprocs >= 1 && Accepted(dist, g, nprocs) && x < g
    ensures owner < nprocs && DealtTo(dist, g, nprocs, x, owner)
    ensures !(dist.Undistributed? && order.Fortran? && nprocs > 1) ==>
      forall c: nat | c < nprocs :: HasIndex(dist, order, g, nprocs, c, x) <==> c == owner
    ensures dist.Undistributed? && order.Fortran? ==>
      forall c: nat | c < nprocs :: HasIndex(dist, order, g, nprocs, c, x)
  {
    match dist
    case Block(darg) => owner := BlockCoordinate(darg, g, nprocs, x);
    case Cyclic(darg) =>
      owner := CyclicOwner(nprocs, CyclicBlksize(darg), x);
      forall c: nat | c < nprocs
        ensures HasIndex(dist, order, g, nprocs, c, x) <==> c == owner
      {
        CyclicHolds(g, nprocs, c, CyclicBlksize(darg), x);
      }
    case Undistributed =>
      owner := BlockCoordinate(Default, g, nprocs, x);
      BlockSizeIs(g, 1, Default, g);
      BlockOwner(g, 1, Default, 0, x, g);
      assert x / g == 0;
  }

  lemma BlockCoordinate(darg: Darg, g: nat, nprocs: nat, x: nat) returns (owner: nat)
    requires nprocs >= 1 && TypeBlock(g, nprocs, 0, darg).Part? && x < g
    ensures owner < nprocs && forall b: int | BlockSize(g, nprocs, darg, b) :: b >= 1 && owner == x / b
    ensures forall c: nat | c < nprocs :: Holds(TypeBlock(g, nprocs, c, darg), x) <==> c == owner
  {
    var size := BlockBlksize(g, nprocs, darg);
    BlockSizeIs(g, nprocs, darg, size);
    BlockOwner(g, nprocs, darg, 0, x, size);
    owner := x / size;
    forall b: int | BlockSize(g, nprocs, darg, b) ensures b >= 1 && owner == x / b {
      BlockSizeIs(g, nprocs, darg, b);
    }
    forall c: nat | c < nprocs
      ensures Holds(TypeBlock(g, nprocs, c, darg), x) <==> c == owner
    {
      BlockOwner(g, nprocs, darg, c, x, size);
    }
  }

  /** A distribution of an array over a grid of processes that is not refused. */
  ghost predicate Distribution(dists: seq<Distrib>, gsizes: seq<nat>, psizes: seq<nat>) {
    && |dists| == |gsizes| == |psizes| && Grid(psizes)
    && forall d: nat | d < |dists| :: Accepted(dists[d], gsizes[d], psizes[d])
  }

  /** The process holds the element: it holds its index in every dimension. */
  ghost predicate HasElement(dists: seq<Distrib>, order: Order, gsizes: seq<nat>, psizes: seq<nat>, coords: seq<nat>,
                             index: seq<nat>)
    requires Distribution(dists, gsizes, psizes) && InGrid(coords, psizes) && |index| == |gsizes|
  {
    forall d: nat | d < |dists| :: HasIndex(dists[d], order, gsizes[d], psizes[d], coords[d], index[d])
  }

  /** As MPI demands of undistributed dimensions; C order does without. */
  predicate OnOneProcess(dists: seq<Distrib>, order: Order, psizes: seq<nat>)
    requires |dists| == |psizes|
  {
    order.Fortran? ==> forall d: nat | d < |dists| && dists[d].Undistributed? :: psizes[d] == 1
  }

  /** The owners of the first n indices. */
  lemma {:induction false} Owners(dists: seq<Distrib>, order: Order, gsizes: seq<nat>, psizes: seq<nat>,
                                  index: seq<nat>, n: nat) returns (owners: seq<nat>)
    requires Distribution(dists, gsizes, psizes) && OnOneProcess(dists, order, psizes)
    requires InGrid(index, gsizes) && n <= |dists|
    ensures |owners| == n && forall d: nat | d < n :: owners[d] < psizes[d]
    ensures forall d: nat | d < n :: DealtTo(dists[d], gsizes[d], psizes[d], index[d], owners[d])
    ensures forall d: nat, c: nat | d < n && c < psizes[d] ::
              HasIndex(dists[d], order, gsizes[d], psizes[d], c, index[d]) <==> c == owners[d]
    decreases n
  {
    owners := [];
    if n > 0 {
      var before := Owners(dists, order, gsizes, psizes, index, n - 1);
      var owner := OneCoordinate(dists[n - 1], order, gsizes[n - 1], psizes[n - 1], index[n - 1]);
      owners := before + [owner];
    }
  }

  /** Every element of the array belongs to exactly one rank: that of the processes to which its indices are dealt. */
  lemma OneRank(dists: seq<Distrib>, order: Order, gsizes: seq<nat>, psizes: seq<nat>, index: seq<nat>)
    returns (rank: nat, owners: seq<nat>)
    requires Distribution(dists, gsizes, psizes) && OnOneProcess(dists, order, psizes)
    requires InGrid(index, gsizes)
    ensures rank < Procs(psizes) && InGrid(owners, psizes) && RankOf(owners, psizes) == rank
    ensures forall d: nat | d < |dists| :: DealtTo(dists[d], gsizes[d], psizes[d], index[d], owners[d])
    ensures forall coords: seq<nat> | InGrid(coords, psizes) ::
              HasElement(dists, order, gsizes, psizes, coords, index) <==> RankOf(coords, psizes) == rank
  {
    owners := Owners(dists, order, gsizes, psizes, index, |dists|);
    rank := RankOf(owners, psizes);
    RankInRange(owners, psizes);
    forall coords: seq<nat> | InGrid(coords, psizes)
      ensures HasElement(dists, order, gsizes, psizes, coords, index) <==> RankOf(coords, psizes) == rank
    {
      OneProcess(owners, coords, psizes, rank);
      if HasElement(dists, order, gsizes, psizes, coords, index) {
        forall d: nat | d < |dists|
          ensures coords[d] == owners[d]
        {
        }
        assert coords == owners;
      }
    }
  }

  /** Processes that hold the first n indices, with coordinate c where every process does. */
  lemma {:induction false} Holders(dists: seq<Distrib>, order: Order, gsizes: seq<nat>, psizes: seq<nat>,
                                   index: seq<nat>, d: nat, c: nat, n: nat) returns (coords: seq<nat>)
    requires Distribution(dists, gsizes, psizes) && InGrid(index, gsizes) && n <= |dists|
    requires order.Fortran? && d < |dists| && dists[d].Undistributed? && c < psizes[d]
    ensures |coords| == n && forall k: nat | k < n :: coords[k] < psizes[k]
    ensures forall k: nat | k < n :: HasIndex(dists[k], order, gsizes[k], psizes[k], coords[k], index[k])
    ensures d < n ==> coords[d] == c
    decreases n
  {
    coords := [];
    if n > 0 {
      var before := Holders(dists, order, gsizes, psizes, index, d, c, n - 1);
      var owner := OneCoordinate(dists[n - 1], order, gsizes[n - 1], psizes[n - 1], index[n - 1]);
      coords := before + [if n - 1 == d then c else owner];
    }
  }

  /** Without that demand every element has at least two ranks: ranks own elements alone if and only if no
      undistributed dimension is spread over processes in Fortran order. */
  lemma TwoRanks(dists: seq<Distrib>, order: Order, gsizes: seq<nat>, psizes: seq<nat>, index: seq<nat>)
    returns (a: seq<nat>, b: seq<nat>)
    requires Distribution(dists, gsizes, psizes) && !OnOneProcess(dists, order, psizes) && InGrid(index, gsizes)
    ensures InGrid(a, psizes) && InGrid(b, psizes) && RankOf(a, psizes) != RankOf(b, psizes)
    ensures HasElement(dists, order, gsizes, psizes, a, index) && HasElement(dists, order, gsizes, psizes, b, index)
  {
    var d: nat :| d < |dists| && dists[d].Undistributed? && psizes[d] != 1;
    a := Holders(dists, order, gsizes, psizes, index, d, 0, |dists|);
    b := Holders(dists, order, gsizes, psizes, index, d, 1, |dists|);
    if RankOf(a, psizes) == RankOf(b, psizes) {
      RankInjective(a, b, psizes);
    }
  }
}
