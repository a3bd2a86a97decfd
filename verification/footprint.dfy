/** Type_calc_footprint: lower and upper bounds of a type, and the least and greatest byte that it has. */
module Footprints {
  import opened Dataloops
  import opened LeafBlocks

  /** Types as they were constructed, structs left out. Strides and displacements of the constructors whose
      name starts with an h are in bytes, the others in extents. */
  datatype Mpi =
    | Named(size: nat)
    | Dup(inner: Mpi)
    | Resized(lb: int, extent: int, inner: Mpi)
    | Contiguous(count: nat, inner: Mpi)
    | Vector(count: nat, blklen: nat, stride: int, inner: Mpi)
    | Hvector(count: nat, blklen: nat, stride: int, inner: Mpi)
    | IndexedBlock(blklen: nat, disps: seq<int>, inner: Mpi)
    | Indexed(lens: seq<nat>, disps: seq<int>, inner: Mpi)
    | Hindexed(lens: seq<nat>, disps: seq<int>, inner: Mpi)
  {
    ghost predicate Valid() {
      && (Indexed? || Hindexed? ==> |lens| == |disps|)
      && (!Named? ==> inner.Valid())
    }
  }

  datatype Footprint = Footprint(size: nat, lb: int, ub: int, trueLb: int, trueUb: int, extent: int)

  /* ---------- the meaning: MPI-3.1, section 4.1 ---------- */

  /** Where the instances of a block are. */
  function Block(d: int, n: nat, e: int): seq<int> {
    if n == 0 then [] else Block(d, n - 1, e) + [d + (n - 1) * e]
  }

  function Strided(n: nat, blklen: nat, stride: int, e: int): seq<int> {
    if n == 0 then [] else Strided(n - 1, blklen, stride, e) + Block((n - 1) * stride, blklen, e)
  }

  function Blocks(lens: seq<nat>, disps: seq<int>, unit: int, e: int): seq<int>
    requires |lens| == |disps|
  {
    if lens == [] then []
    else
      var k := |lens| - 1;
      Blocks(lens[..k], disps[..k], unit, e) + Block(disps[k] * unit, lens[k], e)
  }

  /** Where the instances of the old type are, if its extent is e. */
  function Origins(t: Mpi, e: int): seq<int>
    requires t.Valid()
  {
    match t
    case Named(_) => [0]
    case Dup(_) => [0]
    case Resized(_, _, _) => [0]
    case Contiguous(n, _) => Block(0, n, e)
    case Vector(n, bl, s, _) => Strided(n, bl, s * e, e)
    case Hvector(n, bl, s, _) => Strided(n, bl, s, e)
    case IndexedBlock(bl, ds, _) => Blocks(Same(|ds|, bl), ds, e, e)
    case Indexed(ls, ds, _) => Blocks(ls, ds, e, e)
    case Hindexed(ls, ds, _) => Blocks(ls, ds, 1, e)
  }

  ghost predicate Least(s: seq<int>, x: int) {
    x in s && forall y: int :: y in s ==> x <= y
  }

  ghost predicate Greatest(s: seq<int>, x: int) {
    x in s && forall y: int :: y in s ==> y <= x
  }

  ghost function Copies(bytes: seq<int>, origins: seq<int>): seq<int> {
    if origins == [] then []
    else Copies(bytes, origins[..|origins| - 1]) + Shift(bytes, origins[|origins| - 1])
  }

  /** The least of a nonempty list, the greatest; of no interest if it is empty. */
  function MinOf(s: seq<int>): int {
    if s == [] then 0 else if |s| == 1 then s[0]
    else if s[|s| - 1] < MinOf(s[..|s| - 1]) then s[|s| - 1] else MinOf(s[..|s| - 1])
  }

  function MaxOf(s: seq<int>): int {
    if s == [] then 0 else if |s| == 1 then s[0]
    else if s[|s| - 1] > MaxOf(s[..|s| - 1]) then s[|s| - 1] else MaxOf(s[..|s| - 1])
  }

  /** Lower bound, upper bound: those of the outermost instances of the old type. */
  function Lb(t: Mpi): int
    requires t.Valid()
  {
    match t
    case Named(_) => 0
    case Resized(lb, _, _) => lb
    case _ => Lb(t.inner) + MinOf(Origins(t, Ub(t.inner) - Lb(t.inner)))
  }

  function Ub(t: Mpi): int
    requires t.Valid()
  {
    match t
    case Named(size) => size
    case Resized(lb, extent, _) => lb + extent
    case _ => Ub(t.inner) + MaxOf(Origins(t, Ub(t.inner) - Lb(t.inner)))
  }

  /** The byte map. */
  ghost function TypeMap(t: Mpi): seq<int>
    requires t.Valid()
  {
    if t.Named? then Run(0, t.size) else Copies(TypeMap(t.inner), Origins(t, Ub(t.inner) - Lb(t.inner)))
  }

  /* ---------- least and greatest ---------- */

  lemma {:induction false} MinIsLeast(s: seq<int>, x: int)
    requires s != []
    ensures Least(s, x) <==> x == MinOf(s)
    decreases |s|
  {
    var k := |s| - 1;
    assert s == s[..k] + [s[k]];
    if k == 0 {
      assert s == [s[0]];
    } else {
      MinIsLeast(s[..k], MinOf(s[..k]));
      var m := MinOf(s);
      assert m in s;
      assert Least(s, m);
    }
  }

  lemma {:induction false} MaxIsGreatest(s: seq<int>, x: int)
    requires s != []
    ensures Greatest(s, x) <==> x == MaxOf(s)
    decreases |s|
  {
    var k := |s| - 1;
    assert s == s[..k] + [s[k]];
    if k == 0 {
      assert s == [s[0]];
    } else {
      MaxIsGreatest(s[..k], MaxOf(s[..k]));
      var m := MaxOf(s);
      assert m in s;
      assert Greatest(s, m);
    }
  }

  /** The bounds of a list of two parts. */
  ghost predicate Bounded(s: seq<int>, lo: int, hi: int) {
    Least(s, lo) && Greatest(s, hi)
  }

  lemma BoundedAppend(s: seq<int>, t: seq<int>, a: int, b: int, c: int, d: int)
    requires Bounded(s, a, b) && Bounded(t, c, d)
    ensures Bounded(s + t, if a <= c then a else c, if b >= d then b else d)
  {
  }

  lemma BoundedOne(x: int)
    ensures Bounded([x], x, x)
  {
  }

  lemma BoundedShift(s: seq<int>, a: int, b: int, d: int)
    requires Bounded(s, a, b)
    ensures Bounded(Shift(s, d), a + d, b + d)
  {
    var t := Shift(s, d);
    var i: nat :| i < |s| && s[i] == a;
    var j: nat :| j < |s| && s[j] == b;
    assert t[i] == a + d && t[j] == b + d;
    forall y: int | y in t ensures a + d <= y <= b + d {
      var k: nat :| k < |t| && t[k] == y;
      assert s[k] in s;
    }
  }

  /** The bounds of a block depend on the sign of the extent. */
  lemma {:induction false} BlockBounds(d: int, n: nat, e: int)
    requires n >= 1
    ensures e >= 0 ==> Bounded(Block(d, n, e), d, d + (n - 1) * e)
    ensures e < 0 ==> Bounded(Block(d, n, e), d + (n - 1) * e, d)
    decreases n
  {
    BoundedOne(d + (n - 1) * e);
    if n == 1 {
      assert Block(d, 0, e) == [] && [] + [d + 0 * e] == [d];
    } else {
      BlockBounds(d, n - 1, e);
      TimesNext(n - 1, e);
      if e >= 0 {
        BoundedAppend(Block(d, n - 1, e), [d + (n - 1) * e], d, d + (n - 2) * e, d + (n - 1) * e, d + (n - 1) * e);
      } else {
        TimesNeg(n - 1, e);
        BoundedAppend(Block(d, n - 1, e), [d + (n - 1) * e], d + (n - 2) * e, d, d + (n - 1) * e, d + (n - 1) * e);
      }
    }
  }

  lemma TimesNeg(n: nat, e: int)
    requires e < 0
    ensures n * e <= 0
  {
  }

  lemma {:induction false} CopiesBounds(bytes: seq<int>, origins: seq<int>, a: int, b: int, c: int, d: int)
    requires Bounded(bytes, a, b) && Bounded(origins, c, d)
    ensures Bounded(Copies(bytes, origins), a + c, b + d)
    decreases |origins|
  {
    var k := |origins| - 1;
    var x := origins[k];
    SplitLast(origins);
    BoundedShift(bytes, a, b, x);
    BoundedOne(x);
    if k == 0 {
      NothingBefore(bytes, x);
      OneBounds(origins, c, d, x, x);
    } else {
      var lo, hi := MinOf(origins[..k]), MaxOf(origins[..k]);
      MinIsLeast(origins[..k], lo);
      MaxIsGreatest(origins[..k], hi);
      assert Bounded(origins[..k], lo, hi);
      hide Bounded, MinOf, MaxOf, Shift;
      CopiesBounds(bytes, origins[..k], a, b, lo, hi);
      BoundedAppend(Copies(bytes, origins[..k]), Shift(bytes, x), a + lo, b + hi, a + x, b + x);
      BoundedAppend(origins[..k], [x], lo, hi, x, x);
      OneBounds(origins, c, d, if lo <= x then lo else x, if hi >= x then hi else x);
    }
  }

  lemma SplitLast(s: seq<int>)
    requires s != []
    ensures s == s[..|s| - 1] + [s[|s| - 1]]
    ensures |s| == 1 ==> s == [s[0]]
  {
  }

  lemma NothingBefore(bytes: seq<int>, x: int)
    ensures Copies(bytes, [x]) == Shift(bytes, x)
  {
    assert [x][..0] == [];
    assert Copies(bytes, []) == [];
    assert [] + Shift(bytes, x) == Shift(bytes, x);
  }

  lemma OneBounds(s: seq<int>, a: int, b: int, c: int, d: int)
    requires Bounded(s, a, b) && Bounded(s, c, d)
    ensures a == c && b == d
  {
  }

  lemma {:induction false} CopiesLength(bytes: seq<int>, origins: seq<int>)
    ensures |Copies(bytes, origins)| == |origins| * |bytes|
    decreases |origins|
  {
    if origins != [] {
      CopiesLength(bytes, origins[..|origins| - 1]);
      TimesNext(|origins|, |bytes|);
    } else {
      assert |origins| * |bytes| == 0;
    }
  }

  /** The least and the greatest of a vector's origins depend on the signs of stride and extent. */
  lemma {:induction false} StridedBounds(n: nat, blklen: nat, stride: int, e: int)
    requires n >= 1 && blklen >= 1
    ensures Bounded(Strided(n, blklen, stride, e),
                    (if stride < 0 then stride * (n - 1) else 0) + (if e < 0 then e * (blklen - 1) else 0),
                    (if stride >= 0 then stride * (n - 1) else 0) + (if e >= 0 then e * (blklen - 1) else 0))
    decreases n
  {
    var o := (n - 1) * stride;
    BlockBounds(o, blklen, e);
    var lo, hi := if e < 0 then e * (blklen - 1) else 0, if e >= 0 then e * (blklen - 1) else 0;
    assert Bounded(Block(o, blklen, e), o + lo, o + hi);
    if n == 1 {
      assert o == 0 && Strided(0, blklen, stride, e) == [];
      assert [] + Block(o, blklen, e) == Block(o, blklen, e);
    } else {
      StridedBounds(n - 1, blklen, stride, e);
      TimesNext(n - 1, stride);
      if stride < 0 {
        TimesNeg(n - 1, stride);
      }
      var lo', hi' := if stride < 0 then stride * (n - 2) else 0, if stride >= 0 then stride * (n - 2) else 0;
      BoundedAppend(Strided(n - 1, blklen, stride, e), Block(o, blklen, e), lo' + lo, hi' + hi, o + lo, o + hi);
    }
  }

  lemma {:induction false} BlockLength(d: int, n: nat, e: int)
    ensures |Block(d, n, e)| == n
    decreases n
  {
    if n > 0 {
      BlockLength(d, n - 1, e);
    }
  }

  lemma {:induction false} StridedLength(n: nat, blklen: nat, stride: int, e: int)
    ensures |Strided(n, blklen, stride, e)| == n * blklen
    decreases n
  {
    if n > 0 {
      StridedLength(n - 1, blklen, stride, e);
      BlockLength((n - 1) * stride, blklen, e);
      TimesNext(n, blklen);
    } else {
      assert n * blklen == 0;
    }
  }

  lemma {:induction false} BlocksLength(lens: seq<nat>, disps: seq<int>, unit: int, e: int)
    requires |lens| == |disps|
    ensures |Blocks(lens, disps, unit, e)| == Sum(lens)
    decreases |lens|
  {
    if lens != [] {
      var k := |lens| - 1;
      assert lens == lens[..k] + [lens[k]];
      SumPush(lens[..k], lens[k]);
      BlocksLength(lens[..k], disps[..k], unit, e);
      BlockLength(disps[k] * unit, lens[k], e);
    }
  }

  /* ---------- the macros ---------- */

  function ContigLbUb(cnt: nat, lb: int, ub: int, extent: int): (int, int) {
    if cnt == 0 then (lb, ub)
    else if ub >= lb then (lb, ub + extent * (cnt - 1))
    else (lb + extent * (cnt - 1), ub)
  }

  function VectorLbUb(cnt: nat, stride: int, blklen: nat, lb: int, ub: int, extent: int): (int, int) {
    if cnt == 0 || blklen == 0 then (lb, ub)
    else if stride >= 0 && extent >= 0 then (lb, ub + extent * (blklen - 1) + stride * (cnt - 1))
    else if stride < 0 && extent >= 0 then (lb + stride * (cnt - 1), ub + extent * (blklen - 1))
    else if stride >= 0 && extent < 0 then (lb + extent * (blklen - 1), ub + stride * (cnt - 1))
    else (lb + extent * (blklen - 1) + stride * (cnt - 1), ub)
  }

  function BlockLbUb(cnt: nat, disp: int, lb: int, ub: int, extent: int): (int, int) {
    if cnt == 0 then (lb + disp, ub + disp)
    else if ub >= lb then (lb + disp, ub + disp + extent * (cnt - 1))
    else (lb + disp + extent * (cnt - 1), ub + disp)
  }

  lemma BlockMacro(cnt: nat, disp: int, lb: int, ub: int, extent: int)
    requires cnt >= 1 && extent == ub - lb
    ensures var r := BlockLbUb(cnt, disp, lb, ub, extent); Bounded(Block(disp, cnt, extent), r.0 - lb, r.1 - ub)
  {
    BlockBounds(disp, cnt, extent);
  }

  lemma ContigMacro(cnt: nat, lb: int, ub: int, extent: int)
    requires cnt >= 1 && extent == ub - lb
    ensures var r := ContigLbUb(cnt, lb, ub, extent); Bounded(Block(0, cnt, extent), r.0 - lb, r.1 - ub)
  {
    BlockMacro(cnt, 0, lb, ub, extent);
  }

  lemma VectorMacro(cnt: nat, stride: int, blklen: nat, lb: int, ub: int, extent: int)
    requires cnt >= 1 && blklen >= 1
    ensures var r := VectorLbUb(cnt, stride, blklen, lb, ub, extent);
            Bounded(Strided(cnt, blklen, stride, extent), r.0 - lb, r.1 - ub)
  {
    hide Bounded, Strided;
    StridedBounds(cnt, blklen, stride, extent);
  }

  /* ---------- the loops over blocks ---------- */

  /** One more block, if it is not empty. */
  lemma BlocksNext(lens: seq<nat>, disps: seq<int>, unit: int, e: int, i: nat)
    requires i < |lens| == |disps|
    ensures Blocks(lens[..i + 1], disps[..i + 1], unit, e)
         == Blocks(lens[..i], disps[..i], unit, e) + Block(disps[i] * unit, lens[i], e)
    ensures Sum(lens[..i + 1]) == Sum(lens[..i]) + lens[i]
  {
    assert lens[..i + 1][..i] == lens[..i] && disps[..i + 1][..i] == disps[..i];
    assert lens[..i + 1] == lens[..i] + [lens[i]];
    SumPush(lens[..i], lens[i]);
  }

  lemma {:induction false} NoBlocks(lens: seq<nat>, disps: seq<int>, unit: int, e: int, i: nat)
    requires i <= |lens| == |disps| && forall k: nat | k < i :: lens[k] == 0
    ensures Blocks(lens[..i], disps[..i], unit, e) == [] && Sum(lens[..i]) == 0
    decreases i
  {
    if i > 0 {
      NoBlocks(lens, disps, unit, e, i - 1);
      BlocksNext(lens, disps, unit, e, i - 1);
    }
  }

  /** The running bounds after one more block. */
  lemma Widened(lens: seq<nat>, disps: seq<int>, unit: int, e: int, i: nat, lb: int, ub: int, minLb: int, maxUb: int)
    requires i < |lens| == |disps| && lens[i] >= 1 && e == ub - lb
    requires Bounded(Blocks(lens[..i], disps[..i], unit, e), minLb - lb, maxUb - ub)
    ensures var r := BlockLbUb(lens[i], disps[i] * unit, lb, ub, e);
            Bounded(Blocks(lens[..i + 1], disps[..i + 1], unit, e),
                    (if r.0 < minLb then r.0 else minLb) - lb, (if r.1 > maxUb then r.1 else maxUb) - ub)
  {
    var r := BlockLbUb(lens[i], disps[i] * unit, lb, ub, e);
    BlocksNext(lens, disps, unit, e, i);
    BlockMacro(lens[i], disps[i] * unit, lb, ub, e);
    BoundedAppend(Blocks(lens[..i], disps[..i], unit, e), Block(disps[i] * unit, lens[i], e),
                  minLb - lb, maxUb - ub, r.0 - lb, r.1 - ub);
  }

  /** The first block with instances. */
  lemma Primed(lens: seq<nat>, disps: seq<int>, unit: int, e: int, i: nat, lb: int, ub: int)
    requires i < |lens| == |disps| && lens[i] >= 1 && e == ub - lb && forall k: nat | k < i :: lens[k] == 0
    ensures var r := BlockLbUb(lens[i], disps[i] * unit, lb, ub, e);
            Bounded(Blocks(lens[..i + 1], disps[..i + 1], unit, e), r.0 - lb, r.1 - ub)
    ensures Sum(lens[..i + 1]) == lens[i]
  {
    NoBlocks(lens, disps, unit, e, i);
    BlocksNext(lens, disps, unit, e, i);
    BlockMacro(lens[i], disps[i] * unit, lb, ub, e);
    assert [] + Block(disps[i] * unit, lens[i], e) == Block(disps[i] * unit, lens[i], e);
  }

  /** A block without instances. */
  lemma SameBlocks(lens: seq<nat>, disps: seq<int>, unit: int, e: int, i: nat)
    requires i < |lens| == |disps| && lens[i] == 0
    ensures Blocks(lens[..i + 1], disps[..i + 1], unit, e) == Blocks(lens[..i], disps[..i], unit, e)
    ensures Sum(lens[..i + 1]) == Sum(lens[..i])
  {
    BlocksNext(lens, disps, unit, e, i);
    Unchanged(Blocks(lens[..i], disps[..i], unit, e), disps[i] * unit, e);
  }

  /** Indexed types: blocks without instances are skipped. */
  method IndexedBounds(lens: seq<nat>, disps: seq<int>, unit: int, lb: int, ub: int, e: int)
    returns (any: bool, minLb: int, maxUb: int, ntypes: nat)
    requires |lens| == |disps| && e == ub - lb
    ensures ntypes == Sum(lens) && (any <==> ntypes != 0)
    ensures any ==> Bounded(Blocks(lens, disps, unit, e), minLb - lb, maxUb - ub)
  {
    hide Bounded, BlockLbUb, Blocks, Sum;
    minLb, maxUb, ntypes := 0, 0, 0;
    assert lens[..|lens|] == lens && disps[..|disps|] == disps;
    var i := 0;
    while i < |lens| && lens[i] == 0
      invariant i <= |lens| && forall k: nat | k < i :: lens[k] == 0
    {
      i := i + 1;
    }
    if i == |lens| {
      NoBlocks(lens, disps, unit, e, i);
      return false, 0, 0, 0;
    }
    Primed(lens, disps, unit, e, i, lb, ub);
    ntypes := lens[i];
    var first := BlockLbUb(lens[i], disps[i] * unit, lb, ub, e);
    minLb, maxUb := first.0, first.1;
    i := i + 1;
    while i < |lens|
      invariant 1 <= i <= |lens| && ntypes >= 1 && ntypes == Sum(lens[..i])
      invariant Bounded(Blocks(lens[..i], disps[..i], unit, e), minLb - lb, maxUb - ub)
    {
      if lens[i] == 0 {
        SameBlocks(lens, disps, unit, e, i);
      } else {
        BlocksNext(lens, disps, unit, e, i);
        Widened(lens, disps, unit, e, i, lb, ub, minLb, maxUb);
        ntypes := ntypes + lens[i];
        var tmp := BlockLbUb(lens[i], disps[i] * unit, lb, ub, e);
        if tmp.0 < minLb {
          minLb := tmp.0;
        }
        if tmp.1 > maxUb {
          maxUb := tmp.1;
        }
      }
      i := i + 1;
    }
    any := true;
  }

  lemma Unchanged(s: seq<int>, d: int, e: int)
    ensures s + Block(d, 0, e) == s
  {
  }

  /** Blocks of one length. */
  method IndexedBlockBounds(blklen: nat, disps: seq<int>, lb: int, ub: int, e: int) returns (minLb: int, maxUb: int)
    requires disps != [] && e == ub - lb
    ensures blklen >= 1 ==> Bounded(Blocks(Same(|disps|, blklen), disps, e, e), minLb - lb, maxUb - ub)
  {
    ghost var lens := Same(|disps|, blklen);
    var first := BlockLbUb(blklen, disps[0] * e, lb, ub, e);
    minLb, maxUb := first.0, first.1;
    if blklen >= 1 {
      Primed(lens, disps, e, e, 0, lb, ub);
    }
    hide Bounded, BlockLbUb, Blocks;
    for i := 1 to |disps|
      invariant blklen >= 1 ==> Bounded(Blocks(lens[..i], disps[..i], e, e), minLb - lb, maxUb - ub)
    {
      if blklen >= 1 {
        Widened(lens, disps, e, e, i, lb, ub, minLb, maxUb);
      }
      var tmp := BlockLbUb(blklen, disps[i] * e, lb, ub, e);
      minLb, maxUb := if tmp.0 < minLb then tmp.0 else minLb, if tmp.1 > maxUb then tmp.1 else maxUb;
    }
    assert lens[..|disps|] == lens && disps[..|disps|] == disps;
  }

  /* ---------- the footprint ---------- */

  /** A footprint of given bytes and bounds. */
  ghost predicate Says(f: Footprint, bytes: seq<int>, lb: int, ub: int) {
    && f.size == |bytes| && f.extent == f.ub - f.lb
    && (bytes != [] ==> f.lb == lb && f.ub == ub && Bounded(bytes, f.trueLb, f.trueUb - 1))
  }

  /** The footprint says what the type has: how many bytes, and if any, which the outermost ones are, and the
      bounds that MPI gives the type. */
  ghost predicate Describes(f: Footprint, t: Mpi)
    requires t.Valid()
  {
    Says(f, TypeMap(t), Lb(t), Ub(t))
  }

  lemma {:induction false} NoCopies(bytes: seq<int>, origins: seq<int>)
    requires bytes == []
    ensures Copies(bytes, origins) == []
    decreases |origins|
  {
    if origins != [] {
      NoCopies(bytes, origins[..|origins| - 1]);
    }
  }

  lemma CopiesCount(bytes: seq<int>, origins: seq<int>, n: nat, m: nat)
    requires |origins| == n && |bytes| == m
    ensures |Copies(bytes, origins)| == Product(n, m)
  {
    CopiesLength(bytes, origins);
  }

  /** The bounds of copies, whether there are any or not. */
  lemma CopiesDescribed(bytes: seq<int>, origins: seq<int>, a: int, b: int, lo: int, hi: int)
    requires bytes != [] ==> Bounded(bytes, a, b)
    requires bytes != [] && origins != [] ==> Bounded(origins, lo, hi)
    ensures Copies(bytes, origins) != [] ==>
      && bytes != [] && origins != [] && lo == MinOf(origins) && hi == MaxOf(origins)
      && Bounded(Copies(bytes, origins), a + lo, b + hi)
  {
    if bytes == [] {
      NoCopies(bytes, origins);
    } else if origins != [] {
      MinIsLeast(origins, lo);
      MaxIsGreatest(origins, hi);
      CopiesBounds(bytes, origins, a, b, lo, hi);
    }
  }

  lemma Unfolded(t: Mpi)
    requires t.Valid() && !t.Named? && !t.Resized?
    ensures var origins := Origins(t, Ub(t.inner) - Lb(t.inner));
      && TypeMap(t) == Copies(TypeMap(t.inner), origins)
      && Lb(t) == Lb(t.inner) + MinOf(origins) && Ub(t) == Ub(t.inner) + MaxOf(origins)
  {
    hide Origins, Copies, MinOf, MaxOf;
  }

  /** A footprint computed from that of the old type and the bounds of the origins. */
  ghost predicate Computed(f: Footprint, c: Footprint, n: nat, lb: int, ub: int) {
    && f.size == Product(n, c.size) && f.lb == lb && f.ub == ub && f.extent == ub - lb
    && f.trueLb == lb + (c.trueLb - c.lb) && f.trueUb == ub + (c.trueUb - c.ub)
  }

  lemma FromBytes(bytes: seq<int>, origins: seq<int>, c: Footprint, f: Footprint, n: nat, lb: int, ub: int,
                  lbOld: int, ubOld: int)
    requires Says(c, bytes, lbOld, ubOld) && |origins| == n && Computed(f, c, n, lb, ub)
    requires bytes != [] && n != 0 ==> Bounded(origins, lb - c.lb, ub - c.ub)
    ensures Says(f, Copies(bytes, origins), lbOld + MinOf(origins), ubOld + MaxOf(origins))
  {
    CopiesCount(bytes, origins, n, c.size);
    hide Copies, MinOf, MaxOf, Bounded;
    CopiesDescribed(bytes, origins, c.trueLb, c.trueUb - 1, lb - c.lb, ub - c.ub);
  }

  /** Instances of an old type that is described, at origins with given bounds. */
  lemma FromOld(t: Mpi, c: Footprint, lb: int, ub: int, f: Footprint)
    requires t.Valid() && !t.Named? && !t.Resized? && Describes(c, t.inner)
    requires Count(t) != 0 ==> Bounded(Origins(t, c.extent), lb - c.lb, ub - c.ub)
    requires Computed(f, c, Count(t), lb, ub)
    ensures Describes(f, t)
  {
    var e := Ub(t.inner) - Lb(t.inner);
    var bytes, origins, n := TypeMap(t.inner), Origins(t, e), Count(t);
    SameExtent(t, c, e);
    OriginCount(t, e);
    CopiesFold(t, c, f, bytes, origins, n, lb, ub, e);
  }

  lemma CopiesFold(t: Mpi, c: Footprint, f: Footprint, bytes: seq<int>, origins: seq<int>, n: nat,
                   lb: int, ub: int, e: int)
    requires t.Valid() && !t.Named? && !t.Resized? && e == Ub(t.inner) - Lb(t.inner)
    requires bytes == TypeMap(t.inner) && origins == Origins(t, e) && |origins| == n
    requires Says(c, bytes, Lb(t.inner), Ub(t.inner)) && Computed(f, c, n, lb, ub)
    requires bytes != [] && n != 0 ==> Bounded(origins, lb - c.lb, ub - c.ub)
    ensures Describes(f, t)
  {
    hide Computed, Says, Bounded, Copies, MinOf, MaxOf, Origins, TypeMap, Lb, Ub;
    Unfolded(t);
    FromBytes(bytes, origins, c, f, n, lb, ub, Lb(t.inner), Ub(t.inner));
  }

  lemma SameExtent(t: Mpi, c: Footprint, e: int)
    requires t.Valid() && !t.Named? && Describes(c, t.inner) && e == Ub(t.inner) - Lb(t.inner)
    ensures Says(c, TypeMap(t.inner), Lb(t.inner), Ub(t.inner)) && (TypeMap(t.inner) != [] ==> e == c.extent)
  {
  }

  /** How many instances there are does not depend on the extent. */
  lemma OriginCount(t: Mpi, e: int)
    requires t.Valid()
    ensures |Origins(t, e)| == Count(t)
  {
    match t
    case Contiguous(n, _) => BlockLength(0, n, e);
    case Vector(n, bl, s, _) => StridedLength(n, bl, s * e, e);
    case Hvector(n, bl, s, _) => StridedLength(n, bl, s, e);
    case IndexedBlock(bl, ds, _) =>
      BlocksLength(Same(|ds|, bl), ds, e, e);
      SumSame(|ds|, bl);
    case Indexed(ls, ds, _) => BlocksLength(ls, ds, e, e);
    case Hindexed(ls, ds, _) => BlocksLength(ls, ds, 1, e);
    case _ =>
  }

  function Count(t: Mpi): nat
    requires t.Valid()
  {
    match t
    case Contiguous(n, _) => n
    case Vector(n, bl, _, _) => n * bl
    case Hvector(n, bl, _, _) => n * bl
    case IndexedBlock(bl, ds, _) => |ds| * bl
    case Indexed(ls, _, _) => Sum(ls)
    case Hindexed(ls, _, _) => Sum(ls)
    case _ => 1
  }

  /** The bounds that the branch for a constructor computes; none if it has no instances. */
  method BoundsOf(t: Mpi, c: Footprint) returns (any: bool, lb: int, ub: int)
    requires t.Valid() && !t.Named? && !t.Resized? && c.extent == c.ub - c.lb
    ensures any ==> Count(t) != 0 ==> Bounded(Origins(t, c.extent), lb - c.lb, ub - c.ub)
    ensures !any ==> Count(t) == 0
  {
    any, lb, ub := true, 0, 0;
    hide Bounded, Block, Strided, Blocks, Sum, BlockLbUb;
    match t {
      case Dup(_) =>
        BoundedOne(0);
        lb, ub := c.lb, c.ub;
      case Contiguous(n, _) =>
        if n == 0 {
          any := false;
        } else {
          ContigMacro(n, c.lb, c.ub, c.extent);
          var r := ContigLbUb(n, c.lb, c.ub, c.extent);
          lb, ub := r.0, r.1;
        }
      case Vector(n, bl, s, _) => any, lb, ub := VectorBounds(n, bl, s * c.extent, c);
      case Hvector(n, bl, s, _) => any, lb, ub := VectorBounds(n, bl, s, c);
      case IndexedBlock(bl, ds, _) =>
        if ds == [] {
          any := false;
        } else {
          lb, ub := IndexedBlockBounds(bl, ds, c.lb, c.ub, c.extent);
        }
      case Indexed(ls, ds, _) =>
        var ntypes;
        any, lb, ub, ntypes := IndexedBounds(ls, ds, c.extent, c.lb, c.ub, c.extent);
      case Hindexed(ls, ds, _) =>
        var ntypes;
        any, lb, ub, ntypes := IndexedBounds(ls, ds, 1, c.lb, c.ub, c.extent);
    }
  }

  method VectorBounds(n: nat, bl: nat, stride: int, c: Footprint) returns (any: bool, lb: int, ub: int)
    ensures any ==> n * bl != 0 ==> Bounded(Strided(n, bl, stride, c.extent), lb - c.lb, ub - c.ub)
    ensures !any ==> n * bl == 0
  {
    any, lb, ub := n != 0, 0, 0;
    if any {
      if bl >= 1 {
        VectorMacro(n, stride, bl, c.lb, c.ub, c.extent);
      }
      var r := VectorLbUb(n, stride, bl, c.lb, c.ub, c.extent);
      lb, ub := r.0, r.1;
    }
  }

  /** Type_calc_footprint: for types of either stride sign and either sign of the extent, the true bounds are
      exactly those of the bytes. */
  method CalcFootprint(t: Mpi) returns (f: Footprint)
    requires t.Valid()
    ensures Describes(f, t)
    decreases t
  {
    if t.Named? {
      NamedBounds(t.size);
      return Footprint(t.size, 0, t.size, 0, t.size, t.size);
    }
    var c := CalcFootprint(t.inner);
    if t.Resized? {
      f := Footprint(c.size, t.lb, t.lb + t.extent, c.trueLb, c.trueUb, t.extent);
      ResizedFootprint(t, c, f);
      return;
    }
    ExtentIs(c, t.inner);
    hide *;
    var any, lb, ub := BoundsOf(t, c);
    if !any {
      Nothing(t);
      return Footprint(0, 0, 0, 0, 0, 0);
    }
    var size := Product(Count(t), c.size);
    f := Footprint(size, lb, ub, lb + (c.trueLb - c.lb), ub + (c.trueUb - c.ub), ub - lb);
    FromOld(t, c, lb, ub, f);
  }

  lemma Nothing(t: Mpi)
    requires t.Valid() && !t.Named? && !t.Resized? && Count(t) == 0
    ensures Describes(Footprint(0, 0, 0, 0, 0, 0), t)
  {
    OriginCount(t, Ub(t.inner) - Lb(t.inner));
  }

  lemma NamedBounds(size: nat)
    ensures size >= 1 ==> Bounded(Run(0, size), 0, size - 1)
  {
    if size >= 1 {
      assert Run(0, size)[0] == 0 && Run(0, size)[size - 1] == size - 1;
    }
  }

  lemma ExtentIs(c: Footprint, t: Mpi)
    requires t.Valid() && Describes(c, t)
    ensures c.extent == c.ub - c.lb
  {
  }

  lemma ResizedFootprint(t: Mpi, c: Footprint, f: Footprint)
    requires t.Valid() && t.Resized? && Describes(c, t.inner)
    requires f == Footprint(c.size, t.lb, t.lb + t.extent, c.trueLb, c.trueUb, t.extent)
    ensures Describes(f, t)
  {
    ResizedMap(t);
  }

  lemma ResizedMap(t: Mpi)
    requires t.Valid() && t.Resized?
    ensures TypeMap(t) == TypeMap(t.inner)
  {
    var b := TypeMap(t.inner);
    assert [0][..0] == [];
    assert Shift(b, 0) == b && [] + b == b;
    assert Copies(b, [0]) == Copies(b, []) + Shift(b, 0);
  }

  /* ---------- the user buffer ---------- */

  /** The size of a user buffer for `count` instances. */
  function UserbufSize(f: Footprint, count: nat): int {
    f.trueLb + (if f.extent >= f.trueUb - f.trueLb then f.extent else f.trueUb - f.trueLb) * count
  }

  /** Bytes of `count` instances lie inside the user buffer if the true lower bound and the extent are not
      negative. */
  lemma InsideUserbuf(t: Mpi, f: Footprint, count: nat, x: int)
    requires t.Valid() && Describes(f, t) && f.trueLb >= 0 && f.extent >= 0
    requires x in Copies(TypeMap(t), Block(0, count, f.extent))
    ensures 0 <= f.trueLb <= x < UserbufSize(f, count)
  {
    hide UserbufSize, TypeMap, Describes, Block, Copies;
    var bytes, origins := TypeMap(t), Block(0, count, f.extent);
    SomeBytes(bytes, f.extent, count, x);
    BytesBounded(t, f);
    var last := (count - 1) * f.extent;
    BlockBounds(0, count, f.extent);
    CopiesBounds(bytes, origins, f.trueLb, f.trueUb - 1, 0, 0 + last);
    BufferArithmetic(f, count);
  }

  lemma BytesBounded(t: Mpi, f: Footprint)
    requires t.Valid() && Describes(f, t) && TypeMap(t) != []
    ensures Bounded(TypeMap(t), f.trueLb, f.trueUb - 1)
  {
  }

  lemma SomeBytes(bytes: seq<int>, extent: int, count: nat, x: int)
    requires x in Copies(bytes, Block(0, count, extent))
    ensures bytes != [] && count >= 1
  {
    if bytes == [] {
      NoCopies(bytes, Block(0, count, extent));
    }
  }

  lemma BufferArithmetic(f: Footprint, count: nat)
    requires count >= 1
    ensures f.trueUb - 1 + (0 + (count - 1) * f.extent) < UserbufSize(f, count)
  {
    var m := if f.extent >= f.trueUb - f.trueLb then f.extent else f.trueUb - f.trueLb;
    AtMost(f.extent, m, count - 1);
    assert m * count == (count - 1) * m + m;
  }

  lemma AtMost(a: int, b: int, n: nat)
    requires a <= b
    ensures n * a <= n * b
  {
  }
}
