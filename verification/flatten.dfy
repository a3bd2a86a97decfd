/** The flattening and counting piece functions. Both describe the bytes handed over so far by
    maximal runs: flattening writes them down as (displacement, length) entries, counting only
    counts them. */
module FlattenCount {
  import opened Dataloops
  import opened LeafBlocks

  /* ---------- maximal runs ---------- */

  ghost predicate StartsRun(s: seq<int>, k: nat)
    requires k < |s|
  {
    k == 0 || s[k] != s[k - 1] + 1
  }

  /** The number of maximal runs of consecutive offsets. */
  ghost function Runs(s: seq<int>): nat {
    if s == [] then 0
    else Runs(s[..|s| - 1]) + if StartsRun(s, |s| - 1) then 1 else 0
  }

  ghost predicate Abuts(s: seq<int>, b: int) {
    s != [] && s[|s| - 1] + 1 == b
  }

  lemma RunsOne(s: seq<int>, b: int)
    ensures Runs(s + [b]) == Runs(s) + if Abuts(s, b) then 0 else 1
  {
    assert (s + [b])[..|s|] == s;
  }

  /** Appending a run opens a new one unless it abuts the last. */
  lemma {:induction false} RunsAppend(s: seq<int>, b: int, n: nat)
    requires n >= 1
    ensures Runs(s + Run(b, n)) == Runs(s) + if Abuts(s, b) then 0 else 1
    ensures Abuts(s + Run(b, n), b + n)
    decreases n
  {
    RunsOne(s + Run(b, n - 1), b + n - 1);
    assert s + Run(b, n) == s + Run(b, n - 1) + [b + n - 1];
    if n > 1 {
      RunsAppend(s, b, n - 1);
    } else {
      assert s + Run(b, 0) == s;
    }
  }

  /* ---------- entries ---------- */

  /** The bytes that entries (disps[k], lens[k]) stand for. */
  ghost function Expand(disps: seq<int>, lens: seq<nat>): seq<int>
    requires |disps| == |lens|
  {
    if disps == [] then []
    else Expand(disps[..|disps| - 1], lens[..|disps| - 1]) + Run(disps[|disps| - 1], lens[|disps| - 1])
  }

  ghost predicate NoAbutting(disps: seq<int>, lens: seq<nat>)
    requires |disps| == |lens|
  {
    && (forall k: nat | k < |lens| :: lens[k] >= 1)
    && (forall k: nat | k + 1 < |disps| :: disps[k] + lens[k] != disps[k + 1])
  }

  lemma ExpandPush(d: seq<int>, l: seq<nat>, b: int, n: nat)
    requires |d| == |l|
    ensures Expand(d + [b], l + [n]) == Expand(d, l) + Run(b, n)
  {
    assert (d + [b])[..|d|] == d && (l + [n])[..|d|] == l;
  }

  lemma LastApart<T>(s: seq<T>, t: seq<T>)
    requires t != []
    ensures s + t == (s + t[..|t| - 1]) + [t[|t| - 1]]
  {
  }

  lemma {:induction false} ExpandAppend(d: seq<int>, l: seq<nat>, e: seq<int>, m: seq<nat>)
    requires |d| == |l| && |e| == |m|
    ensures Expand(d + e, l + m) == Expand(d, l) + Expand(e, m)
    decreases |e|
  {
    if e == [] {
      assert d + e == d && l + m == l;
    } else {
      var k := |e| - 1;
      ExpandAppend(d, l, e[..k], m[..k]);
      LastApart(d, e);
      LastApart(l, m);
      ExpandPush(d + e[..k], l + m[..k], e[k], m[k]);
      hide Run;
      Assoc(Expand(d, l), Expand(e[..k], m[..k]), Run(e[k], m[k]));
    }
  }

  /** Growing the last entry. */
  lemma ExpandGrow(d: seq<int>, l: seq<nat>, n: nat)
    requires |d| == |l| >= 1
    ensures var k := |d| - 1;
            Expand(d, l[k := l[k] + n]) == Expand(d, l) + Run(d[k] + l[k], n)
  {
    var k := |d| - 1;
    assert l[k := l[k] + n][..k] == l[..k];
    RunAppend(d[k], l[k], n);
    Assoc(Expand(d[..k], l[..k]), Run(d[k], l[k]), Run(d[k] + l[k], n));
  }

  /** Entries that do not abut are the maximal runs of their expansion. */
  lemma {:induction false} EntriesAreRuns(d: seq<int>, l: seq<nat>)
    requires |d| == |l| && NoAbutting(d, l)
    ensures Runs(Expand(d, l)) == |d|
    ensures d != [] ==> Abuts(Expand(d, l), d[|d| - 1] + l[|d| - 1])
    decreases |d|
  {
    if d != [] {
      var k := |d| - 1;
      EntriesAreRuns(d[..k], l[..k]);
      RunsAppend(Expand(d[..k], l[..k]), d[k], l[k]);
      if k > 0 {
        assert d[..k][k - 1] == d[k - 1] && l[..k][k - 1] == l[k - 1];
      }
    }
  }

  /** The entries stand for the given offsets from a base, in order, and are maximal. */
  ghost predicate Flattened(d: seq<int>, l: seq<nat>, offs: seq<int>, base: int) {
    && |d| == |l|
    && Expand(d, l) == Shift(offs, base)
    && NoAbutting(d, l)
  }

  lemma FlattenedPush(d: seq<int>, l: seq<nat>, offs: seq<int>, base: int, b: int, n: nat)
    requires Flattened(d, l, offs, base) && n >= 1
    requires d != [] ==> d[|d| - 1] + l[|d| - 1] != base + b
    ensures Flattened(d + [base + b], l + [n], offs + Run(b, n), base)
  {
    ExpandPush(d, l, base + b, n);
    ShiftAppend(offs, Run(b, n), base);
    assert Shift(Run(b, n), base) == Run(base + b, n);
  }

  lemma FlattenedGrow(d: seq<int>, l: seq<nat>, offs: seq<int>, base: int, b: int, n: nat)
    requires Flattened(d, l, offs, base) && n >= 1 && d != []
    requires d[|d| - 1] + l[|d| - 1] == base + b
    ensures Flattened(d, l[|d| - 1 := l[|d| - 1] + n], offs + Run(b, n), base)
  {
    ExpandGrow(d, l, n);
    ShiftAppend(offs, Run(b, n), base);
    assert Shift(Run(b, n), base) == Run(base + b, n);
  }

  /** The first n - left of n elements, and `left` elements from block i on. */
  lemma TakenCut(leaf: Loop, b: int, i: nat, n: nat, left: nat)
    requires i < leaf.shape.Count() && leaf.elSize >= 1 && leaf.shape.BlockSize(i) >= 1
    requires 1 <= left <= n <= BlocksLeft(leaf.shape, 0) && left <= BlocksLeft(leaf.shape, i)
    ensures var t, u, k := Taken(leaf, b, i, left), Taken(leaf, b, 0, n), Product(n - left, leaf.elSize);
      && t != [] && t[0] == b + leaf.shape.Offset(i) && k + |t| == |u| && Taken(leaf, b, 0, n - left) == u[..k]
  {
    TakenLen(leaf, b, i, left);
    TakenLen(leaf, b, 0, n);
    TakenLen(leaf, b, 0, n - left);
    TakenPrefix(leaf, b, 0, n - left, n);
    FirstTaken(leaf, b, i, left);
    hide Taken, BlocksLeft;
    Times(n - left, left, leaf.elSize);
  }

  /** Two ways of splitting the same bytes. */
  lemma CutParts(before: seq<int>, u: seq<int>, emitted: seq<int>, t: seq<int>, k: nat)
    requires emitted + t == before + u && t != [] && k + |t| == |u|
    ensures emitted == before + u[..k] && u[k] == t[0]
  {
    assert |emitted| == |before| + k;
    assert (emitted + t)[|emitted|] == t[0] && (before + u)[|before| + k] == u[k];
    assert emitted == (emitted + t)[..|emitted|] && (before + u)[..|before| + k] == before + u[..k];
  }

  /** mpi_flatten_params: entries go to disps[start..start + length]. */
  class FlattenParams {
    const disps: array<int>
    const blklens: array<nat>
    const start: nat
    const length: nat
    const bufp: int
    var index: nat
    ghost var emitted: seq<int>  // offsets relative to bufp

    ghost predicate Valid()
      reads this, disps, blklens
    {
      && length >= 1 && index <= length
      && start + length <= disps.Length && start + length <= blklens.Length
      && Flattened(D(), B(), emitted, bufp)
    }

    ghost function D(): seq<int>
      requires start + index <= disps.Length
      reads this, disps
    {
      disps[start..start + index]
    }

    ghost function B(): seq<nat>
      requires start + index <= blklens.Length
      reads this, blklens
    {
      blklens[start..start + index]
    }

    /** Every entry is used and a region at offset b would need another one. */
    ghost predicate Full(b: int)
      requires Valid()
      reads this, disps, blklens
    {
      index == length && disps[start + index - 1] + blklens[start + index - 1] != bufp + b
    }

    constructor (disps: array<int>, blklens: array<nat>, start: nat, length: nat, bufp: int)
      requires length >= 1
      requires start + length <= disps.Length && start + length <= blklens.Length
      ensures Valid() && emitted == [] && index == 0
      ensures this.disps == disps && this.blklens == blklens && this.start == start
      ensures this.length == length && this.bufp == bufp
    {
      this.disps, this.blklens, this.start, this.length := disps, blklens, start, length;
      this.bufp, index, emitted := bufp, 0, [];
    }

    method ExtendLast(relOff: int, size: nat)
      requires Valid() && size >= 1 && index >= 1
      requires disps[start + index - 1] + blklens[start + index - 1] == bufp + relOff
      modifies this`emitted, blklens
      ensures Valid() && emitted == old(emitted) + Run(relOff, size)
      ensures blklens[..start] == old(blklens[..start])
    {
      ghost var d, b := D(), B();
      FlattenedGrow(d, b, emitted, bufp, relOff, size);
      blklens[start + index - 1] := blklens[start + index - 1] + size;
      assert D() == d;
      assert B() == b[index - 1 := b[index - 1] + size];
      emitted := emitted + Run(relOff, size);
    }

    method NewEntry(relOff: int, size: nat)
      requires Valid() && size >= 1 && index < length
      requires index >= 1 ==> disps[start + index - 1] + blklens[start + index - 1] != bufp + relOff
      modifies this`index, this`emitted, disps, blklens
      ensures Valid() && emitted == old(emitted) + Run(relOff, size)
      ensures disps[..start] == old(disps[..start]) && blklens[..start] == old(blklens[..start])
    {
      ghost var d, b := D(), B();
      FlattenedPush(d, b, emitted, bufp, relOff, size);
      disps[start + index] := bufp + relOff;
      blklens[start + index] := size;
      index := index + 1;
      assert D() == d + [bufp + relOff];
      assert B() == b + [size];
      emitted := emitted + Run(relOff, size);
    }

    /** One region: merged into the last entry, given an entry of its own, or refused. */
    method AddRegion(relOff: int, size: nat) returns (ok: bool)
      requires Valid() && size >= 1
      modifies this`index, this`emitted, disps, blklens
      ensures Valid()
      ensures emitted == old(emitted) + if ok then Run(relOff, size) else []
      ensures !ok ==> Full(relOff)
      ensures disps[..start] == old(disps[..start]) && blklens[..start] == old(blklens[..start])
    {
      var last := index - 1;
      var lastEnd := if last >= 0 then disps[start + last] + blklens[start + last] else 0;
      if last == length - 1 && lastEnd != bufp + relOff {
        return false;
      } else if last >= 0 && lastEnd == bufp + relOff {
        ExtendLast(relOff, size);
      } else {
        NewEntry(relOff, size);
      }
      ok := true;
    }

    /** One block of a piece, whole or in part. */
    method AddBlock(off: int, n: nat, elSize: nat, ghost leaf: Loop, ghost b: int, ghost i: nat, ghost left: nat)
      returns (ok: bool)
      requires Valid() && i < leaf.shape.Count() && 1 <= n && elSize >= 1
      requires off == b + leaf.shape.Offset(i) && leaf.elSize == elSize
      requires n == if left < leaf.shape.BlockSize(i) then left else leaf.shape.BlockSize(i)
      modifies this`index, this`emitted, disps, blklens
      ensures Valid()
      ensures ok ==> emitted + Taken(leaf, b, i + 1, left - n) == old(emitted) + Taken(leaf, b, i, left)
      ensures !ok ==> emitted == old(emitted) && Full(off)
      ensures disps[..start] == old(disps[..start]) && blklens[..start] == old(blklens[..start])
    {
      ghost var tail := Taken(leaf, b, i + 1, left - n);
      TakenBlock(leaf, b, i, left, n, off);
      MulLe(1, n, elSize);
      ok := AddRegion(off, n * elSize);
      Assoc(old(emitted), Run(off, n * elSize), tail);
    }

    /** How a piece function that was asked for n elements of a leaf may return. */
    ghost predicate Took(before: seq<int>, leaf: Loop, b: int, n: nat, taken: nat, exit: bool)
      requires Valid()
      reads this, disps, blklens
    {
      && taken <= n
      && emitted == before + Taken(leaf, b, 0, taken)
      && (exit <==> taken < n)
      && (exit ==>
            && taken * leaf.elSize < |Taken(leaf, b, 0, n)|
            && Full(Taken(leaf, b, 0, n)[taken * leaf.elSize]))
    }

    /** Leaving a piece with `left` elements from block i on not taken. */
    lemma CutShort(before: seq<int>, leaf: Loop, b: int, i: nat, n: nat, left: nat)
      requires Valid() && i < leaf.shape.Count() && leaf.elSize >= 1
      requires 1 <= left <= n <= BlocksLeft(leaf.shape, 0) && left <= BlocksLeft(leaf.shape, i)
      requires leaf.shape.BlockSize(i) >= 1
      requires emitted + Taken(leaf, b, i, left) == before + Taken(leaf, b, 0, n)
      requires Full(b + leaf.shape.Offset(i))
      ensures Took(before, leaf, b, n, n - left, true)
    {
      var t, u, k := Taken(leaf, b, i, left), Taken(leaf, b, 0, n), Product(n - left, leaf.elSize);
      TakenCut(leaf, b, i, n, left);
      hide Taken, Flattened, BlocksLeft, Runs;
      CutParts(before, u, emitted, t, k);
    }

    lemma TookAll(before: seq<int>, leaf: Loop, b: int, i: nat, n: nat)
      requires Valid() && emitted + Taken(leaf, b, i, 0) == before + Taken(leaf, b, 0, n)
      ensures Took(before, leaf, b, n, n, false)
    {
      TakenZero(leaf, b, i);
    }

    method Contig(n: nat, elSize: nat, relOff: int) returns (taken: nat, exit: bool)
      requires Valid() && n >= 1 && elSize >= 1
      modifies this`index, this`emitted, disps, blklens
      ensures Valid()
      ensures emitted == old(emitted) + Run(relOff, taken * elSize)
      ensures taken == if exit then 0 else n
      ensures exit ==> Full(relOff)
      ensures disps[..start] == old(disps[..start]) && blklens[..start] == old(blklens[..start])
    {
      MulLe(1, n, elSize);
      var ok := AddRegion(relOff, n * elSize);
      taken, exit := if ok then n else 0, !ok;
    }

    /** Between two blocks of a piece of n elements: `left` of them, from block i on, are still to be taken. */
    ghost predicate Going(before: seq<int>, leaf: Loop, b: int, n: nat, i: nat, left: nat)
      reads this, disps, blklens
    {
      && Valid() && left <= n <= BlocksLeft(leaf.shape, 0) && left <= BlocksLeft(leaf.shape, i)
      && emitted + Taken(leaf, b, i, left) == before + Taken(leaf, b, 0, n)
    }

    /** The next block of a piece: it is taken, or the piece ends before it. */
    method Step(off: int, len: nat, elSize: nat, ghost leaf: Loop, ghost b: int, ghost n: nat, ghost i: nat,
                ghost left: nat, ghost before: seq<int>)
      returns (ok: bool)
      requires Going(before, leaf, b, n, i, left) && left >= 1
      requires i < leaf.shape.Count() && leaf.shape.Positive() && elSize >= 1
      requires off == b + leaf.shape.Offset(i) && leaf.elSize == elSize
      requires len == if left < leaf.shape.BlockSize(i) then left else leaf.shape.BlockSize(i)
      modifies this`index, this`emitted, disps, blklens
      ensures len >= 1 && Valid()
      ensures ok ==> Going(before, leaf, b, n, i + 1, left - len)
      ensures !ok ==> left <= n && Took(before, leaf, b, n, n - left, true)
      ensures disps[..start] == old(disps[..start]) && blklens[..start] == old(blklens[..start])
    {
      assert leaf.shape.BlockSize(i) >= 1;
      hide Taken, Flattened;
      ok := AddBlock(off, len, elSize, leaf, b, i, left);
      if !ok {
        CutShort(before, leaf, b, i, n, left);
      }
    }

    lemma AllTaken(before: seq<int>, leaf: Loop, b: int, n: nat, i: nat, left: nat)
      requires Going(before, leaf, b, n, i, left) && (i >= leaf.shape.Count() || left == 0)
      ensures Valid() && Took(before, leaf, b, n, n, false)
    {
      hide Taken, Flattened;
      TookAll(before, leaf, b, i, n);
    }

    method Vector(n: nat, count: nat, blksz: nat, stride: int, elSize: nat, relOff: int, ghost leaf: Loop)
      returns (taken: nat, exit: bool)
      requires leaf.shape == Shape.Vector(count, blksz, stride) && leaf.elSize == elSize
      requires leaf.shape.Positive() && elSize >= 1
      requires Valid() && n <= BlocksLeft(leaf.shape, 0)
      modifies this`index, this`emitted, disps, blklens
      ensures Valid() && Took(old(emitted), leaf, relOff, n, taken, exit)
      ensures disps[..start] == old(disps[..start]) && blklens[..start] == old(blklens[..start])
    {
      var blocksLeft: nat := n;
      var i, off := 0, relOff;
      OffsetZero(leaf.shape);
      assert Going(emitted, leaf, relOff, n, 0, n);
      hide FlattenParams.Going, FlattenParams.Took, FlattenParams.Valid;
      while i < count && blocksLeft > 0
        invariant i <= count && off == relOff + leaf.shape.Offset(i)
        invariant Going(old(emitted), leaf, relOff, n, i, blocksLeft)
        invariant disps[..start] == old(disps[..start]) && blklens[..start] == old(blklens[..start])
      {
        OffsetNext(leaf.shape, i);
        var len := if blocksLeft > blksz then blksz else blocksLeft;
        var ok := Step(off, len, elSize, leaf, relOff, n, i, blocksLeft, old(emitted));
        if !ok {
          return n - blocksLeft, true;
        }
        blocksLeft := blocksLeft - len;
        off := off + stride;
        i := i + 1;
      }
      AllTaken(old(emitted), leaf, relOff, n, i, blocksLeft);
      return n, false;
    }

    method BlkIdx(n: nat, count: nat, blksz: nat, offsetarray: seq<int>, elSize: nat, relOff: int, ghost leaf: Loop)
      returns (taken: nat, exit: bool)
      requires leaf.shape == BlockIndexed(blksz, offsetarray) && leaf.elSize == elSize
      requires count == |offsetarray| && leaf.shape.Positive() && elSize >= 1
      requires Valid() && n <= BlocksLeft(leaf.shape, 0)
      modifies this`index, this`emitted, disps, blklens
      ensures Valid() && Took(old(emitted), leaf, relOff, n, taken, exit)
      ensures disps[..start] == old(disps[..start]) && blklens[..start] == old(blklens[..start])
    {
      var blocksLeft: nat := n;
      var i := 0;
      assert Going(emitted, leaf, relOff, n, 0, n);
      hide FlattenParams.Going, FlattenParams.Took, FlattenParams.Valid;
      while i < count && blocksLeft > 0
        invariant i <= count && Going(old(emitted), leaf, relOff, n, i, blocksLeft)
        invariant disps[..start] == old(disps[..start]) && blklens[..start] == old(blklens[..start])
      {
        var len := if blocksLeft > blksz then blksz else blocksLeft;
        var ok := Step(relOff + offsetarray[i], len, elSize, leaf, relOff, n, i, blocksLeft, old(emitted));
        if !ok {
          return n - blocksLeft, true;
        }
        blocksLeft := blocksLeft - len;
        i := i + 1;
      }
      AllTaken(old(emitted), leaf, relOff, n, i, blocksLeft);
      return n, false;
    }

    method Index(n: nat, count: nat, blockarray: seq<nat>, offsetarray: seq<int>, elSize: nat, relOff: int,
                 ghost leaf: Loop)
      returns (taken: nat, exit: bool)
      requires leaf.shape.Indexed? && leaf.shape.blocksizes == blockarray && leaf.shape.offsets == offsetarray
      requires leaf.elSize == elSize && count == |blockarray| && leaf.shape.Positive() && elSize >= 1
      requires Valid() && n <= BlocksLeft(leaf.shape, 0)
      modifies this`index, this`emitted, disps, blklens
      ensures Valid() && Took(old(emitted), leaf, relOff, n, taken, exit)
      ensures disps[..start] == old(disps[..start]) && blklens[..start] == old(blklens[..start])
    {
      var blocksLeft: nat := n;
      var i := 0;
      assert Going(emitted, leaf, relOff, n, 0, n);
      hide FlattenParams.Going, FlattenParams.Took, FlattenParams.Valid;
      while i < count && blocksLeft > 0
        invariant i <= count && Going(old(emitted), leaf, relOff, n, i, blocksLeft)
        invariant disps[..start] == old(disps[..start]) && blklens[..start] == old(blklens[..start])
      {
        var len := if blocksLeft > blockarray[i] then blockarray[i] else blocksLeft;
        var ok := Step(relOff + offsetarray[i], len, elSize, leaf, relOff, n, i, blocksLeft, old(emitted));
        if !ok {
          return n - blocksLeft, true;
        }
        blocksLeft := blocksLeft - len;
        i := i + 1;
      }
      AllTaken(old(emitted), leaf, relOff, n, i, blocksLeft);
      return n, false;
    }
  }

  /* ---------- counting ---------- */

  /** How many of blocks i + 1, ... do not abut the block before them. */
  ghost function Gaps(l: Loop, i: nat): nat
    decreases l.shape.Count() - i
  {
    if i + 1 >= l.shape.Count() then 0
    else Gap(l, i + 1) + Gaps(l, i + 1)
  }

  ghost function Gap(l: Loop, k: nat): nat
    requires k >= 1
  {
    if l.shape.Offset(k - 1) + l.shape.BlockSize(k - 1) * l.elSize == l.shape.Offset(k) then 0 else 1
  }

  /** The runs that blocks i, i + 1, ... of a leaf add. */
  lemma {:induction false} LeafRuns(s: seq<int>, l: Loop, b: int, i: nat)
    requires l.Leaf? && l.WellFormed() && i < l.shape.Count()
    ensures Runs(s + BlocksFrom(l, b, i))
         == Runs(s) + (if Abuts(s, b + l.shape.Offset(i)) then 0 else 1) + Gaps(l, i)
    ensures var k := l.shape.Count() - 1;
            Abuts(s + BlocksFrom(l, b, i), b + l.shape.Offset(k) + l.shape.BlockSize(k) * l.elSize)
    decreases l.shape.Count() - i
  {
    var o, n := b + l.shape.Offset(i), l.shape.BlockSize(i) * l.elSize;
    assert l.shape.BlockSize(i) >= 1;
    MulLe(1, l.shape.BlockSize(i), l.elSize);
    LeafElems(l, o, l.shape.BlockSize(i));
    RunsAppend(s, o, n);
    var s' := s + Run(o, n);
    assert BlocksFrom(l, b, i) == Run(o, n) + BlocksFrom(l, b, i + 1);
    Assoc(s, Run(o, n), BlocksFrom(l, b, i + 1));
    hide Run, Runs, BlocksFrom;
    if i + 1 < l.shape.Count() {
      LeafRuns(s', l, b, i + 1);
      assert Abuts(s', b + l.shape.Offset(i + 1)) <==> Gap(l, i + 1) == 0;
    } else {
      NoBlocksAfter(l, b, i + 1);
      assert s' + [] == s';
    }
  }

  lemma NoBlocksAfter(l: Loop, b: int, i: nat)
    requires i >= l.shape.Count()
    ensures BlocksFrom(l, b, i) == []
  {
  }

  lemma {:induction false} VectorGaps(l: Loop, i: nat)
    requires l.shape.Vector? && i < l.shape.Count()
    ensures Gaps(l, i)
         == if l.elSize * l.shape.vblocksize == l.shape.stride then 0 else l.shape.Count() - 1 - i
    decreases l.shape.Count() - i
  {
    if i + 1 < l.shape.Count() {
      OffsetNext(l.shape, i);
      VectorGaps(l, i + 1);
    }
  }

  /** No two neighbouring blocks of an indexed leaf abut (the array copy merges those that do). */
  ghost predicate Separated(l: Loop) {
    l.shape.Indexed? ==> forall k: nat | 1 <= k < l.shape.Count() :: Gap(l, k) == 1
  }

  lemma {:induction false} SeparatedGaps(l: Loop, i: nat)
    requires l.shape.Indexed? && Separated(l) && i < l.shape.Count()
    ensures Gaps(l, i) == l.shape.Count() - 1 - i
    decreases l.shape.Count() - i
  {
    if i + 1 < l.shape.Count() {
      SeparatedGaps(l, i + 1);
    }
  }

  /** contig_blocks_params */
  class CountParams {
    var count: nat
    var lastLoc: int
    ghost var emitted: seq<int>

    ghost predicate Valid()
      reads this
    {
      && count == Runs(emitted)
      && (count > 0 <==> emitted != [])
      && (emitted != [] ==> lastLoc == emitted[|emitted| - 1] + 1)
    }

    constructor ()
      ensures Valid() && emitted == []
    {
      count, lastLoc, emitted := 0, 0, [];
    }

    method Contig(n: nat, elSize: nat, relOff: int)
      requires Valid() && n >= 1 && elSize >= 1
      modifies this
      ensures Valid() && emitted == old(emitted) + Run(relOff, n * elSize)
    {
      var size := n * elSize;
      MulLe(1, n, elSize);
      RunsAppend(emitted, relOff, size);
      if count > 0 && relOff == lastLoc {
        lastLoc := lastLoc + size;
      } else {
        lastLoc := relOff + size;
        count := count + 1;
      }
      emitted := emitted + Run(relOff, size);
    }

    /** The block counting functions ignore how many elements they are asked for and count the whole leaf. */
    method Vector(ghost n: nat, numBlocks: nat, blksz: nat, stride: int, elSize: nat, relOff: int, ghost leaf: Loop)
      requires leaf.Leaf? && leaf.shape == Shape.Vector(numBlocks, blksz, stride) && leaf.elSize == elSize
      requires leaf.WellFormed() && n == BlocksLeft(leaf.shape, 0)
      requires Valid()
      modifies this
      ensures Valid() && emitted == old(emitted) + Taken(leaf, relOff, 0, n)
    {
      TakenAll(leaf, relOff, 0);
      LeafRuns(emitted, leaf, relOff, 0);
      VectorGaps(leaf, 0);
      OffsetZero(leaf.shape);
      var size := elSize * blksz;
      var newBlkCount := numBlocks;
      if size == stride {
        newBlkCount := 1;
      }
      if count > 0 && relOff == lastLoc {
        newBlkCount := newBlkCount - 1;
      }
      lastLoc := relOff + (numBlocks - 1) * stride + size;
      count := count + newBlkCount;
      emitted := emitted + Taken(leaf, relOff, 0, n);
    }

    method BlkIdx(ghost n: nat, numBlocks: nat, blksz: nat, offsetarray: seq<int>, elSize: nat, relOff: int,
                  ghost leaf: Loop)
      requires leaf.Leaf? && leaf.shape == BlockIndexed(blksz, offsetarray) && leaf.elSize == elSize
      requires leaf.WellFormed() && n == BlocksLeft(leaf.shape, 0) && numBlocks == |offsetarray|
      requires Valid()
      modifies this
      ensures Valid() && emitted == old(emitted) + Taken(leaf, relOff, 0, n)
    {
      TakenAll(leaf, relOff, 0);
      LeafRuns(emitted, leaf, relOff, 0);
      var size := elSize * blksz;
      var newBlkCount: int := numBlocks;
      if count > 0 && relOff + offsetarray[0] == lastLoc {
        newBlkCount := newBlkCount - 1;
      }
      ghost var first := newBlkCount;
      var last := relOff + offsetarray[0] + size;
      var i := 1;
      while i < numBlocks
        invariant 1 <= i <= numBlocks
        invariant last == relOff + offsetarray[i - 1] + size
        invariant newBlkCount - (numBlocks - i) + Gaps(leaf, i - 1) == first - (numBlocks - 1) + Gaps(leaf, 0)
      {
        if last == relOff + offsetarray[i] {
          newBlkCount := newBlkCount - 1;
        }
        last := relOff + offsetarray[i] + size;
        i := i + 1;
      }
      lastLoc := last;
      count := count + newBlkCount;
      emitted := emitted + Taken(leaf, relOff, 0, n);
    }

    method Index(ghost n: nat, numBlocks: nat, blockarray: seq<nat>, offsetarray: seq<int>, elSize: nat, relOff: int,
                 ghost leaf: Loop)
      requires leaf.Leaf? && leaf.shape.Indexed? && leaf.elSize == elSize
      requires leaf.shape.blocksizes == blockarray && leaf.shape.offsets == offsetarray
      requires leaf.WellFormed() && n == BlocksLeft(leaf.shape, 0) && numBlocks == |blockarray|
      requires Separated(leaf)
      requires Valid()
      modifies this
      ensures Valid() && emitted == old(emitted) + Taken(leaf, relOff, 0, n)
    {
      TakenAll(leaf, relOff, 0);
      LeafRuns(emitted, leaf, relOff, 0);
      SeparatedGaps(leaf, 0);
      var newBlkCount := numBlocks;
      if count > 0 && relOff + offsetarray[0] == lastLoc {
        newBlkCount := newBlkCount - 1;
      }
      lastLoc := relOff + offsetarray[numBlocks - 1] + blockarray[numBlocks - 1] * elSize;
      count := count + newBlkCount;
      emitted := emitted + Taken(leaf, relOff, 0, n);
    }
  }
}
