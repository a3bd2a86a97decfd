/** Dataloop_create_indexed: dropping empty blocks, merging blocks that abut, and turning what remains into
    the simplest loop. */
module CreateIndexes {
  import opened Dataloops
  import opened LeafBlocks
  import opened FlattenCount
  import opened Types
  import opened CreateVectors
  import opened CreateBlocks
  import opened BlockDisps

  /* ---------- merging ---------- */

  /** A block of `len` elements at displacement `disp`. */
  datatype Block = Block(len: nat, disp: int)

  /** The blocks of (l, d) followed by the given ones, without empty blocks and with a block that begins
      where the current one ends added to it; `unit` is the extent in units of displacements. */
  function Merge(l: nat, d: int, lens: seq<nat>, disps: seq<int>, unit: int): (r: seq<Block>)
    requires |lens| == |disps|
    ensures r != [] && r[0].disp == d && r[0].len >= l
    decreases |lens|
  {
    if lens == [] then [Block(l, d)]
    else if lens[0] == 0 then Merge(l, d, lens[1..], disps[1..], unit)
    else if d + l * unit == disps[0] then Merge(l + lens[0], d, lens[1..], disps[1..], unit)
    else [Block(l, d)] + Merge(lens[0], disps[0], lens[1..], disps[1..], unit)
  }

  ghost function BlocksOf(h: Handle, b: int, blocks: seq<Block>): seq<int> {
    if blocks == [] then []
    else Copies(h, b + blocks[0].disp, blocks[0].len) + BlocksOf(h, b, blocks[1..])
  }

  lemma BlocksOfCons(h: Handle, b: int, blk: Block, rest: seq<Block>)
    ensures BlocksOf(h, b, [blk] + rest) == Copies(h, b + blk.disp, blk.len) + BlocksOf(h, b, rest)
  {
    assert ([blk] + rest)[1..] == rest;
  }

  lemma BlockCopiesCons(h: Handle, b: int, lens: seq<nat>, disps: seq<int>)
    requires |lens| == |disps| && lens != []
    ensures BlockCopies(h, b, lens, disps)
         == Copies(h, b + disps[0], lens[0]) + BlockCopies(h, b, lens[1..], disps[1..])
    ensures lens[0] == 0 ==> Copies(h, b + disps[0], lens[0]) == []
  {
  }

  /** Merging keeps the bytes. */
  lemma {:induction false} MergeBytes(h: Handle, b: int, l: nat, d: int, lens: seq<nat>, disps: seq<int>)
    requires |lens| == |disps|
    ensures BlocksOf(h, b, Merge(l, d, lens, disps, h.Extent()))
         == Copies(h, b + d, l) + BlockCopies(h, b, lens, disps)
    decreases |lens|
  {
    hide Copies, BlocksOf;
    if lens == [] {
      BlocksOfCons(h, b, Block(l, d), []);
      NoBlocksOf(h, b);
      assert [Block(l, d)] + [] == [Block(l, d)] && disps == [];
      assert Copies(h, b + d, l) + [] == Copies(h, b + d, l);
    } else {
      hide BlockCopies;
      BlockCopiesCons(h, b, lens, disps);
      var u, ls, ds := h.Extent(), lens[1..], disps[1..];
      if lens[0] == 0 {
        MergeBytes(h, b, l, d, ls, ds);
        assert [] + BlockCopies(h, b, ls, ds) == BlockCopies(h, b, ls, ds);
      } else if d + l * u == disps[0] {
        MergeBytes(h, b, l + lens[0], d, ls, ds);
        CopiesAppend(h, b + d, l, lens[0]);
        Assoc(Copies(h, b + d, l), Copies(h, b + disps[0], lens[0]), BlockCopies(h, b, ls, ds));
      } else {
        MergeBytes(h, b, lens[0], disps[0], ls, ds);
        BlocksOfCons(h, b, Block(l, d), Merge(lens[0], disps[0], ls, ds, u));
      }
    }
  }

  lemma NoBlocksOf(h: Handle, b: int)
    ensures BlocksOf(h, b, []) == [] && BlockCopies(h, b, [], []) == []
  {
  }

  /** No block that is left begins where the one before it ends. */
  ghost predicate Apart(blocks: seq<Block>, unit: int) {
    forall k: nat | k + 1 < |blocks| :: blocks[k].disp + blocks[k].len * unit != blocks[k + 1].disp
  }

  lemma {:induction false} MergeApart(l: nat, d: int, lens: seq<nat>, disps: seq<int>, unit: int)
    requires |lens| == |disps| && l >= 1
    ensures Apart(Merge(l, d, lens, disps, unit), unit)
    ensures forall k: nat | k < |Merge(l, d, lens, disps, unit)| :: Merge(l, d, lens, disps, unit)[k].len >= 1
    decreases |lens|
  {
    if lens != [] {
      if lens[0] == 0 {
        MergeApart(l, d, lens[1..], disps[1..], unit);
      } else if d + l * unit == disps[0] {
        MergeApart(l + lens[0], d, lens[1..], disps[1..], unit);
      } else {
        MergeApart(lens[0], disps[0], lens[1..], disps[1..], unit);
        var rest := Merge(lens[0], disps[0], lens[1..], disps[1..], unit);
        var all := Merge(l, d, lens, disps, unit);
        assert all == [Block(l, d)] + rest;
        forall k: nat | k + 1 < |all|
          ensures all[k].disp + all[k].len * unit != all[k + 1].disp
        {
          if k > 0 {
            assert all[k] == rest[k - 1] && all[k + 1] == rest[k];
          }
        }
      }
    }
  }

  /* ---------- the two passes over the arrays ---------- */

  /** The index of the first block that is not empty. */
  ghost predicate FirstBlock(lens: seq<nat>, first: nat) {
    && first <= |lens|
    && (forall k: nat | k < first :: lens[k] == 0)
    && (first < |lens| ==> lens[first] != 0)
  }

  /** The blocks that remain: none if all are empty. */
  function Merged(lens: seq<nat>, disps: seq<int>, unit: int): seq<Block>
    requires |lens| == |disps|
    decreases |lens|
  {
    if lens == [] then []
    else if lens[0] == 0 then Merged(lens[1..], disps[1..], unit)
    else Merge(lens[0], disps[0], lens[1..], disps[1..], unit)
  }

  lemma {:induction false} MergedFrom(lens: seq<nat>, disps: seq<int>, unit: int, first: nat)
    requires |lens| == |disps| && FirstBlock(lens, first)
    ensures Merged(lens, disps, unit)
         == if first == |lens| then []
            else Merge(lens[first], disps[first], lens[first + 1..], disps[first + 1..], unit)
    decreases first
  {
    if first > 0 {
      var l, d := lens[1..], disps[1..];
      assert forall k: nat | k < first - 1 :: l[k] == lens[k + 1];
      assert lens[0] == 0;
      MergedFrom(l, d, unit, first - 1);
      if first < |lens| {
        assert l[first - 1] == lens[first] && d[first - 1] == disps[first];
        assert l[first..] == lens[first + 1..] && d[first..] == disps[first + 1..];
      }
    }
  }

  method SkipEmpty(lens: seq<nat>) returns (first: nat)
    ensures FirstBlock(lens, first)
  {
    first := 0;
    while first < |lens|
      invariant first <= |lens| && forall k: nat | k < first :: lens[k] == 0
    {
      if lens[first] != 0 {
        return;
      }
      first := first + 1;
    }
  }

  /** Type_indexed_count_contig: for displacements in bytes `unit` is the old extent, else 1. */
  method IndexedCountContig(lens: seq<nat>, disps: seq<int>, unit: int) returns (contigCount: nat)
    requires |lens| == |disps| && lens != []
    ensures contigCount == |Merged(lens, disps, unit)|
  {
    var first := SkipEmpty(lens);
    MergedFrom(lens, disps, unit, first);
    if first == |lens| {
      return 0;
    }
    contigCount := 1;
    var curLen: nat, cur := lens[first], disps[first];
    for i := first + 1 to |lens|
      invariant contigCount + |Merge(curLen, cur, lens[i..], disps[i..], unit)| == |Merged(lens, disps, unit)| + 1
    {
      assert lens[i..][1..] == lens[i + 1..] && disps[i..][1..] == disps[i + 1..];
      if lens[i] == 0 {
        continue;
      } else if cur + curLen * unit == disps[i] {
        curLen := curLen + lens[i];
      } else {
        cur, curLen := disps[i], lens[i];
        contigCount := contigCount + 1;
      }
    }
  }

  ghost predicate Holds(outLens: seq<nat>, outDisps: seq<int>, blocks: seq<Block>) {
    && |outLens| == |outDisps| == |blocks|
    && forall k: nat | k < |blocks| :: outLens[k] == blocks[k].len && outDisps[k] == blocks[k].disp
  }

  /** How the blocks that are left change with one more entry of the arrays. */
  lemma MergeNext(l: nat, d: int, lens: seq<nat>, disps: seq<int>, unit: int, i: nat, all: seq<Block>, cur: nat)
    requires i < |lens| == |disps| && cur < |all|
    requires Merge(l, d, lens[i..], disps[i..], unit) == all[cur..]
    ensures lens[i] == 0 ==> Merge(l, d, lens[i + 1..], disps[i + 1..], unit) == all[cur..]
    ensures lens[i] != 0 && d + l * unit == disps[i] ==>
      Merge(l + lens[i], d, lens[i + 1..], disps[i + 1..], unit) == all[cur..]
    ensures lens[i] != 0 && d + l * unit != disps[i] ==>
      && cur + 1 < |all| && all[cur] == Block(l, d)
      && Merge(lens[i], disps[i], lens[i + 1..], disps[i + 1..], unit) == all[cur + 1..]
  {
    assert lens[i..][1..] == lens[i + 1..] && disps[i..][1..] == disps[i + 1..];
    if lens[i] != 0 && d + l * unit != disps[i] {
      var rest := Merge(lens[i], disps[i], lens[i + 1..], disps[i + 1..], unit);
      assert all[cur..] == [Block(l, d)] + rest;
      assert all[cur..][0] == all[cur] && all[cur..][1..] == all[cur + 1..];
    }
  }

  lemma MergeEnd(l: nat, d: int, lens: seq<nat>, disps: seq<int>, unit: int, all: seq<Block>, cur: nat)
    requires |lens| == |disps| && cur < |all|
    requires Merge(l, d, lens[|lens|..], disps[|lens|..], unit) == all[cur..]
    ensures cur + 1 == |all| && all[cur] == Block(l, d)
  {
    assert all[cur..][0] == all[cur];
  }

  lemma HoldsNone()
    ensures Holds([], [], [])
  {
  }

  lemma HoldsMore(outLens: seq<nat>, outDisps: seq<int>, blocks: seq<Block>, cur: nat)
    requires cur < |outLens| == |outDisps| == |blocks| && Holds(outLens[..cur], outDisps[..cur], blocks[..cur])
    requires blocks[cur] == Block(outLens[cur], outDisps[cur])
    ensures Holds(outLens[..cur + 1], outDisps[..cur + 1], blocks[..cur + 1])
  {
    var l, d, b := outLens[..cur + 1], outDisps[..cur + 1], blocks[..cur + 1];
    forall k: nat | k < |b| ensures l[k] == b[k].len && d[k] == b[k].disp {
      if k < cur {
        assert outLens[..cur][k] == blocks[..cur][k].len && outDisps[..cur][k] == blocks[..cur][k].disp;
      }
    }
  }

  /** DLOOP_Type_indexed_array_copy on displacements in bytes: it fills exactly the entries that were
      counted. */
  method IndexedArrayCopy(lens: seq<nat>, disps: seq<int>, oldExtent: int, contigCount: nat)
    returns (outLens: array<nat>, outDisps: array<int>)
    requires |lens| == |disps|
    requires contigCount == |Merged(lens, disps, oldExtent)| >= 1
    ensures fresh(outLens) && fresh(outDisps)
    ensures Holds(outLens[..], outDisps[..], Merged(lens, disps, oldExtent))
  {
    hide Merge, Merged, Holds;
    var first := SkipEmpty(lens);
    MergedFrom(lens, disps, oldExtent, first);
    ghost var all := Merged(lens, disps, oldExtent);
    outLens, outDisps := new nat[contigCount], new int[contigCount];
    var curIdx := 0;
    outLens[0], outDisps[0] := lens[first], disps[first];
    HoldsNone();
    assert all[0..] == all && all[..0] == [] && outLens[..0] == [] && outDisps[..0] == [];
    for i := first + 1 to |lens|
      invariant curIdx < contigCount
      invariant Merge(outLens[curIdx], outDisps[curIdx], lens[i..], disps[i..], oldExtent) == all[curIdx..]
      invariant Holds(outLens[..curIdx], outDisps[..curIdx], all[..curIdx])
    {
      MergeNext(outLens[curIdx], outDisps[curIdx], lens, disps, oldExtent, i, all, curIdx);
      if lens[i] == 0 {
        continue;
      } else if outDisps[curIdx] + outLens[curIdx] * oldExtent == disps[i] {
        outLens[curIdx] := outLens[curIdx] + lens[i];
      } else {
        HoldsMore(outLens[..], outDisps[..], all, curIdx);
        curIdx := curIdx + 1;
        outDisps[curIdx] := disps[i];
        outLens[curIdx] := lens[i];
      }
    }
    MergeEnd(outLens[curIdx], outDisps[curIdx], lens, disps, oldExtent, all, curIdx);
    HoldsMore(outLens[..], outDisps[..], all, curIdx);
    assert outLens[..curIdx + 1] == outLens[..] && outDisps[..curIdx + 1] == outDisps[..] && all[..curIdx + 1] == all;
  }

  /* ---------- choosing the loop ---------- */

  predicate AllEqual(lens: seq<nat>, first: nat)
    requires first < |lens|
  {
    forall k: nat | first <= k < |lens| :: lens[k] == lens[first]
  }

  method HaveOneLength(lens: seq<nat>, first: nat) returns (yes: bool)
    requires first < |lens|
    ensures yes <==> AllEqual(lens, first)
  {
    for i := first + 1 to |lens|
      invariant forall k: nat | first <= k < i :: lens[k] == lens[first]
    {
      if lens[i] != lens[first] {
        return false;
      }
    }
    yes := true;
  }

  /** Empty blocks at the front select nothing. */
  lemma {:induction false} SkippedBytes(h: Handle, b: int, lens: seq<nat>, disps: seq<int>, first: nat)
    requires |lens| == |disps| && FirstBlock(lens, first)
    ensures BlockCopies(h, b, lens, disps) == BlockCopies(h, b, lens[first..], disps[first..])
    ensures Sum(lens) == Sum(lens[first..])
    decreases first
  {
    if first > 0 {
      var l, d := lens[1..], disps[1..];
      assert forall k: nat | k < first - 1 :: l[k] == lens[k + 1];
      assert lens[0] == 0;
      SkippedBytes(h, b, l, d, first - 1);
      assert l[first - 1..] == lens[first..] && d[first - 1..] == disps[first..];
    } else {
      assert lens[0..] == lens && disps[0..] == disps;
    }
  }

  lemma {:induction false} AllEmpty(h: Handle, b: int, lens: seq<nat>, disps: seq<int>)
    requires |lens| == |disps| && forall k: nat | k < |lens| :: lens[k] == 0
    ensures BlockCopies(h, b, lens, disps) == []
    decreases |lens|
  {
    if lens != [] {
      AllEmpty(h, b, lens[1..], disps[1..]);
    }
  }

  lemma {:induction false} MergeTotal(l: nat, d: int, lens: seq<nat>, disps: seq<int>, unit: int)
    requires |lens| == |disps|
    ensures TotalLens(Merge(l, d, lens, disps, unit)) == l + Sum(lens)
    decreases |lens|
  {
    if lens == [] {
      assert [Block(l, d)][1..] == [];
    } else if lens[0] == 0 {
      MergeTotal(l, d, lens[1..], disps[1..], unit);
    } else if d + l * unit == disps[0] {
      MergeTotal(l + lens[0], d, lens[1..], disps[1..], unit);
    } else {
      var rest := Merge(lens[0], disps[0], lens[1..], disps[1..], unit);
      MergeTotal(lens[0], disps[0], lens[1..], disps[1..], unit);
      assert ([Block(l, d)] + rest)[1..] == rest;
    }
  }

  function TotalLens(blocks: seq<Block>): nat {
    if blocks == [] then 0 else blocks[0].len + TotalLens(blocks[1..])
  }

  /** Counting with displacements in elements finds the same number of blocks as with bytes, unless the
      extent is zero. */
  lemma {:induction false} MergeUnits(l: nat, d: int, lens: seq<nat>, disps: seq<int>, e: int)
    requires |lens| == |disps| && e != 0
    ensures |Merge(l, d, lens, disps, 1)| == |Merge(l, d * e, lens, Scaled(disps, e), e)|
    decreases |lens|
  {
    if lens != [] {
      assert Scaled(disps, e)[1..] == Scaled(disps[1..], e);
      SameAfterScaling(d + l, disps[0], e);
      assert (d + l) * e == d * e + l * e;
      if lens[0] == 0 {
        MergeUnits(l, d, lens[1..], disps[1..], e);
      } else if d + l == disps[0] {
        MergeUnits(l + lens[0], d, lens[1..], disps[1..], e);
      } else {
        MergeUnits(lens[0], disps[0], lens[1..], disps[1..], e);
      }
    }
  }

  lemma SameAfterScaling(x: int, y: int, e: int)
    requires e != 0
    ensures x * e == y * e <==> x == y
  {
    if x * e == y * e {
      assert (x - y) * e == 0;
    }
  }

  /** With a zero extent the two passes disagree: two blocks are counted, one would be written. */
  lemma ZeroExtentMiscounts()
    ensures |Merged([1, 1], [0, 5], 1)| == 2 && |Merged([1, 1], Scaled([0, 5], 0), 0)| == 1
  {
    assert [1, 1][1..] == [1] && [0, 5][1..] == [5] && [1][1..] == [] && [5][1..] == [];
    assert Scaled([0, 5], 0) == [0, 0] && [0, 0][1..] == [0];
    assert Merge(1, 0, [1], [5], 1) == [Block(1, 0)] + Merge(1, 5, [], [], 1);
    assert Merge(1, 0, [1], [0], 0) == Merge(2, 0, [], [], 0);
  }

  lemma MergedUnits(lens: seq<nat>, disps: seq<int>, e: int, first: nat)
    requires |lens| == |disps| && e != 0 && FirstBlock(lens, first)
    ensures |Merged(lens, disps, 1)| == |Merged(lens, Scaled(disps, e), e)|
  {
    MergedFrom(lens, disps, 1, first);
    MergedFrom(lens, Scaled(disps, e), e, first);
    if first < |lens| {
      MergeUnits(lens[first], disps[first], lens[first + 1..], disps[first + 1..], e);
      assert Scaled(disps, e)[first + 1..] == Scaled(disps[first + 1..], e);
    }
  }

  function LensOf(blocks: seq<Block>): seq<nat> {
    seq(|blocks|, k requires 0 <= k < |blocks| => blocks[k].len)
  }

  function DispsOf(blocks: seq<Block>): seq<int> {
    seq(|blocks|, k requires 0 <= k < |blocks| => blocks[k].disp)
  }

  /** The indexed loop over merged blocks. */
  function IndexedShape(blocks: seq<Block>): Shape {
    Indexed(LensOf(blocks), DispsOf(blocks), TotalLens(blocks))
  }

  lemma {:induction false} WrapIndexed(h: Handle, b: int, i: nat, blocks: seq<Block>)
    requires i <= |blocks|
    ensures BlocksFrom(Wrap(IndexedShape(blocks), h), b, i) == BlocksOf(h, b, blocks[i..])
    decreases |blocks| - i
  {
    if i < |blocks| {
      WrapElems(IndexedShape(blocks), h, b + blocks[i].disp, blocks[i].len);
      WrapIndexed(h, b, i + 1, blocks);
      assert blocks[i..][1..] == blocks[i + 1..];
    }
  }

  function InBytes(blocks: seq<Block>, size: nat): seq<Block> {
    seq(|blocks|, k requires 0 <= k < |blocks| => Block(blocks[k].len * size, blocks[k].disp))
  }

  lemma {:induction false} ByteIndexed(h: Handle, b: int, i: nat, blocks: seq<Block>)
    requires h.Basic? && i <= |blocks|
    ensures BlocksFrom(Leaf(IndexedShape(InBytes(blocks, h.bsize)), 1, 1), b, i) == BlocksOf(h, b, blocks[i..])
    decreases |blocks| - i
  {
    if i < |blocks| {
      ByteElems(IndexedShape(InBytes(blocks, h.bsize)), h, b + blocks[i].disp, blocks[i].len);
      ByteIndexed(h, b, i + 1, blocks);
      assert blocks[i..][1..] == blocks[i + 1..];
    }
  }

  lemma {:induction false} TotalInBytes(blocks: seq<Block>, size: nat)
    ensures TotalLens(InBytes(blocks, size)) == TotalLens(blocks) * size
    decreases |blocks|
  {
    if blocks != [] {
      TotalInBytes(blocks[1..], size);
      assert InBytes(blocks, size)[1..] == InBytes(blocks[1..], size);
      Times(blocks[0].len, TotalLens(blocks[1..]), size);
    }
  }

  /** The cached total of the loop is the sum of its block sizes. */
  lemma {:induction false} TotalIsSum(blocks: seq<Block>)
    ensures TotalLens(blocks) == Sum(LensOf(blocks))
    decreases |blocks|
  {
    if blocks != [] {
      TotalIsSum(blocks[1..]);
      assert LensOf(blocks)[1..] == LensOf(blocks[1..]);
    }
  }

  /** Merging leaves no two neighbours that abut: what counting contiguous blocks relies on. */
  lemma MergedSeparated(blocks: seq<Block>, size: nat)
    requires Apart(blocks, size)
    ensures Separated(Leaf(IndexedShape(blocks), size, size))
    ensures Separated(Leaf(IndexedShape(InBytes(blocks, size)), 1, 1))
  {
    forall k: nat | 1 <= k < |blocks|
      ensures Gap(Leaf(IndexedShape(blocks), size, size), k) == 1
      ensures Gap(Leaf(IndexedShape(InBytes(blocks, size)), 1, 1), k) == 1
    {
      assert blocks[k - 1].disp + blocks[k - 1].len * size != blocks[k - 1 + 1].disp;
    }
  }

  /* ---------- the constructor ---------- */

  lemma OneFirst(lens: seq<nat>, a: nat, b: nat)
    requires FirstBlock(lens, a) && FirstBlock(lens, b)
    ensures a == b
  {
  }

  function LeadingEmpty(lens: seq<nat>): (first: nat)
    ensures FirstBlock(lens, first)
  {
    if lens == [] || lens[0] != 0 then 0 else 1 + LeadingEmpty(lens[1..])
  }

  const WORD: int := 0x1_0000_0000

  /** The 64-bit displacement found at the j-th 32-bit word of the (little-endian) array. */
  function AtWord(disps: seq<int>, j: nat): int
    requires j / 2 < |disps| && (j % 2 == 1 ==> j / 2 + 1 < |disps|)
  {
    if j % 2 == 0 then disps[j / 2]
    else
      var low := disps[j / 2 + 1] % WORD;
      disps[j / 2] / WORD % WORD + WORD * (if low < WORD / 2 then low else low - WORD)
  }

  /** What a callee reads that is handed the address of the `first`-th displacement. The address is always
      computed for 32-bit displacements, also when they are 64-bit byte displacements. */
  function Handed(disps: seq<int>, inBytes: bool, first: nat, n: nat): (r: seq<int>)
    requires first + n <= |disps|
    ensures |r| == n
  {
    if inBytes then seq(n, i requires 0 <= i < n => AtWord(disps, first + 2 * i)) else disps[first..first + n]
  }

  lemma HandedRight(disps: seq<int>, inBytes: bool, first: nat, n: nat)
    requires first + n <= |disps| && (first == 0 || !inBytes)
    ensures Handed(disps, inBytes, first, n) == disps[first..first + n]
  {
    if inBytes {
      forall i: nat | i < n ensures Handed(disps, inBytes, first, n)[i] == disps[i] {
        assert (2 * i) / 2 == i && (2 * i) % 2 == 0;
      }
    }
  }

  function Unit(h: Handle, inBytes: bool): int {
    if inBytes then h.Extent() else 1
  }

  /** How many displacements a shortcut hands on, and for blocks of which length. */
  function HandedOn(h: Handle, lens: seq<nat>, disps: seq<int>, inBytes: bool): (nat, nat)
    requires |lens| == |disps| && Merged(lens, disps, Unit(h, inBytes)) != []
  {
    var first := LeadingEmpty(lens);
    if |Merged(lens, disps, Unit(h, inBytes))| == 1 then (if first < |lens| then 1 else 0, Sum(lens))
    else (|lens| - first, if first < |lens| then lens[first] else 0)
  }

  /** A shortcut that hands on the address of a displacement is taken. */
  predicate HandsOn(h: Handle, lens: seq<nat>, disps: seq<int>, inBytes: bool)
    requires |lens| == |disps|
  {
    var first := LeadingEmpty(lens);
    && first < |lens|
    && Merged(lens, disps, Unit(h, inBytes)) != []
    && (|Merged(lens, disps, Unit(h, inBytes))| == 1 ==> disps[first] != 0)
    && (|Merged(lens, disps, Unit(h, inBytes))| > 1 ==> AllEqual(lens, first))
  }

  ghost predicate Means(h: Handle, lens: seq<nat>, disps: seq<int>, inBytes: bool, dlp: Loop)
    requires |lens| == |disps|
  {
    Bytes(dlp, 0) == BlockCopies(h, 0, lens, ByteDisps(h, disps, inBytes))
  }

  /** Without the address error, the meaning is kept exactly when that of the simpler constructor is. */
  ghost predicate IndexedExact(h: Handle, lens: seq<nat>, disps: seq<int>, inBytes: bool)
    requires |lens| == |disps|
  {
    var first := LeadingEmpty(lens);
    var blocks := |Merged(lens, disps, Unit(h, inBytes))|;
    if first == |lens| then true
    else if blocks == 1 then disps[first] == 0 ==> ContigExact(h, Sum(lens))
    else AllEqual(lens, first) ==> BlockIndexedExact(h, lens[first], disps[first..], inBytes)
  }

  lemma ByteDispsDrop(h: Handle, disps: seq<int>, inBytes: bool, first: nat)
    requires first <= |disps|
    ensures ByteDisps(h, disps[first..], inBytes) == ByteDisps(h, disps, inBytes)[first..]
  {
  }

  lemma MergedMeans(h: Handle, lens: seq<nat>, d: seq<int>, first: nat)
    requires |lens| == |d| && FirstBlock(lens, first)
    ensures BlockCopies(h, 0, lens, d) == BlocksOf(h, 0, Merged(lens, d, h.Extent()))
    ensures Sum(lens) == TotalLens(Merged(lens, d, h.Extent()))
    ensures first < |lens| ==>
      && Merged(lens, d, h.Extent()) != []
      && Merged(lens, d, h.Extent())[0].disp == d[first]
  {
    SkippedBytes(h, 0, lens, d, first);
    MergedFrom(lens, d, h.Extent(), first);
    if first < |lens| {
      TailAt(lens, first);
      TailAt(d, first);
      hide Merge, Merged, BlocksOf, Copies, TotalLens, BlockCopies, Sum;
      FirstMeans(h, lens[first..], d[first..]);
      FirstTotals(lens[first..], d[first..], h.Extent());
    } else {
      assert lens[first..] == [] && d[first..] == [];
    }
  }

  lemma TailAt<T>(s: seq<T>, k: nat)
    requires k < |s|
    ensures s[k..] != [] && s[k..][0] == s[k] && s[k..][1..] == s[k + 1..]
  {
  }

  lemma FirstMeans(h: Handle, lens: seq<nat>, d: seq<int>)
    requires |lens| == |d| && lens != []
    ensures BlockCopies(h, 0, lens, d) == BlocksOf(h, 0, Merge(lens[0], d[0], lens[1..], d[1..], h.Extent()))
  {
    hide *;
    var l, o := lens[1..], d[1..];
    BlockCopiesCons(h, 0, lens, d);
    MergeBytes(h, 0, lens[0], d[0], l, o);
  }

  lemma FirstTotals(lens: seq<nat>, d: seq<int>, unit: int)
    requires |lens| == |d| && lens != []
    ensures Sum(lens) == TotalLens(Merge(lens[0], d[0], lens[1..], d[1..], unit))
  {
    FirstTotal(lens);
    hide *;
    var l, o := lens[1..], d[1..];
    MergeTotal(lens[0], d[0], l, o, unit);
  }

  lemma FirstTotal(lens: seq<nat>)
    requires lens != []
    ensures Sum(lens) == lens[0] + Sum(lens[1..])
  {
  }

  /** One merged block: one run of the whole type. */
  lemma OneBlock(h: Handle, lens: seq<nat>, d: seq<int>, first: nat)
    requires |lens| == |d| && FirstBlock(lens, first) && |Merged(lens, d, h.Extent())| == 1
    ensures first < |lens|
    ensures BlockCopies(h, 0, lens, d) == Copies(h, d[first], Sum(lens))
    ensures BlockCopies(h, 0, Same(1, Sum(lens)), [d[first]]) == Copies(h, d[first], Sum(lens))
  {
    MergedFrom(lens, d, h.Extent(), first);
    MergedMeans(h, lens, d, first);
    ghost var blocks := Merged(lens, d, h.Extent());
    assert blocks[1..] == [];
    SingleBlock(h, Sum(lens), [d[first]]);
  }

  /** Equal lengths after the empty blocks at the front. */
  lemma EqualBlocks(h: Handle, lens: seq<nat>, d: seq<int>, first: nat)
    requires |lens| == |d| && FirstBlock(lens, first) && first < |lens| && AllEqual(lens, first)
    ensures BlockCopies(h, 0, lens, d) == BlockCopies(h, 0, Same(|d| - first, lens[first]), d[first..])
  {
    SkippedBytes(h, 0, lens, d, first);
    assert lens[first..] == Same(|d| - first, lens[first]);
  }

  /** Blocks that are counted apart are not merged by the copy: with displacements in elements of a zero extent it
      merges them all. */
  predicate CountsAgree(h: Handle, lens: seq<nat>, disps: seq<int>, inBytes: bool)
    requires |lens| == |disps|
  {
    inBytes || h.Extent() != 0 || |Merged(lens, disps, 1)| <= 1
  }

  /** The number of blocks counted is the number that the copy writes, which the copy asserts, if and only if it is
      not the case that blocks are counted apart in elements of a zero extent. */
  lemma Counted(h: Handle, lens: seq<nat>, disps: seq<int>, inBytes: bool, first: nat)
    requires |lens| == |disps| && FirstBlock(lens, first)
    ensures |Merged(lens, disps, Unit(h, inBytes))| == |Merged(lens, ByteDisps(h, disps, inBytes), h.Extent())|
       <==> CountsAgree(h, lens, disps, inBytes)
    ensures |Merged(lens, disps, Unit(h, inBytes))| == 0 <==> first == |lens|
  {
    if !inBytes && h.Extent() != 0 {
      MergedUnits(lens, disps, h.Extent(), first);
    } else if !inBytes {
      MergedFrom(lens, Scaled(disps, 0), 0, first);
      if first < |lens| {
        ZeroExtentMerges(lens[first], lens[first + 1..], Scaled(disps, 0)[first + 1..]);
      }
    }
    MergedFrom(lens, disps, Unit(h, inBytes), first);
  }

  lemma {:induction false} ZeroExtentMerges(l: nat, lens: seq<nat>, disps: seq<int>)
    requires |lens| == |disps| && forall k: nat | k < |disps| :: disps[k] == 0
    ensures |Merge(l, 0, lens, disps, 0)| == 1
    decreases |lens|
  {
    if lens != [] {
      ZeroExtentMerges(if lens[0] == 0 then l else l + lens[0], lens[1..], disps[1..]);
    }
  }

  lemma OneHanded(h: Handle, lens: seq<nat>, disps: seq<int>, inBytes: bool, first: nat)
    requires |lens| == |disps| && FirstBlock(lens, first)
    requires |Merged(lens, disps, Unit(h, inBytes))| == 1
    ensures first < |lens| && Sum(lens) >= 1
    ensures BlockCopies(h, 0, lens, ByteDisps(h, disps, inBytes))
         == BlockCopies(h, 0, Same(1, Sum(lens)), ByteDisps(h, disps[first..][..1], inBytes))
  {
    var d := ByteDisps(h, disps, inBytes);
    Counted(h, lens, disps, inBytes, first);
    OneBlock(h, lens, d, first);
    assert ByteDisps(h, disps[first..][..1], inBytes) == [d[first]];
    TotalAtLeast(lens, first);
  }

  lemma {:induction false} TotalAtLeast(lens: seq<nat>, k: nat)
    requires k < |lens|
    ensures Sum(lens) >= lens[k]
  {
    if k > 0 {
      TotalAtLeast(lens[1..], k - 1);
    }
  }

  /** The shortcut through one block or through blocks of one length: what it means for the displacements
      that it was handed. */
  lemma HandedMeans(h: Handle, lens: seq<nat>, disps: seq<int>, inBytes: bool, n: nat, blk: nat)
    requires |lens| == |disps|
    requires HandsOn(h, lens, disps, inBytes) && (n, blk) == HandedOn(h, lens, disps, inBytes)
    ensures blk >= 1 && n >= 1 && LeadingEmpty(lens) + n <= |disps|
    ensures BlockCopies(h, 0, lens, ByteDisps(h, disps, inBytes))
         == BlockCopies(h, 0, Same(n, blk), ByteDisps(h, disps[LeadingEmpty(lens)..][..n], inBytes))
  {
    var first := LeadingEmpty(lens);
    hide BlockCopies, Merged, LeadingEmpty, ByteDisps;
    if |Merged(lens, disps, Unit(h, inBytes))| == 1 {
      OneHanded(h, lens, disps, inBytes, first);
    } else {
      ByteDispsLen(h, disps, inBytes);
      EqualBlocks(h, lens, ByteDisps(h, disps, inBytes), first);
      ByteDispsDrop(h, disps, inBytes, first);
      assert disps[first..][..n] == disps[first..];
    }
  }

  /** The displacements handed on are the right ones. */
  predicate HandedRightly(h: Handle, lens: seq<nat>, disps: seq<int>, inBytes: bool)
    requires |lens| == |disps| && HandsOn(h, lens, disps, inBytes)
    requires LeadingEmpty(lens) + HandedOn(h, lens, disps, inBytes).0 <= |disps|
  {
    var first, n := LeadingEmpty(lens), HandedOn(h, lens, disps, inBytes).0;
    Handed(disps, inBytes, first, n) == disps[first..][..n]
  }

  /** When a shortcut that hands on displacements keeps the bytes: if the constructor that it calls is exact for
      what it is handed, just when that is right; else just when its loop happens to select the right blocks. */
  ghost predicate ShortcutExact(h: Handle, lens: seq<nat>, disps: seq<int>, inBytes: bool)
    requires |lens| == |disps| && HandsOn(h, lens, disps, inBytes)
  {
    var first, on := LeadingEmpty(lens), HandedOn(h, lens, disps, inBytes);
    && 1 <= on.0 <= |disps| - first
    && (h.Size() == 0 || RightFor(h, on.1, Handed(disps, inBytes, first, on.0), disps[first..][..on.0], inBytes))
  }

  /** Blocks made for the displacements `got` are those at `want`. */
  ghost predicate RightFor(h: Handle, blk: nat, got: seq<int>, want: seq<int>, inBytes: bool)
    requires |got| == |want| >= 1
  {
    if BlockIndexedExact(h, blk, got, inBytes) then got == want
    else inBytes && Coalesces(h) && HappensRight(h, blk, got, want)
  }

  /** What a shortcut that hands on displacements promises. */
  ghost predicate ShortcutResult(h: Handle, lens: seq<nat>, disps: seq<int>, inBytes: bool, dlp: Loop)
    requires |lens| == |disps|
  {
    && HandsOn(h, lens, disps, inBytes)
    && LeadingEmpty(lens) + HandedOn(h, lens, disps, inBytes).0 <= |disps|
    && (Means(h, lens, disps, inBytes, dlp) <==> ShortcutExact(h, lens, disps, inBytes))
    && (HandedRightly(h, lens, disps, inBytes) ==>
        (Means(h, lens, disps, inBytes, dlp) <==> IndexedExact(h, lens, disps, inBytes)))
  }

  /** The loop that the constructor makes for the displacements handed on. */
  ghost predicate MadeFor(h: Handle, blk: nat, got: seq<int>, inBytes: bool, dlp: Loop) {
    && Fills(h, dlp, |got| * blk)
    && (Bytes(dlp, 0) == BlockCopies(h, 0, Same(|got|, blk), ByteDisps(h, got, inBytes))
        <==> BlockIndexedExact(h, blk, got, inBytes))
    && (!BlockIndexedExact(h, blk, got, inBytes) ==>
          Coalesces(h) && Bytes(dlp, 0) == WrongBlocks(h, blk, got, inBytes))
  }

  /** What it selects, against the blocks at other displacements. */
  lemma MadeForOthers(h: Handle, blk: nat, got: seq<int>, want: seq<int>, inBytes: bool, dlp: Loop)
    requires h.Sized() && blk >= 1 && |got| == |want| >= 1 && MadeFor(h, blk, got, inBytes, dlp)
    requires !inBytes ==> got == want
    ensures Bytes(dlp, 0) == BlockCopies(h, 0, Same(|want|, blk), ByteDisps(h, want, inBytes))
       <==> h.Size() == 0 || RightFor(h, blk, got, want, inBytes)
    ensures got == want ==>
      (Bytes(dlp, 0) == BlockCopies(h, 0, Same(|want|, blk), ByteDisps(h, want, inBytes))
       <==> BlockIndexedExact(h, blk, want, inBytes))
  {
    hide BlockCopies, BlockIndexedExact, HappensRight, WrongBlocks, ContigCount, Bytes;
    var g, w := ByteDisps(h, got, inBytes), ByteDisps(h, want, inBytes);
    if h.Size() == 0 {
      NoData(h, Same(|got|, blk), w);
      assert |got| * blk * h.Size() == 0;
    } else if !BlockIndexedExact(h, blk, got, inBytes) {
      if inBytes {
        WrongBlocksRight(h, blk, got, want);
      }
    } else if BlockCopies(h, 0, Same(|got|, blk), g) == BlockCopies(h, 0, Same(|got|, blk), w) {
      OtherDisps(h, blk, g, w);
    }
  }

  /** The iff of a shortcut, from that of the constructor that it calls. */
  lemma ShortcutMeans(h: Handle, lens: seq<nat>, disps: seq<int>, inBytes: bool, n: nat, blk: nat, dlp: Loop)
    requires |lens| == |disps| && h.Sized()
    requires HandsOn(h, lens, disps, inBytes) && (n, blk) == HandedOn(h, lens, disps, inBytes)
    requires LeadingEmpty(lens) + n <= |disps|
    requires MadeFor(h, blk, Handed(disps, inBytes, LeadingEmpty(lens), n), inBytes, dlp)
    ensures ShortcutResult(h, lens, disps, inBytes, dlp)
  {
    hide BlockCopies, BlockIndexedExact, IndexedExact, ContigExact, Handed, HandsOn, HandedOn, LeadingEmpty, Merged;
    hide ByteDisps, RightFor, MadeFor, Bytes, Same, AllEqual;
    var first := LeadingEmpty(lens);
    var got, want := Handed(disps, inBytes, first, n), disps[first..][..n];
    HandedMeans(h, lens, disps, inBytes, n, blk);
    ShortcutCondition(h, lens, disps, inBytes, n, blk);
    if !inBytes {
      HandedRight(disps, inBytes, first, n);
      assert got == want;
    }
    MadeForOthers(h, blk, got, want, inBytes, dlp);
  }

  /** A type without data selects nothing. */
  lemma {:induction false} NoData(h: Handle, lens: seq<nat>, d: seq<int>)
    requires |lens| == |d| && h.Sized() && h.Size() == 0
    ensures BlockCopies(h, 0, lens, d) == []
    decreases |lens|
  {
    if lens != [] {
      CopiesLen(h, 0 + d[0], lens[0]);
      NoData(h, lens[1..], d[1..]);
    }
  }

  lemma ShortcutCondition(h: Handle, lens: seq<nat>, disps: seq<int>, inBytes: bool, n: nat, blk: nat)
    requires |lens| == |disps|
    requires HandsOn(h, lens, disps, inBytes) && (n, blk) == HandedOn(h, lens, disps, inBytes)
    requires LeadingEmpty(lens) + n <= |disps|
    ensures BlockIndexedExact(h, blk, disps[LeadingEmpty(lens)..][..n], inBytes)
       <==> IndexedExact(h, lens, disps, inBytes)
  {
    var first := LeadingEmpty(lens);
    if |Merged(lens, disps, Unit(h, inBytes))| == 1 {
      assert disps[first..][..1] == [disps[first]];
      assert ContigCount([disps[first]], blk * if inBytes then h.Extent() else 1) == 1;
    } else {
      assert disps[first..][..n] == disps[first..];
    }
  }

  /** The displacements are handed on rightly if they are in elements or no block at the front is empty. */
  lemma HandedRightlyWhen(h: Handle, lens: seq<nat>, disps: seq<int>, inBytes: bool)
    requires |lens| == |disps| && HandsOn(h, lens, disps, inBytes)
    requires LeadingEmpty(lens) + HandedOn(h, lens, disps, inBytes).0 <= |disps|
    requires !inBytes || LeadingEmpty(lens) == 0
    ensures HandedRightly(h, lens, disps, inBytes)
  {
    var first, n := LeadingEmpty(lens), HandedOn(h, lens, disps, inBytes).0;
    HandedRight(disps, inBytes, first, n);
    assert disps[first..][..n] == disps[first..first + n];
  }

  /** The address error is real: an empty block, then one block at byte 16, is read as being elsewhere. */
  lemma MisreadDisplacement()
    ensures HandsOn(Basic(4), [0, 1], [8, 16], true)
    ensures HandedOn(Basic(4), [0, 1], [8, 16], true) == (1, 1)
    ensures !HandedRightly(Basic(4), [0, 1], [8, 16], true)
  {
    assert [0, 1][1..] == [1] && [8, 16][1..] == [16] && [1][1..] == [] && [16][1..] == [];
    assert LeadingEmpty([0, 1]) == 1 + LeadingEmpty([1]);
    assert Merged([0, 1], [8, 16], 4) == Merged([1], [16], 4) == Merge(1, 16, [], [], 4);
    assert Sum([0, 1]) == 0 + Sum([1]);
    assert Handed([8, 16], true, 1, 1)[0] == AtWord([8, 16], 1) == 16 * WORD;
    assert [8, 16][1..][..1][0] == 16;
  }

  lemma HeldBlocks(outLens: seq<nat>, outDisps: seq<int>, blocks: seq<Block>)
    requires Holds(outLens, outDisps, blocks)
    ensures outLens == LensOf(blocks) && outDisps == DispsOf(blocks)
  {
  }

  /** The merged arrays mean what the type means; so do they in bytes. */
  lemma MergedLoop(h: Handle, lens: seq<nat>, disps: seq<int>, inBytes: bool, first: nat)
    requires |lens| == |disps| && FirstBlock(lens, first) && first < |lens|
    ensures var blocks := Merged(lens, ByteDisps(h, disps, inBytes), h.Extent());
      && TotalLens(blocks) == Sum(lens)
      && Means(h, lens, disps, inBytes, Wrap(IndexedShape(blocks), h))
      && (h.Basic? ==> Means(h, lens, disps, inBytes, Leaf(IndexedShape(InBytes(blocks, h.bsize)), 1, 1)))
  {
    var blocks := Merged(lens, ByteDisps(h, disps, inBytes), h.Extent());
    MergedMeans(h, lens, ByteDisps(h, disps, inBytes), first);
    WrapIndexed(h, 0, 0, blocks);
    assert blocks[0..] == blocks;
    if h.Basic? {
      ByteIndexed(h, 0, 0, blocks);
    }
  }

  /** The merged arrays have no empty blocks and no neighbours that abut. */
  lemma MergedCarries(h: Handle, lens: seq<nat>, d: seq<int>, first: nat)
    requires h.Sized() && |lens| == |d| && FirstBlock(lens, first) && first < |lens|
    ensures var blocks := Merged(lens, d, h.Extent());
      && Carries(h, Wrap(IndexedShape(blocks), h))
      && (h.Basic? ==> Carries(h, Leaf(IndexedShape(InBytes(blocks, h.bsize)), 1, 1)))
  {
    var blocks := Merged(lens, d, h.Extent());
    MergedFrom(lens, d, h.Extent(), first);
    MergeApart(lens[first], d[first], lens[first + 1..], d[first + 1..], h.Extent());
    TotalIsSum(blocks);
    hide Merged, Merge, Sum, Apart, Bytes;
    IndexedPositive(blocks);
    if h.Basic? {
      MergedSeparated(blocks, h.bsize);
      TotalIsSum(InBytes(blocks, h.bsize));
      if h.bsize >= 1 {
        BytesPositive(blocks, h.bsize);
      }
      LeafCarries(IndexedShape(InBytes(blocks, h.bsize)), h, 1, 1);
    }
    WrapCarries(IndexedShape(blocks), h);
  }

  lemma IndexedPositive(blocks: seq<Block>)
    requires blocks != [] && forall k: nat | k < |blocks| :: blocks[k].len >= 1
    ensures IndexedShape(blocks).Positive()
  {
    TotalIsSum(blocks);
  }

  lemma BytesPositive(blocks: seq<Block>, size: nat)
    requires blocks != [] && size >= 1 && forall k: nat | k < |blocks| :: blocks[k].len >= 1
    ensures IndexedShape(InBytes(blocks, size)).Positive()
  {
    forall k: nat | k < |blocks| ensures InBytes(blocks, size)[k].len >= 1 {
      MulLe(1, blocks[k].len, size);
    }
    IndexedPositive(InBytes(blocks, size));
  }

  /** Block lengths in bytes, in place. */
  method ScaleLens(outLens: array<nat>, size: nat)
    modifies outLens
    ensures forall k: nat | k < outLens.Length :: outLens[k] == old(outLens[k]) * size
  {
    for i := 0 to outLens.Length
      invariant forall k: nat | k < i :: outLens[k] == old(outLens[k]) * size
      invariant forall k: nat | i <= k < outLens.Length :: outLens[k] == old(outLens[k])
    {
      outLens[i] := outLens[i] * size;
    }
  }

  method StoreIndexed(lens: seq<nat>, disps: seq<int>, inBytes: bool, h: Handle, allBytes: bool,
                      first: nat, total: nat, contigCount: nat) returns (dlp: Loop)
    requires h.Sized() && |lens| == |disps| && FirstBlock(lens, first) && first < |lens| && total == Sum(lens)
    requires contigCount == |Merged(lens, ByteDisps(h, disps, inBytes), h.Extent())| >= 1
    ensures Means(h, lens, disps, inBytes, dlp)
    ensures Carries(h, dlp) && Fills(h, dlp, total)
    ensures Over(h, dlp, Grain(h, allBytes))
  {
    MeansFills(h, lens, disps, inBytes, total);
    MergedLoop(h, lens, disps, inBytes, first);
    MergedCarries(h, lens, ByteDisps(h, disps, inBytes), first);
    ghost var blocks := Merged(lens, ByteDisps(h, disps, inBytes), h.Extent());
    hide Merged, Means, Carries, ByteDisps;
    ByteDispsLen(h, disps, inBytes);
    var outLens, outDisps := IndexedArrayCopy(lens, ByteDisps(h, disps, inBytes), h.Extent(), contigCount);
    HeldBlocks(outLens[..], outDisps[..], blocks);
    if h.Basic? && allBytes {
      ScaleLens(outLens, h.bsize);
      TotalInBytes(blocks, h.bsize);
      assert outLens[..] == LensOf(InBytes(blocks, h.bsize));
      assert outDisps[..] == DispsOf(InBytes(blocks, h.bsize));
      dlp := Leaf(Indexed(outLens[..], outDisps[..], total * h.bsize), 1, 1);
    } else {
      dlp := Wrap(Indexed(outLens[..], outDisps[..], total), h);
    }
  }

  lemma MeansFills(h: Handle, lens: seq<nat>, disps: seq<int>, inBytes: bool, total: nat)
    requires h.Sized() && |lens| == |disps| && total == Sum(lens)
    ensures forall dlp: Loop | Means(h, lens, disps, inBytes, dlp) :: Fills(h, dlp, total)
  {
    ByteDispsLen(h, disps, inBytes);
    BlockCopiesLen(h, 0, lens, ByteDisps(h, disps, inBytes));
  }

  lemma EqualSum(lens: seq<nat>, first: nat)
    requires FirstBlock(lens, first) && first < |lens| && AllEqual(lens, first)
    ensures Sum(lens) == (|lens| - first) * lens[first]
  {
    NoneBefore(lens, first);
    assert lens[first..] == Same(|lens| - first, lens[first]);
    SumSame(|lens| - first, lens[first]);
  }

  method TotalCount(lens: seq<nat>, first: nat) returns (total: nat)
    requires FirstBlock(lens, first)
    ensures total == Sum(lens)
  {
    total := 0;
    NoneBefore(lens, first);
    for i := first to |lens|
      invariant total + Sum(lens[i..]) == Sum(lens)
    {
      assert lens[i..][1..] == lens[i + 1..];
      total := total + lens[i];
    }
  }

  lemma {:induction false} NoneBefore(lens: seq<nat>, first: nat)
    requires FirstBlock(lens, first)
    ensures Sum(lens) == Sum(lens[first..])
    decreases first
  {
    if first > 0 {
      assert lens[0] == 0;
      assert forall k: nat | k < first - 1 :: lens[1..][k] == lens[k + 1];
      NoneBefore(lens[1..], first - 1);
      assert lens[1..][first - 1..] == lens[first..];
    } else {
      assert lens[0..] == lens;
    }
  }

  /** The elements of what the branch taken makes. */
  function IndexedGrain(h: Handle, lens: seq<nat>, disps: seq<int>, inBytes: bool, allBytes: bool): nat
    requires |lens| == |disps|
  {
    if HandsOn(h, lens, disps, inBytes) then
      var on := HandedOn(h, lens, disps, inBytes);
      BlockGrain(h, on.1, Handed(disps, inBytes, LeadingEmpty(lens), on.0), inBytes, allBytes)
    else Grain(h, allBytes)
  }

  /** All blocks are empty. */
  lemma NothingThere(h: Handle, lens: seq<nat>, disps: seq<int>, inBytes: bool, allBytes: bool)
    requires |lens| == |disps| && LeadingEmpty(lens) == |lens|
    ensures Means(h, lens, disps, inBytes, EmptyLoop(allBytes)) && IndexedKept(h, lens, disps, inBytes)
    ensures !HandsOn(h, lens, disps, inBytes)
    ensures Carries(h, EmptyLoop(allBytes)) && Fills(h, EmptyLoop(allBytes), Sum(lens))
    ensures Over(h, EmptyLoop(allBytes), Grain(h, allBytes))
  {
    hide Over, Grain, Carries, ShortcutExact, ContigExact, BlockIndexedExact, Merged, LeadingEmpty;
    AllEmpty(h, 0, lens, ByteDisps(h, disps, inBytes));
    EmptyCarries(h, allBytes, Grain(h, allBytes));
    NoneBefore(lens, |lens|);
  }

  /** When the bytes of the type are kept. */
  ghost predicate IndexedKept(h: Handle, lens: seq<nat>, disps: seq<int>, inBytes: bool)
    requires |lens| == |disps|
  {
    if HandsOn(h, lens, disps, inBytes) then ShortcutExact(h, lens, disps, inBytes)
    else IndexedExact(h, lens, disps, inBytes)
  }

  /** Dataloop_create_indexed. If no shortcut hands on a displacement, or the right ones are handed on, the
      bytes of the type are kept if and only if those of the simpler constructor are. With byte
      displacements and empty blocks at the front other displacements may be handed on: then the bytes are
      kept if and only if the loop made for those happens to select the right blocks. */
  method CreateIndexed(lens: seq<nat>, disps: seq<int>, inBytes: bool, h: Handle, allBytes: bool)
    returns (dlp: Loop)
    requires |lens| == |disps| && h.Sized()
    requires CountsAgree(h, lens, disps, inBytes) || HandsOn(h, lens, disps, inBytes)
    ensures Means(h, lens, disps, inBytes, dlp) <==> IndexedKept(h, lens, disps, inBytes)
    ensures HandsOn(h, lens, disps, inBytes) ==> ShortcutResult(h, lens, disps, inBytes, dlp)
    ensures Carries(h, dlp) && Fills(h, dlp, Sum(lens))
    ensures Over(h, dlp, IndexedGrain(h, lens, disps, inBytes, allBytes))
  {
    hide Over, Grain, BlockGrain, BlockCopies, BlockIndexedExact, ContigExact, Fills, Carries, Bytes, ShortcutExact,
      HandedOn;
    if |lens| == 0 {
      NothingThere(h, lens, disps, inBytes, allBytes);
      return EmptyLoop(allBytes);
    }
    var first := SkipEmpty(lens);
    var total := TotalCount(lens, first);
    var contigCount := IndexedCountContig(lens, disps, Unit(h, inBytes));
    OneFirst(lens, first, LeadingEmpty(lens));
    Counted(h, lens, disps, inBytes, first);
    if contigCount == 0 {
      NothingThere(h, lens, disps, inBytes, allBytes);
      return EmptyLoop(allBytes);
    }
    if contigCount == 1 && disps[first] == 0 {
      dlp := ContigShortcut(lens, disps, inBytes, h, allBytes, first, total);
    } else if contigCount == 1 {
      dlp := BlockShortcut(lens, disps, inBytes, h, allBytes, first, total);
    } else {
      var equal := HaveOneLength(lens, first);
      if equal {
        dlp := EqualShortcut(lens, disps, inBytes, h, allBytes, first);
      } else {
        dlp := StoreIndexed(lens, disps, inBytes, h, allBytes, first, total, contigCount);
      }
    }
  }

  /** One block at displacement 0. */
  method ContigShortcut(lens: seq<nat>, disps: seq<int>, inBytes: bool, h: Handle, allBytes: bool,
                        first: nat, total: nat) returns (dlp: Loop)
    requires |lens| == |disps| && h.Sized()
    requires FirstBlock(lens, first) && first < |lens| && total == Sum(lens)
    requires |Merged(lens, disps, Unit(h, inBytes))| == 1 && disps[first] == 0
    ensures Means(h, lens, disps, inBytes, dlp) <==> IndexedExact(h, lens, disps, inBytes)
    ensures Carries(h, dlp) && Fills(h, dlp, total)
    ensures Over(h, dlp, Grain(h, allBytes))
  {
    OneFirst(lens, first, LeadingEmpty(lens));
    Counted(h, lens, disps, inBytes, first);
    OneBlock(h, lens, ByteDisps(h, disps, inBytes), first);
    assert ByteDisps(h, disps, inBytes)[first] == 0;
    dlp := CreateContiguous(total, h, allBytes);
  }

  /** One block elsewhere. */
  method BlockShortcut(lens: seq<nat>, disps: seq<int>, inBytes: bool, h: Handle, allBytes: bool,
                       first: nat, total: nat) returns (dlp: Loop)
    requires |lens| == |disps| && h.Sized()
    requires FirstBlock(lens, first) && first < |lens| && total == Sum(lens)
    requires |Merged(lens, disps, Unit(h, inBytes))| == 1 && disps[first] != 0
    ensures ShortcutResult(h, lens, disps, inBytes, dlp)
    ensures Carries(h, dlp) && Fills(h, dlp, Sum(lens))
    ensures Over(h, dlp, IndexedGrain(h, lens, disps, inBytes, allBytes))
  {
    OneFirst(lens, first, LeadingEmpty(lens));
    hide BlockIndexedExact, IndexedExact, Handed, BlockCopies, ByteDisps, WrongBlocks, Fills, ShortcutExact, Over;
    hide BlockGrain;
    dlp := CreateBlockIndexed(total, Handed(disps, inBytes, first, 1), inBytes, h, allBytes);
    ShortcutMeans(h, lens, disps, inBytes, 1, total, dlp);
  }

  /** Blocks of one length. */
  method EqualShortcut(lens: seq<nat>, disps: seq<int>, inBytes: bool, h: Handle, allBytes: bool, first: nat)
    returns (dlp: Loop)
    requires |lens| == |disps| && h.Sized()
    requires FirstBlock(lens, first) && first < |lens| && AllEqual(lens, first)
    requires |Merged(lens, disps, Unit(h, inBytes))| > 1
    ensures ShortcutResult(h, lens, disps, inBytes, dlp)
    ensures Carries(h, dlp) && Fills(h, dlp, Sum(lens))
    ensures Over(h, dlp, IndexedGrain(h, lens, disps, inBytes, allBytes))
  {
    OneFirst(lens, first, LeadingEmpty(lens));
    EqualSum(lens, first);
    hide BlockIndexedExact, IndexedExact, Handed, BlockCopies, ByteDisps, WrongBlocks, ShortcutExact, Over, BlockGrain;
    dlp := CreateBlockIndexed(lens[first], Handed(disps, inBytes, first, |lens| - first), inBytes, h, allBytes);
    ShortcutMeans(h, lens, disps, inBytes, |lens| - first, lens[first], dlp);
  }
}
