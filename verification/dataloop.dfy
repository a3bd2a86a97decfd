/** Loop trees and their byte map: the sequence of memory byte offsets, in stream order,
    that a loop placed at a given base selects. */
module Dataloops {

  /* ---------- runs of consecutive byte offsets ---------- */

  ghost function Run(b: int, n: nat): seq<int> {
    seq(n, i => b + i)
  }

  ghost function Shift(s: seq<int>, d: int): seq<int> {
    seq(|s|, i requires 0 <= i < |s| => s[i] + d)
  }

  lemma RunAppend(b: int, n: nat, m: nat)
    ensures Run(b, n) + Run(b + n, m) == Run(b, n + m)
  {
  }

  lemma ShiftAppend(s: seq<int>, t: seq<int>, d: int)
    ensures Shift(s + t, d) == Shift(s, d) + Shift(t, d)
  {
  }

  /** Dropping a prefix in two steps. */
  lemma DropDrop<T>(s: seq<T>, a: nat, b: nat)
    requires a + b <= |s|
    ensures s[a..][b..] == s[a + b..]
  {
  }

  lemma Assoc<T>(a: seq<T>, b: seq<T>, c: seq<T>)
    ensures a + b + c == a + (b + c)
  {
  }

  lemma DropAppend<T>(s: seq<T>, t: seq<T>, n: nat)
    requires n <= |s|
    ensures (s + t)[n..] == s[n..] + t
  {
  }

  /* ---------- loops ---------- */

  function Sum(s: seq<nat>): nat {
    if s == [] then 0 else s[0] + Sum(s[1..])
  }

  lemma {:induction false} SumPush(s: seq<nat>, x: nat)
    ensures Sum(s + [x]) == Sum(s) + x
  {
    if s == [] {
      assert s + [x] == [x] && [x][1..] == [];
    } else {
      SumPush(s[1..], x);
      assert (s + [x])[1..] == s[1..] + [x];
    }
  }

  function Same(n: nat, v: nat): seq<nat> {
    seq(n, _ => v)
  }

  /** The four struct-free kinds. A contiguous loop is one block of `count` elements. */
  datatype Shape =
    | Contig(count: nat)
    | Vector(vcount: nat, vblocksize: nat, stride: int)
    | BlockIndexed(biblocksize: nat, bioffsets: seq<int>)
    | Indexed(blocksizes: seq<nat>, offsets: seq<int>, totalBlocks: nat)
  {
    function Count(): nat {
      match this
      case Contig(_) => 1
      case Vector(c, _, _) => c
      case BlockIndexed(_, o) => |o|
      case Indexed(b, _, _) => |b|
    }

    /** Elements in block i; past the last block the value is never used. */
    function BlockSize(i: nat): nat {
      match this
      case Contig(c) => c
      case Vector(_, b, _) => b
      case BlockIndexed(b, _) => b
      case Indexed(b, _, _) => if i < |b| then b[i] else 0
    }

    /** Byte offset of block i from the start of the loop. */
    function Offset(i: nat): int {
      match this
      case Contig(_) => 0
      case Vector(_, _, s) => i * s
      case BlockIndexed(_, o) => if i < |o| then o[i] else 0
      case Indexed(_, o, _) => if i < |o| then o[i] else 0
    }

    /** Every count and block size is at least one, and the cached total is right. */
    ghost predicate Positive() {
      && Count() >= 1
      && (forall i: nat | i < Count() :: BlockSize(i) >= 1)
      && (Indexed? ==> |offsets| == |blocksizes| && totalBlocks == Sum(blocksizes))
    }
  }

  /** A leaf (the FINAL bit) holds elements of `elSize` contiguous bytes; a node holds child loops
      `elExtent` bytes apart. */
  datatype Loop =
    | Leaf(shape: Shape, elSize: nat, elExtent: int)
    | Node(shape: Shape, elSize: nat, elExtent: int, child: Loop)
  {
    function Step(): int {
      if Leaf? then elSize else elExtent
    }

    function Depth(): nat {
      match this
      case Leaf(_, _, _) => 1
      case Node(_, _, _, c) => 1 + c.Depth()
    }

    /** The element size of the only leaf of the chain. */
    function LeafSize(): nat {
      match this
      case Leaf(_, s, _) => s
      case Node(_, _, _, c) => c.LeafSize()
    }

    function LeafLoop(): Loop {
      match this
      case Leaf(_, _, _) => this
      case Node(_, _, _, c) => c.LeafLoop()
    }

    ghost predicate WellFormed() {
      && shape.Positive()
      && (Leaf? ==> elSize >= 1)
      && (Node? ==> child.WellFormed())
    }
  }

  /** The loop at nesting level k. */
  function LoopAt(l: Loop, k: nat): Loop
    requires k < l.Depth()
  {
    if k == 0 then l else LoopAt(l.child, k - 1)
  }

  lemma {:induction false} LeafSizePositive(l: Loop)
    requires l.WellFormed()
    ensures l.LeafSize() >= 1
  {
    if l.Node? {
      LeafSizePositive(l.child);
    }
  }

  lemma {:induction false} LoopAtStep(l: Loop, k: nat)
    requires k < l.Depth()
    ensures LoopAt(l, k).Depth() == l.Depth() - k
    ensures LoopAt(l, k).LeafSize() == l.LeafSize()
    ensures LoopAt(l, k).Leaf? ==> LoopAt(l, k) == l.LeafLoop()
    ensures LoopAt(l, k).Leaf? <==> k == l.Depth() - 1
    ensures k + 1 < l.Depth() ==> LoopAt(l, k + 1) == LoopAt(l, k).child
    ensures l.WellFormed() ==> LoopAt(l, k).WellFormed() && l.LeafSize() >= 1
  {
    if l.WellFormed() {
      LeafSizePositive(l);
    }
    if k > 0 {
      LoopAtStep(l.child, k - 1);
    }
  }

  /* ---------- the byte map ---------- */

  /** One element of loop l at base b. */
  ghost function Elem(l: Loop, b: int): seq<int>
    decreases l, 0
  {
    match l
    case Leaf(_, sz, _) => Run(b, sz)
    case Node(_, _, _, c) => Bytes(c, b)
  }

  /** n elements of loop l, one after the other, the first at b. */
  ghost function Elems(l: Loop, b: int, n: nat): seq<int>
    decreases l, 1, n
  {
    if n == 0 then [] else Elem(l, b) + Elems(l, b + l.Step(), n - 1)
  }

  /** Blocks i, i + 1, ... of loop l placed at b. */
  ghost function BlocksFrom(l: Loop, b: int, i: nat): seq<int>
    decreases l, 2, l.shape.Count() - i
  {
    if i >= l.shape.Count() then []
    else Elems(l, b + l.shape.Offset(i), l.shape.BlockSize(i)) + BlocksFrom(l, b, i + 1)
  }

  ghost function Bytes(l: Loop, b: int): seq<int>
    decreases l, 3
  {
    BlocksFrom(l, b, 0)
  }

  /** Number of stream bytes of one instance. */
  ghost function Size(l: Loop): nat {
    |Bytes(l, 0)|
  }

  ghost function ElemSize(l: Loop): nat {
    |Elem(l, 0)|
  }

  /* ---------- moving the base ---------- */

  lemma {:induction false} ElemShift(l: Loop, b: int, d: int)
    ensures Elem(l, b + d) == Shift(Elem(l, b), d)
    decreases l, 0
  {
    if l.Node? {
      BlocksShift(l.child, b, d, 0);
    }
  }

  lemma {:induction false} ElemsShift(l: Loop, b: int, d: int, n: nat)
    ensures Elems(l, b + d, n) == Shift(Elems(l, b, n), d)
    decreases l, 1, n
  {
    if n > 0 {
      ElemShift(l, b, d);
      ElemsShift(l, b + l.Step(), d, n - 1);
      assert b + l.Step() + d == b + d + l.Step();
      ShiftAppend(Elem(l, b), Elems(l, b + l.Step(), n - 1), d);
    }
  }

  lemma {:induction false} BlocksShift(l: Loop, b: int, d: int, i: nat)
    ensures BlocksFrom(l, b + d, i) == Shift(BlocksFrom(l, b, i), d)
    decreases l, 2, l.shape.Count() - i
  {
    if i < l.shape.Count() {
      var o := b + l.shape.Offset(i);
      ElemsShift(l, o, d, l.shape.BlockSize(i));
      BlocksShift(l, b, d, i + 1);
      assert o + d == b + d + l.shape.Offset(i);
      ShiftAppend(Elems(l, o, l.shape.BlockSize(i)), BlocksFrom(l, b, i + 1), d);
    }
  }

  /** The byte map moves with the base. */
  lemma BytesShift(l: Loop, b: int, d: int)
    ensures Bytes(l, b + d) == Shift(Bytes(l, b), d)
  {
    BlocksShift(l, b, d, 0);
  }

  lemma BytesLen(l: Loop, b: int)
    ensures |Bytes(l, b)| == Size(l)
  {
    BytesShift(l, 0, b);
  }

  lemma ElemLen(l: Loop, b: int)
    ensures |Elem(l, b)| == ElemSize(l)
  {
    ElemShift(l, 0, b);
  }

  lemma BlocksLen(l: Loop, b: int, i: nat)
    ensures |BlocksFrom(l, b, i)| == |BlocksFrom(l, 0, i)|
  {
    BlocksShift(l, 0, b, i);
  }

  lemma {:induction false} ElemsLen(l: Loop, b: int, n: nat)
    ensures |Elems(l, b, n)| == n * ElemSize(l)
    decreases n
  {
    if n > 0 {
      ElemLen(l, b);
      ElemsLen(l, b + l.Step(), n - 1);
      assert n * ElemSize(l) == ElemSize(l) + (n - 1) * ElemSize(l);
    }
  }

  lemma {:induction false} ElemsAppend(l: Loop, b: int, n: nat, m: nat)
    ensures Elems(l, b, n + m) == Elems(l, b, n) + Elems(l, b + n * l.Step(), m)
    decreases n
  {
    if n == 0 {
      assert b + n * l.Step() == b;
    } else {
      var c := b + l.Step();
      ElemsAppend(l, c, n - 1, m);
      assert c + (n - 1) * l.Step() == b + n * l.Step();
      assert (n - 1) + m == n + m - 1;
      calc {
        Elems(l, b, n + m);
        Elem(l, b) + Elems(l, c, n + m - 1);
        Elem(l, b) + (Elems(l, c, n - 1) + Elems(l, b + n * l.Step(), m));
        Elems(l, b, n) + Elems(l, b + n * l.Step(), m);
      }
    }
  }

  /** n elements of a leaf are one contiguous run. */
  lemma {:induction false} LeafElems(l: Loop, b: int, n: nat)
    requires l.Leaf?
    ensures Elems(l, b, n) == Run(b, n * l.elSize)
    decreases n
  {
    if n > 0 {
      LeafElems(l, b + l.elSize, n - 1);
      RunAppend(b, l.elSize, (n - 1) * l.elSize);
      assert l.elSize + (n - 1) * l.elSize == n * l.elSize;
    } else {
      assert n * l.elSize == 0;
    }
  }

  /* ---------- well-formed loops select something ---------- */

  lemma {:induction false} Nonempty(l: Loop, b: int)
    requires l.WellFormed()
    ensures |Elem(l, b)| >= 1 && |Bytes(l, b)| >= 1
    decreases l
  {
    if l.Node? {
      Nonempty(l.child, b);
      Nonempty(l.child, b + l.shape.Offset(0));
    }
    assert l.shape.BlockSize(0) >= 1;
    assert |Elem(l, b + l.shape.Offset(0))| >= 1;
    assert |Elems(l, b + l.shape.Offset(0), l.shape.BlockSize(0))| >= 1;
  }
}
