/** What a reset does to the stream when levels under level 0 hold block sizes of other blocks. */
module Displacements {
  import opened Dataloops
  import opened SegmentStack

  /** How far byte p of the stream is displaced: level by level, the bytes of the first block (and, one
      level down, of its first element). */
  ghost function Drift(l: Loop, below: seq<Elm>, p: nat): int
    decreases l
  {
    if l.Leaf? || below == [] || p >= l.shape.BlockSize(0) * ElemSize(l) then 0
    else
      Displacement(l, below) + if p < ElemSize(l) then Drift(l.child, below[1..], p) else 0
  }

  /** No node holds the size of a block other than its first, or it does not matter. */
  ghost predicate NoDisplacement(l: Loop, below: seq<Elm>)
    decreases l
  {
    l.Node? && below != [] ==> Displacement(l, below) == 0 && NoDisplacement(l.child, below[1..])
  }

  ghost predicate LoadedBelow(l: Loop, below: seq<Elm>)
    decreases l
  {
    && below != [] && Loaded(below[0], l)
    && (l.Node? ==> LoadedBelow(l.child, below[1..]))
  }

  lemma ShiftAt(s: seq<int>, d: int, p: nat)
    requires p < |s|
    ensures Shift(s, d)[p] == s[p] + d
  {
  }

  /** The first block, displaced. */
  lemma AfterFirstAt(l: Loop, first: int, b: int, d: int, p: nat)
    requires l.WellFormed()
    requires p < |AfterFirst(l, first, b)|
    ensures |AfterFirst(l, first + d, b)| == |AfterFirst(l, first, b)|
    ensures AfterFirst(l, first + d, b)[p] == AfterFirst(l, first, b)[p]
         + if p < (l.shape.BlockSize(0) - 1) * ElemSize(l) then d else 0
  {
    assert l.shape.BlockSize(0) >= 1;
    var n := l.shape.BlockSize(0) - 1;
    ElemsLen(l, first + l.Step(), n);
    ElemsShift(l, first + l.Step(), d, n);
    assert first + l.Step() + d == first + d + l.Step();
  }

  /** After a reset, byte p of the stream is displaced by exactly Drift(p). */
  lemma {:induction false} EnteringAt(l: Loop, b: int, below: seq<Elm>, p: nat)
    requires l.WellFormed() && p < Size(l)
    ensures |Entering(l, b, below)| == |Bytes(l, b)| == Size(l)
    ensures Entering(l, b, below)[p] == Bytes(l, b)[p] + Drift(l, below, p)
    decreases l
  {
    EnteringLen(l, b, below);
    BytesLen(l, b);
    if l.Node? && below != [] {
      var plain, d, es := b + l.shape.Offset(0), Displacement(l, below), ElemSize(l);
      assert l.shape.BlockSize(0) >= 1;
      FirstBlock(l);
      BytesFirst(l, b);
      ElemLen(l, plain);
      EnteringLen(l.child, plain + d, below[1..]);
      BytesShift(l.child, plain, d);
      if p < es {
        EnteringAt(l.child, plain + d, below[1..], p);
        ShiftAt(Bytes(l.child, plain), d, p);
      } else {
        AfterFirstAt(l, plain, b, d, p - es);
      }
    }
  }

  lemma FirstBlock(l: Loop)
    requires l.shape.BlockSize(0) >= 1
    ensures l.shape.BlockSize(0) * ElemSize(l) == ElemSize(l) + (l.shape.BlockSize(0) - 1) * ElemSize(l)
    ensures (l.shape.BlockSize(0) - 1) * ElemSize(l) >= 0
  {
  }

  lemma {:induction false} NoDrift(l: Loop, below: seq<Elm>, p: nat)
    requires NoDisplacement(l, below)
    ensures Drift(l, below, p) == 0
    decreases l
  {
    if l.Node? && below != [] {
      NoDrift(l.child, below[1..], p);
    }
  }

  /** A displaced node has a second block, so that some byte of it is not displaced. */
  lemma {:induction false} UndisplacedByte(l: Loop, below: seq<Elm>) returns (p: nat)
    requires l.WellFormed() && LoadedBelow(l, below)
    requires !NoDisplacement(l, below)
    ensures p < Size(l) && Drift(l, below, p) == 0
    decreases l
  {
    if Displacement(l, below) != 0 {
      p := l.shape.BlockSize(0) * ElemSize(l);
      SecondBlock(l, below[0]);
    } else {
      p := UndisplacedByte(l.child, below[1..]);
      FirstElement(l, p);
    }
  }

  lemma SecondBlock(l: Loop, e: Elm)
    requires l.WellFormed() && Loaded(e, l) && e.origBlock != l.shape.BlockSize(0)
    ensures l.shape.BlockSize(0) * ElemSize(l) < Size(l)
  {
    var i: nat :| i < l.shape.Count() && l.shape.BlockSize(i) == e.origBlock;
    assert i >= 1 && l.shape.Count() >= 2;
    var o0, o1 := l.shape.Offset(0), l.shape.Offset(1);
    ElemsLen(l, o0, l.shape.BlockSize(0));
    assert l.shape.BlockSize(1) >= 1;
    Nonempty(l, o1);
    assert |Elems(l, o1, l.shape.BlockSize(1))| >= |Elem(l, o1)|;
    assert Bytes(l, 0) == Elems(l, 0 + o0, l.shape.BlockSize(0)) + BlocksFrom(l, 0, 1);
    assert BlocksFrom(l, 0, 1) == Elems(l, 0 + o1, l.shape.BlockSize(1)) + BlocksFrom(l, 0, 2);
  }

  lemma FirstElement(l: Loop, p: nat)
    requires l.WellFormed() && p < ElemSize(l)
    ensures p < Size(l) && p < l.shape.BlockSize(0) * ElemSize(l)
  {
    assert l.shape.BlockSize(0) >= 1;
    FirstBlock(l);
    BytesFirst(l, 0);
    ElemLen(l, l.shape.Offset(0));
  }

  /** If any node is displaced, some byte of the stream is. */
  lemma {:induction false} DisplacedByte(l: Loop, below: seq<Elm>) returns (p: nat)
    requires l.WellFormed() && LoadedBelow(l, below)
    requires !NoDisplacement(l, below)
    ensures p < Size(l) && Drift(l, below, p) != 0
    decreases l
  {
    if Displacement(l, below) == 0 {
      p := DisplacedByte(l.child, below[1..]);
    } else if NoDisplacement(l.child, below[1..]) {
      p := 0;
      Nonempty(l.child, 0);
      NoDrift(l.child, below[1..], 0);
    } else {
      p := UndisplacedByte(l.child, below[1..]);
    }
    FirstElement(l, p);
  }

  /** A reset gives back the byte map of the loop if and only if no node is displaced. */
  lemma ResetExact(l: Loop, b: int, below: seq<Elm>)
    requires l.WellFormed() && LoadedBelow(l, below)
    ensures Entering(l, b, below) == Bytes(l, b) <==> NoDisplacement(l, below)
  {
    EnteringLen(l, b, below);
    BytesLen(l, b);
    if NoDisplacement(l, below) {
      forall p: nat | p < Size(l)
        ensures Entering(l, b, below)[p] == Bytes(l, b)[p]
      {
        EnteringAt(l, b, below, p);
        NoDrift(l, below, p);
      }
    } else {
      var p := DisplacedByte(l, below);
      EnteringAt(l, b, below, p);
    }
  }

  /** A run that resets hands over the right bytes from..to-1 if and only if their drift is zero. */
  lemma WindowExact(l: Loop, b: int, below: seq<Elm>, from: nat, to: nat)
    requires l.WellFormed() && from <= to <= Size(l)
    ensures |Entering(l, b, below)| == |Bytes(l, b)| == Size(l)
    ensures Entering(l, b, below)[from..to] == Bytes(l, b)[from..to]
       <==> forall p: nat | from <= p < to :: Drift(l, below, p) == 0
  {
    EnteringLen(l, b, below);
    BytesLen(l, b);
    var e, m := Entering(l, b, below), Bytes(l, b);
    SliceEq(e, m, from, to);
    if e[from..to] == m[from..to] {
      forall p: nat | from <= p < to
        ensures Drift(l, below, p) == 0
      {
        EnteringAt(l, b, below, p);
        assert e[p] == m[p];
      }
    } else {
      var p: nat :| from <= p < to && e[p] != m[p];
      EnteringAt(l, b, below, p);
    }
  }

  lemma SliceEq<T>(e: seq<T>, m: seq<T>, from: nat, to: nat)
    requires from <= to <= |e| && |e| == |m|
    ensures e[from..to] == m[from..to] <==> forall p: nat | from <= p < to :: e[p] == m[p]
  {
    if e[from..to] == m[from..to] {
      forall p: nat | from <= p < to
        ensures e[p] == m[p]
      {
        assert e[from..to][p - from] == m[from..to][p - from];
      }
    }
  }

  /* ---------- types that can always be reset ---------- */

  /** Below the root, blocks have one size or lie on top of each other. */
  ghost predicate Resettable(l: Loop) {
    l.Node? ==> Uniform(l.child)
  }

  ghost predicate Uniform(l: Loop) {
    l.Node? ==>
      && (l.elExtent == 0 || forall i: nat | i < l.shape.Count() :: l.shape.BlockSize(i) == l.shape.BlockSize(0))
      && Uniform(l.child)
  }

  lemma {:induction false} UniformNoDisplacement(l: Loop, below: seq<Elm>)
    requires Uniform(l) && LoadedBelow(l, below)
    ensures NoDisplacement(l, below)
    decreases l
  {
    if l.Node? {
      UniformNoDisplacement(l.child, below[1..]);
      if l.elExtent != 0 {
        var i: nat :| i < l.shape.Count() && l.shape.BlockSize(i) == below[0].origBlock;
      }
    }
  }

  lemma {:induction false} LevelsBelow(root: Loop, s: seq<Elm>, k: nat)
    requires Levels(root, s) && k < root.Depth()
    ensures LoadedBelow(LoopAt(root, k), s[k..])
    decreases root.Depth() - k
  {
    LoopAtStep(root, k);
    assert s[k..][0] == s[k];
    if LoopAt(root, k).Node? {
      LevelsBelow(root, s, k + 1);
      assert s[k..][1..] == s[k + 1..];
    }
  }
}
