/** How far the bytes that a segment may draw on reach, whatever block sizes its levels hold when it starts over. */
module Reaches {
  import opened Dataloops
  import opened SegmentStack
  import opened Displacements

  /* ---------- the outermost of a list of bytes ---------- */

  /** x is no farther than m, up or down. */
  predicate Upto(up: bool, x: int, m: int) {
    if up then x <= m else m <= x
  }

  /** The one of two that is farther. */
  function Far(up: bool, x: int, y: int): int {
    if Upto(up, x, y) then y else x
  }

  lemma FarShift(up: bool, x: int, y: int, d: int)
    ensures Far(up, x + d, y + d) == Far(up, x, y) + d
  {
  }

  ghost predicate Outermost(up: bool, s: seq<int>, m: int) {
    m in s && forall x | x in s :: Upto(up, x, m)
  }

  lemma OutermostAppend(up: bool, s: seq<int>, t: seq<int>, m: int, n: int)
    requires Outermost(up, s, m) && Outermost(up, t, n)
    ensures Outermost(up, s + t, Far(up, m, n))
  {
  }

  lemma OutermostRun(up: bool, b: int, n: nat)
    requires n >= 1
    ensures Outermost(up, Run(b, n), b + if up then n - 1 else 0)
  {
    assert Run(b, n)[0] == b && Run(b, n)[n - 1] == b + n - 1;
  }

  /* ---------- the outermost byte of a loop ---------- */

  /** Of one element. */
  function ElemFar(up: bool, l: Loop): int
    decreases l, 0
  {
    if l.Node? then BlocksFar(up, l.child, 0) else if up then l.elSize - 1 else 0
  }

  /** Of n elements one after the other. */
  function RunFar(up: bool, l: Loop, n: nat): int
    decreases l, 1
  {
    ElemFar(up, l) + Far(up, 0, (n - 1) * l.Step())
  }

  /** Of blocks i, i + 1, ... */
  function BlocksFar(up: bool, l: Loop, i: nat): int
    decreases l, 2, l.shape.Count() - i
  {
    var here := l.shape.Offset(i) + RunFar(up, l, l.shape.BlockSize(i));
    if i + 1 >= l.shape.Count() then here else Far(up, here, BlocksFar(up, l, i + 1))
  }

  lemma {:induction false} ElemOutermost(up: bool, l: Loop, b: int)
    requires l.WellFormed()
    ensures Outermost(up, Elem(l, b), b + ElemFar(up, l))
    decreases l, 0
  {
    if l.Node? {
      assert Elem(l, b) == Bytes(l.child, b) == BlocksFrom(l.child, b, 0);
      BlocksOutermost(up, l.child, b, 0);
    } else {
      assert Elem(l, b) == Run(b, l.elSize);
      OutermostRun(up, b, l.elSize);
    }
  }

  /** The last of n elements is the farthest if the step goes that way, else the first. */
  lemma StepFar(up: bool, step: int, n: nat)
    requires n >= 2
    ensures Far(up, 0, step + Far(up, 0, (n - 2) * step)) == Far(up, 0, (n - 1) * step)
  {
    assert (n - 1) * step == step + (n - 2) * step;
    if step >= 0 {
      assert (n - 2) * step >= 0;
    } else {
      assert (n - 2) * step <= 0;
    }
  }

  lemma {:induction false} ElemsOutermost(up: bool, l: Loop, b: int, n: nat)
    requires l.WellFormed() && n >= 1
    ensures Outermost(up, Elems(l, b, n), b + RunFar(up, l, n))
    decreases l, 1, n
  {
    ElemOutermost(up, l, b);
    var e, step := ElemFar(up, l), l.Step();
    if n == 1 {
      assert Elems(l, b, 1) == Elem(l, b);
      assert 0 * step == 0;
    } else {
      ElemsOutermost(up, l, b + step, n - 1);
      OutermostAppend(up, Elem(l, b), Elems(l, b + step, n - 1), b + e, b + step + RunFar(up, l, n - 1));
      StepFar(up, step, n);
    }
  }

  lemma {:induction false} BlocksOutermost(up: bool, l: Loop, b: int, i: nat)
    requires l.WellFormed() && i < l.shape.Count()
    ensures Outermost(up, BlocksFrom(l, b, i), b + BlocksFar(up, l, i))
    decreases l, 2, l.shape.Count() - i
  {
    hide Outermost, RunFar;
    var n, o := l.shape.BlockSize(i), l.shape.Offset(i);
    ElemsOutermost(up, l, b + o, n);
    if i + 1 < l.shape.Count() {
      BlocksOutermost(up, l, b, i + 1);
      OutermostAppend(up, Elems(l, b + o, n), BlocksFrom(l, b, i + 1), b + o + RunFar(up, l, n),
                      b + BlocksFar(up, l, i + 1));
      FarShift(up, o + RunFar(up, l, n), BlocksFar(up, l, i + 1), b);
    } else {
      assert BlocksFrom(l, b, i + 1) == [];
      assert BlocksFrom(l, b, i) == Elems(l, b + o, n);
    }
  }

  /* ---------- the farthest displacement ---------- */

  /** How far the size of block i displaces the first block. */
  function SizeAway(l: Loop, i: nat): int {
    (l.shape.BlockSize(i) - l.shape.BlockSize(0)) * l.elExtent
  }

  /** The farthest of those of blocks i, i + 1, ... */
  function SizeFar(up: bool, l: Loop, i: nat): int
    decreases l.shape.Count() - i
  {
    if i + 1 >= l.shape.Count() then SizeAway(l, i) else Far(up, SizeAway(l, i), SizeFar(up, l, i + 1))
  }

  lemma {:induction false} SizeBound(up: bool, l: Loop, i: nat, j: nat)
    requires i <= j < l.shape.Count()
    ensures Upto(up, SizeAway(l, j), SizeFar(up, l, i))
    decreases l.shape.Count() - i
  {
    hide SizeAway;
    if i < j {
      SizeBound(up, l, i + 1, j);
    }
  }

  /** A block with that displacement. */
  function FarBlock(up: bool, l: Loop, i: nat): (j: nat)
    requires i < l.shape.Count()
    ensures i <= j < l.shape.Count() && SizeAway(l, j) == SizeFar(up, l, i)
    decreases l.shape.Count() - i
  {
    if i + 1 < l.shape.Count() && SizeAway(l, i) != SizeFar(up, l, i) then FarBlock(up, l, i + 1) else i
  }

  /* ---------- the outermost byte that can be delivered ---------- */

  /** Of a loop whose first element ends at `one`, the rest of its first block lying relative to `first`. */
  function Joined(up: bool, l: Loop, first: int, one: int): int {
    var block := if l.shape.BlockSize(0) >= 2
                 then Far(up, one, first + l.Step() + RunFar(up, l, l.shape.BlockSize(0) - 1)) else one;
    if l.shape.Count() >= 2 then Far(up, block, BlocksFar(up, l, 1)) else block
  }

  /** Entering l; the root, `top`, is never displaced itself. */
  function EnterFar(up: bool, l: Loop, top: bool): int
    decreases l
  {
    if l.Leaf? then BlocksFar(up, l, 0)
    else
      var first := l.shape.Offset(0) + if top then 0 else SizeFar(up, l, 0);
      Joined(up, l, first, first + EnterFar(up, l.child, false))
  }

  /** Entering l with the block sizes that the levels hold. */
  ghost function HeldFar(up: bool, l: Loop, below: seq<Elm>): int
    decreases l
  {
    if l.Leaf? || below == [] then BlocksFar(up, l, 0)
    else
      var first := l.shape.Offset(0) + Displacement(l, below);
      Joined(up, l, first, first + HeldFar(up, l.child, below[1..]))
  }

  /** The rest of l after its first element. */
  lemma AfterFirstOutermost(up: bool, l: Loop, first: int, b: int, one: int, s: seq<int>)
    requires l.WellFormed() && Outermost(up, s, b + one)
    ensures Outermost(up, s + AfterFirst(l, b + first, b), b + Joined(up, l, first, one))
  {
    var n, c := l.shape.BlockSize(0), first + l.Step();
    assert n >= 1;
    var t, u := Elems(l, b + c, n - 1), BlocksFrom(l, b, 1);
    var block := if n >= 2 then Far(up, one, c + RunFar(up, l, n - 1)) else one;
    hide Outermost;
    if n >= 2 {
      ElemsOutermost(up, l, b + c, n - 1);
      OutermostAppend(up, s, t, b + one, b + c + RunFar(up, l, n - 1));
      FarShift(up, one, c + RunFar(up, l, n - 1), b);
    } else {
      assert s + t == s;
    }
    assert Outermost(up, s + t, b + block);
    if l.shape.Count() >= 2 {
      BlocksOutermost(up, l, b, 1);
      OutermostAppend(up, s + t, u, b + block, b + BlocksFar(up, l, 1));
      FarShift(up, block, BlocksFar(up, l, 1), b);
    } else {
      assert s + t + u == s + t;
    }
    assert b + first + l.Step() == b + c;
    assert AfterFirst(l, b + first, b) == t + u;
    assert s + (t + u) == s + t + u;
  }

  lemma {:induction false} EnteringOutermost(up: bool, l: Loop, b: int, below: seq<Elm>)
    requires l.WellFormed()
    ensures Outermost(up, Entering(l, b, below), b + HeldFar(up, l, below))
    decreases l
  {
    hide Outermost;
    if l.Leaf? || below == [] {
      BlocksOutermost(up, l, b, 0);
    } else {
      var first := l.shape.Offset(0) + Displacement(l, below);
      var one := first + HeldFar(up, l.child, below[1..]);
      EnteringOutermost(up, l.child, b + first, below[1..]);
      AfterFirstOutermost(up, l, first, b, one, Entering(l.child, b + first, below[1..]));
    }
  }

  lemma JoinedMonotone(up: bool, l: Loop, first: int, one: int, first': int, one': int)
    requires Upto(up, first, first') && Upto(up, one, one')
    ensures Upto(up, Joined(up, l, first, one), Joined(up, l, first', one'))
  {
  }

  /** The block sizes that the levels may hold. */
  ghost predicate Held(l: Loop, below: seq<Elm>, top: bool) {
    LoadedBelow(l, below) && (top ==> below[0].origBlock == l.shape.BlockSize(0))
  }

  lemma DisplacedLess(up: bool, l: Loop, below: seq<Elm>, top: bool)
    requires l.Node? && Held(l, below, top)
    ensures below != [] && Upto(up, Displacement(l, below), if top then 0 else SizeFar(up, l, 0))
    ensures Held(l.child, below[1..], false)
  {
    var i: nat :| i < l.shape.Count() && l.shape.BlockSize(i) == below[0].origBlock;
    SizeBound(up, l, 0, i);
    assert Displacement(l, below) == SizeAway(l, i);
  }

  lemma {:induction false} HeldBound(up: bool, l: Loop, below: seq<Elm>, top: bool)
    requires Held(l, below, top)
    ensures Upto(up, HeldFar(up, l, below), EnterFar(up, l, top))
    decreases l
  {
    hide Joined, Held, Displacement, SizeFar;
    if l.Node? {
      DisplacedLess(up, l, below, top);
      var d, d' := Displacement(l, below), if top then 0 else SizeFar(up, l, 0);
      HeldBound(up, l.child, below[1..], false);
      var o := l.shape.Offset(0);
      JoinedMonotone(up, l, o + d, o + d + HeldFar(up, l.child, below[1..]),
                     o + d', o + d' + EnterFar(up, l.child, false));
    }
  }

  /** A level that holds the size of block i. */
  function Holding(l: Loop, i: nat): Elm {
    Load(l).(origBlock := l.shape.BlockSize(i))
  }

  lemma {:induction false} HeldReached(up: bool, l: Loop, top: bool) returns (below: seq<Elm>)
    requires l.WellFormed()
    ensures Held(l, below, top) && HeldFar(up, l, below) == EnterFar(up, l, top)
    decreases l
  {
    hide Joined, SizeFar;
    assert l.shape.BlockSize(0) >= 1;
    if l.Node? {
      var rest := HeldReached(up, l.child, false);
      var i := if top then 0 else FarBlock(up, l, 0);
      below := [Holding(l, i)] + rest;
      assert below[1..] == rest && HasBlockSize(l.shape, l.shape.BlockSize(i));
      assert Displacement(l, below) == SizeAway(l, i);
    } else {
      below := [Holding(l, 0)];
      assert HasBlockSize(l.shape, l.shape.BlockSize(0));
    }
  }

  /* ---------- what a segment may draw on ---------- */

  /** A stream that a segment of this loop may draw on when it starts over. */
  ghost predicate Drawable(root: Loop, all: seq<int>) {
    exists below: seq<Elm> :: Held(root, below, true) && all == Entering(root, 0, below)
  }

  ghost predicate Between(s: seq<int>, a: int, b: int) {
    forall x | x in s :: a <= x < b
  }

  /** All bytes of all such streams are in a..b-1. */
  ghost predicate Contained(root: Loop, a: int, b: int) {
    forall all: seq<int> | Drawable(root, all) :: Between(all, a, b)
  }

  lemma ContainedBetween(root: Loop, all: seq<int>, a: int, b: int)
    requires Contained(root, a, b) && Drawable(root, all)
    ensures Between(all, a, b)
  {
  }

  /** The lowest and the highest byte. */
  function Lowest(root: Loop): int {
    EnterFar(false, root, true)
  }

  function Highest(root: Loop): int {
    EnterFar(true, root, true)
  }

  /** Nothing that can be drawn on lies beyond these two bytes, and both can be. */
  lemma DrawnBetween(root: Loop, all: seq<int>, x: int)
    requires root.WellFormed() && Drawable(root, all) && x in all
    ensures Lowest(root) <= x <= Highest(root)
  {
    var below: seq<Elm> :| Held(root, below, true) && all == Entering(root, 0, below);
    hide Entering, Held, EnterFar, HeldFar;
    EnteringOutermost(true, root, 0, below);
    EnteringOutermost(false, root, 0, below);
    HeldBound(true, root, below, true);
    HeldBound(false, root, below, true);
  }

  lemma FarthestDrawn(up: bool, root: Loop) returns (below: seq<Elm>)
    requires root.WellFormed()
    ensures Held(root, below, true) && EnterFar(up, root, true) in Entering(root, 0, below)
    ensures Drawable(root, Entering(root, 0, below))
  {
    hide Entering, Held, EnterFar, HeldFar;
    below := HeldReached(up, root, true);
    EnteringOutermost(up, root, 0, below);
  }

  /** All that a segment may ever draw on stays in a..b-1 if and only if these two bytes do. */
  lemma ContainedIff(root: Loop, a: int, b: int)
    requires root.WellFormed()
    ensures Contained(root, a, b) <==> a <= Lowest(root) && Highest(root) < b
  {
    hide Drawable, EnterFar, Entering, Held;
    var low := FarthestDrawn(false, root);
    var high := FarthestDrawn(true, root);
    if a <= Lowest(root) && Highest(root) < b {
      forall all: seq<int> | Drawable(root, all) ensures Between(all, a, b) {
        forall x | x in all ensures a <= x < b {
          DrawnBetween(root, all, x);
        }
      }
    }
  }

  /** Loops that can always be reset draw on their byte map alone. */
  lemma DrawsBytes(root: Loop, all: seq<int>)
    requires root.WellFormed() && Resettable(root) && Drawable(root, all)
    ensures all == Bytes(root, 0)
  {
    var below: seq<Elm> :| Held(root, below, true) && all == Entering(root, 0, below);
    if root.Node? {
      UniformNoDisplacement(root.child, below[1..]);
    }
    ResetExact(root, 0, below);
  }

  /** The byte map is always among the streams. */
  lemma BytesDrawable(root: Loop)
    requires root.WellFormed()
    ensures Drawable(root, Bytes(root, 0))
  {
    var below := FreshHeld(root);
    EnteringFresh(root, 0, below);
  }

  lemma {:induction false} FreshHeld(l: Loop) returns (below: seq<Elm>)
    requires l.WellFormed()
    ensures Held(l, below, true) && Fresh(l, below)
    decreases l
  {
    assert l.shape.BlockSize(0) >= 1 && HasBlockSize(l.shape, l.shape.BlockSize(0));
    if l.Node? {
      var rest := FreshHeld(l.child);
      below := [Holding(l, 0)] + rest;
      assert below[1..] == rest;
    } else {
      below := [Holding(l, 0)];
    }
  }
}
