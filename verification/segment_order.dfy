/** The order of a stack that no reset has disturbed: every level carries the size of the block that it is in, and
    lies where the level above has its element in progress. */
module SegmentOrder {
  import opened Dataloops
  import opened SegmentStack

  /** Where the element in progress of a node begins. */
  function InProgress(e: Elm): int {
    e.origOffset + e.loop.shape.Offset(e.Index())
    + (e.loop.shape.BlockSize(e.Index()) - e.curBlock - 1) * e.loop.elExtent
  }

  /** A node carries the size of its block, or of its first block if it is not being processed. */
  ghost predicate RightSize(s: seq<Elm>, sp: int, k: nat)
    requires k < |s|
  {
    s[k].loop.Node? ==> s[k].origBlock == s[k].loop.shape.BlockSize(if k <= sp then s[k].Index() else 0)
  }

  ghost predicate RightPlace(s: seq<Elm>, k: nat)
    requires k + 1 < |s|
  {
    s[k + 1].origOffset == InProgress(s[k])
  }

  ghost predicate Orderly(s: seq<Elm>, sp: int, depth: nat) {
    && depth <= |s| && -1 <= sp < depth
    && (forall k: nat | k < depth :: RightSize(s, sp, k))
    && (forall k: nat | k < sp :: RightPlace(s, k))
  }

  lemma PushKeepsOrder(root: Loop, s: seq<Elm>, sp: nat)
    requires Stack(root, s, sp) && Orderly(s, sp, root.Depth())
    requires s[sp].loop.Node? && s[sp].curBlock > 0
    ensures sp + 1 < root.Depth() && Orderly(Pushed(s, sp), sp + 1, root.Depth())
  {
    hide Orderly, Rest, Fresh;
    PushKeepsStack(root, s, sp);
    TwoLevels(s, sp, root.Depth());
    assert Active(s[sp]);
    NextBaseIs(s[sp]);
    PushedOrder(s, sp, Pushed(s, sp), root.Depth());
  }

  /** What the order says of the level pushed from and the one pushed. */
  lemma TwoLevels(s: seq<Elm>, sp: nat, depth: nat)
    requires Orderly(s, sp, depth) && sp + 1 < depth
    ensures RightSize(s, sp, sp) && RightSize(s, sp, sp + 1)
  {
  }

  lemma PushedOrder(s: seq<Elm>, sp: nat, t: seq<Elm>, depth: nat)
    requires Orderly(s, sp, depth) && sp + 1 < depth && |t| == |s|
    requires t[..sp] == s[..sp] && t[sp + 2..] == s[sp + 2..] && t[sp].origOffset == s[sp].origOffset
    requires RightSize(t, sp + 1, sp) && RightSize(t, sp + 1, sp + 1) && RightPlace(t, sp)
    ensures Orderly(t, sp + 1, depth)
  {
    var next := sp + 1;
    forall k: nat | k < depth ensures RightSize(t, next, k) {
      assert RightSize(s, sp, k);
      if k < sp {
        assert t[..sp][k] == s[..sp][k];
      } else if k > next {
        assert t[sp + 2..][k - sp - 2] == s[sp + 2..][k - sp - 2];
      }
    }
    forall k: nat | k < next ensures RightPlace(t, k) {
      if k < sp {
        assert RightPlace(s, k) && t[..sp][k] == s[..sp][k];
        if k + 1 < sp {
          assert t[..sp][k + 1] == s[..sp][k + 1];
        }
      }
    }
  }

  lemma BlockDoneKeepsOrder(root: Loop, s: seq<Elm>, sp: nat)
    requires Stack(root, s, sp) && Orderly(s, sp, root.Depth()) && s[sp].loop.Node? && s[sp].curCount >= 1
    ensures Orderly(s[sp := BlockDone(s[sp])], if s[sp].curCount == 1 then sp - 1 else sp, root.Depth())
  {
    var e, t := s[sp], s[sp := BlockDone(s[sp])];
    assert Loaded(e, LoopAt(root, sp)) && RightSize(s, sp, sp);
    OneLevel(s, sp, t, if e.curCount == 1 then sp - 1 else sp, root.Depth());
  }

  /** Only the top level changes. */
  lemma OneLevel(s: seq<Elm>, sp: nat, t: seq<Elm>, sp': int, depth: nat)
    requires Orderly(s, sp, depth) && |t| == |s| && (sp' == sp || sp' == sp - 1)
    requires t == s[sp := t[sp]] && t[sp].origOffset == s[sp].origOffset && RightSize(t, sp', sp)
    ensures Orderly(t, sp', depth)
  {
    forall k: nat | k < depth ensures RightSize(t, sp', k) {
      assert RightSize(s, sp, k);
    }
    forall k: nat | k < sp' ensures RightPlace(t, k) {
      assert RightPlace(s, k);
    }
  }

  lemma LeafKeepsOrder(s: seq<Elm>, sp: nat, r: Elm, sp': int, depth: nat)
    requires Orderly(s, sp, depth) && (sp' == sp || sp' == sp - 1)
    requires s[sp].loop.Leaf? && r.loop == s[sp].loop && r.origOffset == s[sp].origOffset
    ensures Orderly(s[sp := r], sp', depth)
  {
    OneLevel(s, sp, s[sp := r], sp', depth);
  }

  lemma {:induction false} FreshAt(l: Loop, below: seq<Elm>, k: nat)
    requires Fresh(l, below) && k < l.Depth() && LoopAt(l, k).Node?
    ensures k < |below| && below[k].origBlock == LoopAt(l, k).shape.BlockSize(0)
    decreases k
  {
    if k > 0 {
      FreshAt(l.child, below[1..], k - 1);
    }
  }

  /** Starting over is orderly when all levels carry the size of their first block. */
  lemma StartKeepsOrder(root: Loop, s: seq<Elm>)
    requires Levels(root, s) && Fresh(root, s)
    ensures Orderly(s[0 := Started(s[0])], 0, root.Depth())
  {
    var t := s[0 := Started(s[0])];
    forall k: nat | k < root.Depth() ensures RightSize(t, 0, k) {
      assert Loaded(s[k], LoopAt(root, k));
      if s[k].loop.Node? {
        FreshAt(root, s, k);
      }
    }
  }

  lemma LoadedOrder(root: Loop, s: seq<Elm>)
    requires root.WellFormed() && root.Depth() <= |s|
    requires forall k: nat | k < root.Depth() :: s[k] == Load(LoopAt(root, k))
    ensures Orderly(s[0 := Started(s[0])], 0, root.Depth())
  {
    LoadedLevels(root, s);
    LoopAtStep(root, 0);
    assert s[0] == Load(LoopAt(root, 0));
    LoadedFresh(root, s);
    StartKeepsOrder(root, s);
  }
}
