/** The reassembly list used by one thread at a time. */
module LazyLists {
  import opened Ranges
  import opened ListHeaps

  const RANGE_START_ANY: int := -1

  /** A byte of r is in one of the ranges. */
  ghost predicate Overlaps(rs: seq<Range>, r: Range) {
    exists x: int :: r.Has(x) && Covers(rs, x)
  }

  /** A byte next to r is in one of the ranges. */
  ghost predicate Touches(rs: seq<Range>, r: Range) {
    Covers(rs, r.left - 1) || Covers(rs, r.right + 1)
  }

  /** Between neighbours with room for r there is no overlap, and r touches what its neighbours touch. */
  lemma FitsMeans(rs: seq<Range>, k: nat, r: Range)
    requires Maximal(rs) && Fits(rs, k, r)
    ensures !Overlaps(rs, r)
    ensures Touches(rs, r) <==> ConnectsLeft(rs, k, r) || ConnectsRight(rs, k, r)
  {
    forall x: int, i: nat | i < |rs| && rs[i].Has(x)
      ensures !r.Has(x) && (i < k ==> x < r.left) && (i >= k ==> x > r.right)
      ensures x == r.left - 1 ==> ConnectsLeft(rs, k, r)
      ensures x == r.right + 1 ==> ConnectsRight(rs, k, r)
    {
      if i < k - 1 {
        Ascending(rs, i, k - 1);
      } else if i > k {
        Ascending(rs, k, i);
      }
    }
    if ConnectsLeft(rs, k, r) {
      assert rs[k - 1].Has(r.left - 1);
    }
    if ConnectsRight(rs, k, r) {
      assert rs[k].Has(r.right + 1);
    }
  }

  class LazyList {
    const nodes: array<Node>
    const marks: array<bool>
    const headIdx: nat
    var freeHeadIdx: nat
    ghost var active: seq<nat>  // the chain from the left to the right sentinel
    ghost var free: seq<nat>    // the free chain

    ghost function Snap(): List
      reads this, nodes, marks
    {
      List(nodes[..], marks[..], headIdx, freeHeadIdx)
    }

    ghost predicate Valid()
      reads this, nodes, marks
    {
      Good(Snap(), active, free, {})
    }

    ghost function Ranges(): seq<Range>
      requires Valid()
      reads this, nodes, marks
    {
      RangesOf(nodes[..], active)
    }

    lemma RangesMaximal()
      requires Valid()
      ensures Maximal(Ranges())
    {
    }

    /** lazylist_init */
    constructor (capacity: nat)
      requires 3 <= capacity < EOL
      ensures Valid() && Ranges() == [] && nodes.Length == capacity
      ensures fresh(nodes) && fresh(marks)
    {
      var actual := capacity - 2;
      var ns := new Node[capacity](_ => Node(Range(0, 0), EOL));
      var ms := new bool[capacity](_ => false);
      for i := 0 to actual
        invariant forall k: nat | k < i :: ns[k].next == k + 1
        invariant forall k: nat | k < capacity :: !ms[k]
      {
        ns[i] := Node(Range(0, 0), i + 1);
        ms[i] := false;
      }
      ns[actual - 1] := ns[actual - 1].(next := EOL);
      ns[actual] := Node(Range(INT32_MIN, INT32_MIN), actual + 1);
      ns[actual + 1] := Node(Range(INT32_MAX, INT32_MAX), EOL);
      nodes, marks, headIdx, freeHeadIdx := ns, ms, actual, 0;
      active := [actual, actual + 1];
      free := UpTo(actual);
      new;
      InitialGood(nodes[..], marks[..], actual);
    }

    method StoreRange(n: nat, r: Range)
      requires n < nodes.Length
      modifies nodes
      ensures Snap() == SetRange(old(Snap()), n, r)
    {
      nodes[n] := nodes[n].(range := r);
    }

    method StoreNext(n: nat, next: nat)
      requires n < nodes.Length
      modifies nodes
      ensures Snap() == SetNext(old(Snap()), n, next)
    {
      nodes[n] := nodes[n].(next := next);
    }

    method StoreMark(n: nat, mark: bool)
      requires n < marks.Length
      modifies marks
      ensures Snap() == SetMark(old(Snap()), n, mark)
    {
      marks[n] := mark;
    }

    /** lazylist_get_free_node, with the test of the variant with load-reserved and store-conditional. */
    method GetFreeNode() returns (res: bool, node: nat)
      requires Valid()
      modifies this`freeHeadIdx
      ensures res <==> old(free) != []
      ensures !res ==> freeHeadIdx == old(freeHeadIdx)
      ensures res ==> node == old(free[0]) == old(freeHeadIdx) < nodes.Length
      ensures res ==> freeHeadIdx == old(nodes[free[0]].next)
    {
      node := freeHeadIdx;
      if freeHeadIdx == EOL {
        FreeEnd(Snap(), active, free, {});
        return false, node;
      }
      FreeEnd(Snap(), active, free, {});
      freeHeadIdx := nodes[node].next;
      res := true;
    }

    /** lazylist_put_free_node, for a node that was removed. */
    method PutFreeNode(node: nat)
      requires Good(Snap(), active, free, {node}) && node < nodes.Length
      modifies this`freeHeadIdx, this`free, nodes
      ensures Valid() && active == old(active)
      ensures Ranges() == old(RangesOf(nodes[..], active)) && free == [node] + old(free)
    {
      FreeGood(Snap(), active, free, {node}, node);
      assert {node} - {node} == {};
      ghost var m := Freed(Snap(), node);
      StoreNext(node, freeHeadIdx);
      freeHeadIdx := node;
      free := [node] + free;
      assert Snap() == m;
    }

    /** lazylist_find_pred: neighbours with room for r, unless r overlaps. */
    method FindPred(r: Range) returns (res: bool, pred: nat, curr: nat, ghost k: nat)
      requires Valid() && r.Proper()
      ensures res <==> !Overlaps(Ranges(), r)
      ensures res ==> k + 1 < |active| && pred == active[k] && curr == active[k + 1] && Fits(Ranges(), k, r)
    {
      hide Partition, Maximal, Marked, Chained;
      Shape(Snap(), active, free, {});
      curr := headIdx;
      pred := curr;
      ghost var at := 0;
      At(Snap(), active, free, {}, 0);
      while nodes[curr].range.right < r.left
        invariant at < |active| && curr == active[at] < nodes.Length
        invariant pred == if at == 0 then curr else active[at - 1]
        invariant at > 0 ==> nodes[active[at - 1]].range.right < r.left
        invariant at > 0 && at < |active| - 1 ==> nodes[curr].range == Ranges()[at - 1]
        decreases |active| - at
      {
        At(Snap(), active, free, {}, at);
        pred := curr;
        curr := nodes[curr].next;
        at := at + 1;
        At(Snap(), active, free, {}, at);
      }
      k := at - 1;
      At(Snap(), active, free, {}, at);
      At(Snap(), active, free, {}, k);
      if nodes[curr].range.left <= r.right {
        ghost var x := if nodes[curr].range.left <= r.left then r.left else nodes[curr].range.left;
        assert Ranges()[at - 1].Has(x) && r.Has(x);
        return false, pred, curr, k;
      }
      FitsMeans(Ranges(), k, r);
      res := true;
    }

    /** The locked section of lazylist_insert. `gone` is a node to be freed afterwards, if any. */
    method Commit(r: Range, pred: nat, curr: nat, ghost k: nat) returns (error: nat, gone: nat)
      requires Valid() && k + 1 < |active| && pred == active[k] && curr == active[k + 1]
      requires Fits(Ranges(), k, r) && pred < nodes.Length && curr < nodes.Length
      modifies this`freeHeadIdx, this`active, this`free, nodes, marks
      ensures Good(Snap(), active, free, if gone == EOL then {} else {gone})
      ensures gone != EOL ==> gone < nodes.Length && error == 0
      ensures error == if !Touches(old(Ranges()), r) && old(free) == [] then 1 else 0
      ensures RangesOf(nodes[..], active)
           == if error == 1 then old(Ranges()) else Inserted(old(Ranges()), k, r)
    {
      hide Good, Joined, Inserted;
      Shape(Snap(), active, free, {});
      Different(Snap(), active, free, {}, k);
      FitsMeans(Ranges(), k, r);
      TouchesConnects(Snap(), active, free, {}, k, r);
      assert {} + {curr} == {curr};
      error, gone := 0, EOL;
      var connectsLeft := nodes[pred].range.right + 1 == r.left && nodes[pred].range.left > INT32_MIN;
      var connectsRight := r.right + 1 == nodes[curr].range.left && nodes[curr].range.left < INT32_MAX;
      if connectsLeft && connectsRight {
        JoinBoth(Snap(), active, free, {}, k, r);
        active := Without(active, k + 1);
        gone := curr;
        CommitBoth(r, pred, curr);
      } else if connectsLeft || connectsRight {
        CommitOne(r, pred, curr, k);
      } else {
        error := CommitNew(r, pred, curr, k);
      }
    }

    method CommitOne(r: Range, pred: nat, curr: nat, ghost k: nat)
      requires Valid() && k + 1 < |active| && pred == active[k] && curr == active[k + 1]
      requires Fits(Ranges(), k, r) && pred < nodes.Length == marks.Length && curr < nodes.Length
      requires TouchesLeft(Snap(), pred, r) != TouchesRight(Snap(), curr, r)
      modifies nodes
      ensures Valid() && Ranges() == Inserted(old(Ranges()), k, r)
    {
      hide Good, Inserted;
      JoinOne(Snap(), active, free, {}, k, r);
      if nodes[pred].range.right + 1 == r.left && nodes[pred].range.left > INT32_MIN {
        StoreRange(pred, Range(nodes[pred].range.left, r.right));
      } else {
        StoreRange(curr, Range(r.left, nodes[curr].range.right));
      }
    }

    method CommitNew(r: Range, pred: nat, curr: nat, ghost k: nat) returns (error: nat)
      requires Valid() && k + 1 < |active| && pred == active[k] && curr == active[k + 1]
      requires Fits(Ranges(), k, r) && pred < nodes.Length == marks.Length && curr < nodes.Length
      requires !TouchesLeft(Snap(), pred, r) && !TouchesRight(Snap(), curr, r)
      modifies this`freeHeadIdx, this`active, this`free, nodes, marks
      ensures Valid() && error == if old(free) == [] then 1 else 0
      ensures Ranges() == if error == 1 then old(Ranges()) else Inserted(old(Ranges()), k, r)
    {
      hide Good, Inserted, With, Linked, Fits;
      ghost var l, f := Snap(), free;
      Different(l, active, free, {}, k);
      if f != [] {
        LinkNew(l, active, f, {}, k, r);
      }
      error := 0;
      var got, n := GetFreeNode();
      if !got {
        error := 1;
      } else {
        CommitLink(n, r, pred, curr, l);
        active := With(active, k, n);
        free := f[1..];
      }
    }

    method CommitBoth(r: Range, pred: nat, curr: nat)
      requires pred < nodes.Length == marks.Length && curr < nodes.Length && pred != curr
      requires TouchesLeft(Snap(), pred, r) && TouchesRight(Snap(), curr, r)
      modifies nodes, marks
      ensures Snap() == Joined(old(Snap()), pred, curr, r)
    {
      StoreRange(pred, Range(nodes[pred].range.left, nodes[curr].range.right));
      StoreMark(curr, true);
      StoreNext(pred, nodes[curr].next);
    }

    method CommitLink(n: nat, r: Range, pred: nat, curr: nat, ghost l: List)
      requires n < nodes.Length == marks.Length && pred < nodes.Length && n == l.freeHead && pred != n
      requires l.nodes == nodes[..] && Snap() == l.(freeHead := l.nodes[n].next)
      modifies nodes, marks
      ensures Snap() == Linked(l, pred, curr, r)
    {
      StoreRange(n, r);
      StoreMark(n, false);
      StoreNext(n, curr);
      StoreNext(pred, n);
    }

    /** Every node index is in exactly one of the two chains; so the list is full if there is no free node. */
    lemma FullWhen()
      requires Valid()
      ensures |Ranges()| + |free| == nodes.Length - 2
      ensures free == [] <==> |Ranges()| == nodes.Length - 2
    {
      NodeCount(Snap(), active, free, {});
    }

    /** lazylist_insert. An overlapping range is refused without an error code; a range that needs a node is
        refused with one if the list is full. Otherwise exactly the bytes of r are added. */
    method Insert(r: Range) returns (error: nat)
      requires Valid() && r.Proper()
      modifies this`freeHeadIdx, this`active, this`free, nodes, marks
      ensures Valid()
      ensures error == if !Overlaps(old(Ranges()), r) && !Touches(old(Ranges()), r)
                          && |old(Ranges())| == nodes.Length - 2 then 1 else 0
      ensures forall x: int :: Covers(Ranges(), x) <==>
                Covers(old(Ranges()), x) || (!Overlaps(old(Ranges()), r) && error == 0 && r.Has(x))
    {
      var gone := EOL;
      ghost var before := Ranges();
      FullWhen();
      var res, pred, curr, k := FindPred(r);
      if !res {
        return 0;
      }
      At(Snap(), active, free, {}, k);
      At(Snap(), active, free, {}, k + 1);
      assert Validate(Snap(), pred, curr);
      forall x: int ensures Covers(Inserted(before, k, r), x) <==> Covers(before, x) || r.Has(x) {
        InsertedCovers(before, k, r, x);
      }
      error, gone := Commit(r, pred, curr, k);
      if gone != EOL {
        PutFreeNode(gone);
      }
    }

    /** lazylist_pop_front: removes exactly the first range. */
    method PopFront(rangeLeft: int) returns (res: bool, range: Range)
      requires Valid()
      modifies this`freeHeadIdx, this`active, this`free, nodes, marks
      ensures Valid()
      ensures res <==> old(Ranges()) != [] && (rangeLeft == RANGE_START_ANY || old(Ranges())[0].left == rangeLeft)
      ensures !res ==> Ranges() == old(Ranges())
      ensures res ==> range == old(Ranges())[0] && Ranges() == old(Ranges())[1..]
    {
      range := Range(0, 0);
      At(Snap(), active, free, {}, 0);
      var front := nodes[headIdx].next;
      At(Snap(), active, free, {}, 1);
      if nodes[front].range.left == INT32_MAX {
        return false, range;
      }
      if rangeLeft != RANGE_START_ANY && nodes[front].range.left != rangeLeft {
        return false, range;
      }
      var frontNext := nodes[front].next;
      At(Snap(), active, free, {}, 2);
      assert Validate(Snap(), front, frontNext);
      PopGood(Snap(), active, free, {});
      assert {} + {front} == {front};
      range := nodes[front].range;
      StoreMark(front, true);
      StoreNext(headIdx, frontNext);
      active := Without(active, 1);
      PutFreeNode(front);
      res := true;
    }
  }

  function UpTo(n: nat): (s: seq<nat>)
    ensures |s| == n && forall k: nat | k < n :: s[k] == k
  {
    if n == 0 then [] else UpTo(n - 1) + [n - 1]
  }

  lemma InitialGood(nodes: seq<Node>, marks: seq<bool>, actual: nat)
    requires actual >= 1 && |nodes| == |marks| == actual + 2 < EOL
    requires forall k: nat | k < actual :: nodes[k].next == if k + 1 < actual then k + 1 else EOL
    requires forall k: nat | k < actual + 2 :: !marks[k]
    requires nodes[actual] == Node(Range(INT32_MIN, INT32_MIN), actual + 1)
    requires nodes[actual + 1] == Node(Range(INT32_MAX, INT32_MAX), EOL)
    ensures Good(List(nodes, marks, actual, 0), [actual, actual + 1], UpTo(actual), {})
  {
    InitialPlaces(actual);
    InitialFree(nodes, actual);
    hide Places;
    assert Link(nodes, [actual, actual + 1], EOL, 0) && Link(nodes, [actual, actual + 1], EOL, 1);
  }

  lemma InitialPlaces(actual: nat)
    ensures Partition(actual + 2, [actual, actual + 1], UpTo(actual), {})
  {
    var p := Places([actual, actual + 1], UpTo(actual), {});
    forall i: nat ensures p[i] == if i < actual + 2 then 1 else 0 {
      UpToOnce(actual, i);
    }
  }

  lemma InitialFree(nodes: seq<Node>, actual: nat)
    requires actual >= 1 && actual <= |nodes|
    requires forall k: nat | k < actual :: nodes[k].next == if k + 1 < actual then k + 1 else EOL
    ensures Chained(nodes, UpTo(actual), EOL) && First(UpTo(actual), EOL) == 0
  {
    var s := UpTo(actual);
    forall k: nat | k < |s| ensures Link(nodes, s, EOL, k) {
    }
  }

  lemma {:induction false} UpToOnce(n: nat, i: nat)
    ensures multiset(UpTo(n))[i] == if i < n then 1 else 0
    decreases n
  {
    if n > 0 {
      UpToOnce(n - 1, i);
    }
  }
}
