/** The reassembly list in memory: nodes in an array, an active chain between two sentinels, and a free chain. */
module ListHeaps {
  import opened Ranges

  const EOL: nat := 0xFFFF_FFFF

  datatype Node = Node(range: Range, next: nat)

  datatype List = List(nodes: seq<Node>, marks: seq<bool>, head: nat, freeHead: nat)

  /* ---------- chains ---------- */

  /** Node k of `path` is linked to the next one, the last one to `end`. */
  ghost predicate Link(nodes: seq<Node>, path: seq<nat>, end: nat, k: nat)
    requires k < |path|
  {
    path[k] < |nodes| && nodes[path[k]].next == (if k + 1 < |path| then path[k + 1] else end)
  }

  ghost predicate Chained(nodes: seq<Node>, path: seq<nat>, end: nat) {
    forall k: nat | k < |path| :: Link(nodes, path, end, k)
  }

  function First(path: seq<nat>, end: nat): nat {
    if path == [] then end else path[0]
  }

  lemma ChainJoin(nodes: seq<Node>, a: seq<nat>, b: seq<nat>, end: nat)
    ensures Chained(nodes, a + b, end) <==> Chained(nodes, a, First(b, end)) && Chained(nodes, b, end)
  {
    var p := a + b;
    assert forall k: nat | k < |a| :: Link(nodes, p, end, k) <==> Link(nodes, a, First(b, end), k);
    forall k: nat | k < |b| ensures Link(nodes, p, end, |a| + k) <==> Link(nodes, b, end, k) {
    }
    if Chained(nodes, a, First(b, end)) && Chained(nodes, b, end) {
      forall k: nat | k < |p| ensures Link(nodes, p, end, k) {
        if k < |a| {
          assert Link(nodes, a, First(b, end), k);
        } else {
          assert Link(nodes, b, end, k - |a|);
        }
      }
    }
  }

  lemma ChainFrame(nodes: seq<Node>, path: seq<nat>, end: nat, n: nat, node: Node)
    requires Chained(nodes, path, end) && n < |nodes| && (n !in path || node.next == nodes[n].next)
    ensures Chained(nodes[n := node], path, end)
  {
    var m := nodes[n := node];
    forall k: nat | k < |path| ensures Link(m, path, end, k) {
      assert Link(nodes, path, end, k);
    }
  }

  lemma ChainOne(nodes: seq<Node>, n: nat, end: nat)
    requires n < |nodes| && nodes[n].next == end
    ensures Chained(nodes, [n], end)
  {
  }

  /* ---------- every node belongs to one place ---------- */

  /** Each of n nodes is in the active chain, in the free chain, or removed and not yet freed. */
  ghost predicate Partition(n: nat, active: seq<nat>, free: seq<nat>, limbo: set<nat>) {
    forall i: nat :: Places(active, free, limbo)[i] == if i < n then 1 else 0
  }

  ghost function Places(active: seq<nat>, free: seq<nat>, limbo: set<nat>): multiset<nat> {
    multiset(active) + multiset(free) + multiset(limbo)
  }

  lemma InPlace(s: seq<nat>, i: nat)
    ensures i in s <==> multiset(s)[i] >= 1
  {
  }

  lemma OnePlace(n: nat, active: seq<nat>, free: seq<nat>, limbo: set<nat>, i: nat)
    requires Partition(n, active, free, limbo)
    ensures i in active ==> i !in free && i !in limbo && i < n
    ensures i in free ==> i !in active && i !in limbo && i < n
    ensures i in limbo ==> i !in active && i !in free && i < n
    ensures i < n ==> i in active || i in free || i in limbo
  {
    assert Places(active, free, limbo)[i] == multiset(active)[i] + multiset(free)[i] + multiset(limbo)[i];
    InPlace(active, i);
    InPlace(free, i);
  }

  /** A node occurs once in its chain. */
  lemma OnceActive(n: nat, active: seq<nat>, free: seq<nat>, limbo: set<nat>, k: nat)
    requires Partition(n, active, free, limbo) && k < |active|
    ensures active[k] !in active[..k] && active[k] !in active[k + 1..]
  {
    var i := active[k];
    assert active == active[..k] + [i] + active[k + 1..];
    assert multiset(active)[i] == multiset(active[..k])[i] + 1 + multiset(active[k + 1..])[i];
    assert Places(active, free, limbo)[i] >= multiset(active)[i];
    OnePlace(n, active, free, limbo, i);
    InPlace(active[..k], i);
    InPlace(active[k + 1..], i);
  }

  lemma SamePosition(n: nat, active: seq<nat>, free: seq<nat>, limbo: set<nat>, j: nat, k: nat)
    requires Partition(n, active, free, limbo) && j < |active| && k < |active| && active[j] == active[k]
    ensures j == k
  {
    OnceActive(n, active, free, limbo, k);
  }

  /* ---------- the list ---------- */

  /** The ranges between the sentinels. */
  ghost function RangesOf(nodes: seq<Node>, active: seq<nat>): seq<Range>
    requires |active| >= 2 && forall k: nat | k < |active| :: active[k] < |nodes|
  {
    seq(|active| - 2, k requires 0 <= k < |active| - 2 => nodes[active[k + 1]].range)
  }

  ghost predicate Sentinels(l: List, active: seq<nat>) {
    && |l.nodes| >= 3 && |l.nodes| < EOL
    && |active| >= 2 && active[0] == l.head == |l.nodes| - 2 && active[|active| - 1] == |l.nodes| - 1
    && l.nodes[|l.nodes| - 2].range == Range(INT32_MIN, INT32_MIN)
    && l.nodes[|l.nodes| - 1].range == Range(INT32_MAX, INT32_MAX)
  }

  ghost predicate Marked(l: List, active: seq<nat>, limbo: set<nat>) {
    && |l.marks| == |l.nodes|
    && (forall k: nat | k < |active| :: active[k] < |l.nodes| && !l.marks[active[k]])
    && (forall n: nat | n in limbo :: n < |l.nodes| && l.marks[n])
  }

  ghost predicate Good(l: List, active: seq<nat>, free: seq<nat>, limbo: set<nat>) {
    && Sentinels(l, active) && Marked(l, active, limbo)
    && Chained(l.nodes, active, EOL) && Chained(l.nodes, free, EOL) && l.freeHead == First(free, EOL)
    && Partition(|l.nodes|, active, free, limbo)
    && Maximal(RangesOf(l.nodes, active))
  }

  lemma Shape(l: List, active: seq<nat>, free: seq<nat>, limbo: set<nat>)
    requires Good(l, active, free, limbo)
    ensures |l.marks| == |l.nodes| < EOL && |active| >= 2
    ensures forall k: nat | k < |active| :: active[k] < |l.nodes|
    ensures |RangesOf(l.nodes, active)| == |active| - 2 && Maximal(RangesOf(l.nodes, active))
  {
  }

  /** Position k of the active chain: what it is linked to, and which range it has. */
  lemma At(l: List, active: seq<nat>, free: seq<nat>, limbo: set<nat>, k: nat)
    requires Good(l, active, free, limbo) && k < |active|
    ensures active[k] < |l.nodes| && !l.marks[active[k]] && active[k] !in free && active[k] !in limbo
    ensures l.nodes[active[k]].next == if k + 1 < |active| then active[k + 1] else EOL
    ensures active[k] == l.head <==> k == 0
    ensures active[k] == |l.nodes| - 1 <==> k == |active| - 1
    ensures 0 < k < |active| - 1 ==> l.nodes[active[k]].range == RangesOf(l.nodes, active)[k - 1]
    ensures 0 < k < |active| - 1 ==> l.nodes[active[k]].range.Proper()
  {
    assert Link(l.nodes, active, EOL, k);
    OnePlace(|l.nodes|, active, free, limbo, active[k]);
    if active[k] == l.head {
      SamePosition(|l.nodes|, active, free, limbo, 0, k);
    }
    if active[k] == |l.nodes| - 1 {
      SamePosition(|l.nodes|, active, free, limbo, |active| - 1, k);
    }
  }

  /** What the head of the free chain says. */
  lemma FreeEnd(l: List, active: seq<nat>, free: seq<nat>, limbo: set<nat>)
    requires Good(l, active, free, limbo)
    ensures l.freeHead == EOL <==> free == []
    ensures free != [] ==> l.freeHead == free[0] < |l.nodes|
  {
    if free != [] {
      assert Link(l.nodes, free, EOL, 0);
    }
  }

  /* ---------- the commits ---------- */

  function SetRange(l: List, n: nat, r: Range): List
    requires n < |l.nodes|
  {
    l.(nodes := l.nodes[n := l.nodes[n].(range := r)])
  }

  function SetNext(l: List, n: nat, next: nat): List
    requires n < |l.nodes|
  {
    l.(nodes := l.nodes[n := l.nodes[n].(next := next)])
  }

  function SetMark(l: List, n: nat, mark: bool): List
    requires n < |l.marks|
  {
    l.(marks := l.marks[n := mark])
  }

  /** lazylist_validate */
  predicate Validate(l: List, pred: nat, curr: nat)
    requires pred < |l.nodes| && pred < |l.marks| && curr < |l.marks|
  {
    !l.marks[pred] && !l.marks[curr] && l.nodes[pred].next == curr
  }

  predicate TouchesLeft(l: List, pred: nat, r: Range)
    requires pred < |l.nodes|
  {
    l.nodes[pred].range.right + 1 == r.left && l.nodes[pred].range.left > INT32_MIN
  }

  predicate TouchesRight(l: List, curr: nat, r: Range)
    requires curr < |l.nodes|
  {
    r.right + 1 == l.nodes[curr].range.left && l.nodes[curr].range.left < INT32_MAX
  }

  /** The locked part of an insertion that needs no new node. `curr` is removed if r joins it to `pred`. */
  function Joined(l: List, pred: nat, curr: nat, r: Range): List
    requires pred < |l.nodes| == |l.marks| && curr < |l.nodes|
  {
    if TouchesLeft(l, pred, r) && TouchesRight(l, curr, r) then
      SetNext(SetMark(SetRange(l, pred, Range(l.nodes[pred].range.left, l.nodes[curr].range.right)), curr, true),
              pred, l.nodes[curr].next)
    else if TouchesLeft(l, pred, r) then SetRange(l, pred, Range(l.nodes[pred].range.left, r.right))
    else if TouchesRight(l, curr, r) then SetRange(l, curr, Range(r.left, l.nodes[curr].range.right))
    else l
  }

  /** A node taken off the free chain and linked in. */
  function Linked(l: List, pred: nat, curr: nat, r: Range): List
    requires pred < |l.nodes| == |l.marks| && l.freeHead < |l.nodes|
  {
    var n := l.freeHead;
    SetNext(SetMark(l, n, false).(nodes := l.nodes[n := Node(r, curr)], freeHead := l.nodes[n].next), pred, n)
  }

  /** lazylist_put_free_node */
  function Freed(l: List, n: nat): List
    requires n < |l.nodes|
  {
    SetNext(l, n, l.freeHead).(freeHead := n)
  }

  /** The locked part of a pop. */
  function Unlinked(l: List, front: nat, next: nat): List
    requires l.head < |l.nodes| && front < |l.marks|
  {
    SetNext(SetMark(l, front, true), l.head, next)
  }

  /* ---------- what they do to a good list ---------- */

  lemma RangesUpdate(nodes: seq<Node>, active: seq<nat>, n: nat, node: Node, k: nat, N: nat, free: seq<nat>,
                     limbo: set<nat>)
    requires |active| >= 2 && 0 < k < |active| - 1 && active[k] == n
    requires forall i: nat | i < |active| :: active[i] < |nodes|
    requires Partition(N, active, free, limbo)
    ensures RangesOf(nodes[n := node], active) == RangesOf(nodes, active)[k - 1 := node.range]
  {
    forall i: nat | i < |active| ensures active[i] == n <==> i == k {
      if active[i] == n {
        SamePosition(N, active, free, limbo, i, k);
      }
    }
  }

  /** A node of the active chain gets another range. */
  lemma SetRangeGood(l: List, active: seq<nat>, free: seq<nat>, limbo: set<nat>, k: nat, r: Range)
    requires Good(l, active, free, limbo) && 0 < k < |active| - 1
    requires Maximal(RangesOf(l.nodes, active)[k - 1 := r])
    ensures active[k] < |l.nodes| && Good(SetRange(l, active[k], r), active, free, limbo)
    ensures RangesOf(SetRange(l, active[k], r).nodes, active) == RangesOf(l.nodes, active)[k - 1 := r]
  {
    At(l, active, free, limbo, k);
    var n := active[k];
    var node := l.nodes[n].(range := r);
    ChainFrame(l.nodes, active, EOL, n, node);
    ChainFrame(l.nodes, free, EOL, n, node);
    RangesUpdate(l.nodes, active, n, node, k, |l.nodes|, free, limbo);
  }

  /* ---------- linking and unlinking ---------- */

  lemma SplitAt(active: seq<nat>, k: nat)
    requires k < |active|
    ensures active == active[..k] + [active[k]] + active[k + 1..]
    ensures active == active[..k + 1] + active[k + 1..]
    ensures active[..k + 1] == active[..k] + [active[k]]
  {
  }

  /** The chain up to position k, linked to another node after it. */
  lemma Redirect(l: List, active: seq<nat>, free: seq<nat>, limbo: set<nat>, k: nat, next: nat)
    requires Good(l, active, free, limbo) && k < |active|
    ensures active[k] < |l.nodes|
    ensures Chained(SetNext(l, active[k], next).nodes, active[..k + 1], next)
    ensures Chained(SetNext(l, active[k], next).nodes, free, EOL)
    ensures Chained(SetNext(l, active[k], next).nodes, active[k + 1..], EOL)
  {
    At(l, active, free, limbo, k);
    OnceActive(|l.nodes|, active, free, limbo, k);
    SplitAt(active, k);
    var n, m := active[k], SetNext(l, active[k], next);
    ChainJoin(l.nodes, active[..k + 1], active[k + 1..], EOL);
    ChainJoin(l.nodes, active[..k], [n], First(active[k + 1..], EOL));
    ChainFrame(l.nodes, active[..k], n, n, m.nodes[n]);
    ChainFrame(l.nodes, active[k + 1..], EOL, n, m.nodes[n]);
    ChainFrame(l.nodes, free, EOL, n, m.nodes[n]);
    ChainOne(m.nodes, n, next);
    ChainJoin(m.nodes, active[..k], [n], next);
  }

  function Without(active: seq<nat>, k: nat): seq<nat>
    requires k < |active|
  {
    active[..k] + active[k + 1..]
  }

  lemma RemovedPartition(N: nat, active: seq<nat>, free: seq<nat>, limbo: set<nat>, k: nat)
    requires Partition(N, active, free, limbo) && k < |active|
    ensures Partition(N, Without(active, k), free, limbo + {active[k]})
  {
    SplitAt(active, k);
    OnePlace(N, active, free, limbo, active[k]);
    assert multiset(limbo + {active[k]}) == multiset(limbo) + multiset{active[k]};
    assert Places(Without(active, k), free, limbo + {active[k]}) == Places(active, free, limbo);
  }

  /** The node at position k is marked, and the one before it linked to the one after it. */
  lemma RemoveGood(l: List, active: seq<nat>, free: seq<nat>, limbo: set<nat>, k: nat)
    requires Good(l, active, free, limbo) && 0 < k < |active| - 1
    requires Maximal(RangesOf(l.nodes, active)[..k - 1] + RangesOf(l.nodes, active)[k..])
    ensures active[k] < |l.nodes| && active[k - 1] < |l.nodes|
    ensures var m := SetNext(SetMark(l, active[k], true), active[k - 1], active[k + 1]);
      && Good(m, Without(active, k), free, limbo + {active[k]})
      && RangesOf(m.nodes, Without(active, k)) == RangesOf(l.nodes, active)[..k - 1] + RangesOf(l.nodes, active)[k..]
  {
    At(l, active, free, limbo, k);
    At(l, active, free, limbo, k - 1);
    var m := SetNext(SetMark(l, active[k], true), active[k - 1], active[k + 1]);
    var w := Without(active, k);
    RemovedPartition(|l.nodes|, active, free, limbo, k);
    Redirect(l, active, free, limbo, k - 1, active[k + 1]);
    ChainJoin(m.nodes, [active[k]], active[k + 1..], EOL);
    assert active[k..] == [active[k]] + active[k + 1..];
    ChainJoin(m.nodes, active[..k], active[k + 1..], EOL);
    RemovedMarks(l, active, free, limbo, k);
    assert RangesOf(m.nodes, w) == RangesOf(l.nodes, active)[..k - 1] + RangesOf(l.nodes, active)[k..];
  }

  lemma RemovedMarks(l: List, active: seq<nat>, free: seq<nat>, limbo: set<nat>, k: nat)
    requires Good(l, active, free, limbo) && k < |active|
    ensures active[k] < |l.marks| && Marked(SetMark(l, active[k], true), Without(active, k), limbo + {active[k]})
  {
    At(l, active, free, limbo, k);
    OnceActive(|l.nodes|, active, free, limbo, k);
    var w := Without(active, k);
    forall i: nat | i < |w| ensures w[i] < |l.nodes| && w[i] != active[k] && !l.marks[w[i]] {
      if i < k {
        assert w[i] == active[i] && active[i] in active[..k];
      } else {
        assert w[i] == active[i + 1] && active[i + 1] in active[k + 1..];
      }
    }
  }

  function With(active: seq<nat>, k: nat, n: nat): seq<nat>
    requires k < |active|
  {
    active[..k + 1] + [n] + active[k + 1..]
  }

  lemma AddedPartition(N: nat, active: seq<nat>, free: seq<nat>, limbo: set<nat>, k: nat)
    requires Partition(N, active, free, limbo) && k < |active| && free != []
    ensures Partition(N, With(active, k, free[0]), free[1..], limbo)
  {
    SplitAt(active, k);
    assert free == [free[0]] + free[1..];
    assert Places(With(active, k, free[0]), free[1..], limbo) == Places(active, free, limbo);
  }

  /** The new node is linked in after position k. */
  lemma AddedChain(l: List, active: seq<nat>, free: seq<nat>, limbo: set<nat>, k: nat, r: Range)
    requires Good(l, active, free, limbo) && k < |active| - 1 && free != []
    ensures active[k] < |l.nodes| && l.freeHead == free[0] < |l.nodes|
    ensures var m := Linked(l, active[k], active[k + 1], r);
      && Chained(m.nodes, With(active, k, free[0]), EOL)
      && Chained(m.nodes, free[1..], EOL) && m.freeHead == First(free[1..], EOL)
  {
    At(l, active, free, limbo, k);
    var n := free[0];
    assert Link(l.nodes, free, EOL, 0);
    FreshNode(|l.nodes|, active, free, limbo);
    var m := Linked(l, active[k], active[k + 1], r);
    Redirect(l, active, free, limbo, k, n);
    ChainJoin(SetNext(l, active[k], n).nodes, [n], free[1..], EOL);
    assert free == [n] + free[1..];
    var mid := SetNext(l, active[k], n).nodes;
    assert m.nodes == mid[n := Node(r, active[k + 1])];
    ChainFrame(mid, active[..k + 1], n, n, Node(r, active[k + 1]));
    ChainFrame(mid, active[k + 1..], EOL, n, Node(r, active[k + 1]));
    ChainFrame(mid, free[1..], EOL, n, Node(r, active[k + 1]));
    ChainOne(m.nodes, n, active[k + 1]);
    ChainJoin(m.nodes, [n], active[k + 1..], EOL);
    ChainJoin(m.nodes, active[..k + 1], [n] + active[k + 1..], EOL);
    assert active[..k + 1] + ([n] + active[k + 1..]) == With(active, k, n);
  }

  lemma FreshNode(N: nat, active: seq<nat>, free: seq<nat>, limbo: set<nat>)
    requires Partition(N, active, free, limbo) && free != []
    ensures free[0] !in active && free[0] !in limbo && free[0] !in free[1..] && free[0] < N
  {
    OnePlace(N, active, free, limbo, free[0]);
    assert free == [free[0]] + free[1..];
    assert Places(active, free, limbo)[free[0]] >= multiset(free)[free[0]] == 1 + multiset(free[1..])[free[0]];
    InPlace(free[1..], free[0]);
  }

  /** The nodes that an insertion stores into are different ones. */
  lemma Different(l: List, active: seq<nat>, free: seq<nat>, limbo: set<nat>, k: nat)
    requires Good(l, active, free, limbo) && k + 1 < |active|
    ensures active[k] != active[k + 1] && (free != [] ==> free[0] != active[k])
  {
    OnceActive(|l.nodes|, active, free, limbo, k + 1);
    assert active[k] in active[..k + 1];
    if free != [] {
      FreshNode(|l.nodes|, active, free, limbo);
    }
  }

  lemma LinkGood(l: List, active: seq<nat>, free: seq<nat>, limbo: set<nat>, k: nat, r: Range)
    requires Good(l, active, free, limbo) && k < |active| - 1 && free != []
    requires Maximal(RangesOf(l.nodes, active)[..k] + [r] + RangesOf(l.nodes, active)[k..])
    ensures active[k] < |l.nodes| && l.freeHead == free[0] < |l.nodes|
    ensures var m := Linked(l, active[k], active[k + 1], r);
      && Good(m, With(active, k, free[0]), free[1..], limbo)
      && RangesOf(m.nodes, With(active, k, free[0]))
         == RangesOf(l.nodes, active)[..k] + [r] + RangesOf(l.nodes, active)[k..]
  {
    AddedChain(l, active, free, limbo, k, r);
    AddedPartition(|l.nodes|, active, free, limbo, k);
    FreshNode(|l.nodes|, active, free, limbo);
    var n, w := free[0], With(active, k, free[0]);
    var m := Linked(l, active[k], active[k + 1], r);
    AddedNodes(l, active, free, limbo, k, r);
    hide Maximal, Chained, Partition;
    assert RangesOf(m.nodes, w) == RangesOf(l.nodes, active)[..k] + [r] + RangesOf(l.nodes, active)[k..];
  }

  lemma AddedNodes(l: List, active: seq<nat>, free: seq<nat>, limbo: set<nat>, k: nat, r: Range)
    requires Good(l, active, free, limbo) && k < |active| - 1 && free != []
    ensures active[k] < |l.nodes| && l.freeHead == free[0] < |l.nodes|
    ensures var m, w := Linked(l, active[k], active[k + 1], r), With(active, k, free[0]);
      && Sentinels(m, w) && Marked(m, w, limbo) && m.nodes[free[0]].range == r
      && (forall i: nat | i < |active| :: active[i] < |l.nodes| && m.nodes[active[i]].range == l.nodes[active[i]].range)
  {
    FreshNode(|l.nodes|, active, free, limbo);
    At(l, active, free, limbo, 0);
    At(l, active, free, limbo, |active| - 1);
    At(l, active, free, limbo, k);
    var m, w, n := Linked(l, active[k], active[k + 1], r), With(active, k, free[0]), free[0];
    assert active[0] != n && active[|active| - 1] != n;
    forall i: nat | i < |w| ensures w[i] < |l.nodes| && !m.marks[w[i]] {
      if i != k + 1 {
        assert w[i] == active[if i <= k then i else i - 1];
      }
    }
  }

  /* ---------- freeing ---------- */

  lemma FreedPartition(N: nat, active: seq<nat>, free: seq<nat>, limbo: set<nat>, n: nat)
    requires Partition(N, active, free, limbo) && n in limbo
    ensures Partition(N, active, [n] + free, limbo - {n})
  {
    assert multiset(limbo) == multiset(limbo - {n}) + multiset{n};
    assert Places(active, [n] + free, limbo - {n}) == Places(active, free, limbo);
  }

  lemma FreeGood(l: List, active: seq<nat>, free: seq<nat>, limbo: set<nat>, n: nat)
    requires Good(l, active, free, limbo) && n in limbo
    ensures n < |l.nodes| && Good(Freed(l, n), active, [n] + free, limbo - {n})
    ensures RangesOf(Freed(l, n).nodes, active) == RangesOf(l.nodes, active)
  {
    OnePlace(|l.nodes|, active, free, limbo, n);
    FreedPartition(|l.nodes|, active, free, limbo, n);
    var m := Freed(l, n);
    ChainFrame(l.nodes, active, EOL, n, m.nodes[n]);
    ChainFrame(l.nodes, free, EOL, n, m.nodes[n]);
    ChainOne(m.nodes, n, First(free, EOL));
    ChainJoin(m.nodes, [n], free, EOL);
    assert RangesOf(m.nodes, active) == RangesOf(l.nodes, active);
  }

  /* ---------- insertion between neighbours ---------- */

  lemma TouchesConnects(l: List, active: seq<nat>, free: seq<nat>, limbo: set<nat>, k: nat, r: Range)
    requires Good(l, active, free, limbo) && k + 1 < |active| && r.Proper()
    ensures active[k] < |l.nodes| && active[k + 1] < |l.nodes|
    ensures TouchesLeft(l, active[k], r) <==> ConnectsLeft(RangesOf(l.nodes, active), k, r)
    ensures TouchesRight(l, active[k + 1], r) <==> ConnectsRight(RangesOf(l.nodes, active), k, r)
    ensures l.nodes[active[k + 1]].next == if k + 2 < |active| then active[k + 2] else EOL
  {
    At(l, active, free, limbo, k);
    At(l, active, free, limbo, k + 1);
  }

  /** r joins two ranges: the second node goes, the first one gets both. */
  lemma JoinBoth(l: List, active: seq<nat>, free: seq<nat>, limbo: set<nat>, k: nat, r: Range)
    requires Good(l, active, free, limbo) && k + 1 < |active| && Fits(RangesOf(l.nodes, active), k, r)
    requires active[k] < |l.nodes| && active[k + 1] < |l.nodes|
    requires TouchesLeft(l, active[k], r) && TouchesRight(l, active[k + 1], r)
    ensures var m := Joined(l, active[k], active[k + 1], r);
      && Good(m, Without(active, k + 1), free, limbo + {active[k + 1]})
      && RangesOf(m.nodes, Without(active, k + 1)) == Inserted(RangesOf(l.nodes, active), k, r)
  {
    var rs := RangesOf(l.nodes, active);
    TouchesConnects(l, active, free, limbo, k, r);
    At(l, active, free, limbo, k);
    At(l, active, free, limbo, k + 1);
    InsertedMaximal(rs, k, r);
    DropMaximal(rs, k);
    RemoveGood(l, active, free, limbo, k + 1);
    var m := SetNext(SetMark(l, active[k + 1], true), active[k], active[k + 2]);
    var w := Without(active, k + 1);
    var r2 := Range(rs[k - 1].left, rs[k].right);
    assert w[k] == active[k];
    assert (rs[..k] + rs[k + 1..])[k - 1 := r2] == Inserted(rs, k, r);
    SetRangeGood(m, w, free, limbo + {active[k + 1]}, k, r2);
    assert SetRange(m, active[k], r2) == Joined(l, active[k], active[k + 1], r);
  }

  lemma DropMaximal(rs: seq<Range>, k: nat)
    requires Maximal(rs) && k < |rs|
    ensures Maximal(rs[..k] + rs[k + 1..])
  {
    var t := rs[..k] + rs[k + 1..];
    forall i: nat | i + 1 < |t| ensures t[i].right + 1 < t[i + 1].left {
      Ascending(rs, if i < k then i else i + 1, if i + 1 < k then i + 1 else i + 2);
    }
  }

  /** r extends one of its neighbours. */
  lemma JoinOne(l: List, active: seq<nat>, free: seq<nat>, limbo: set<nat>, k: nat, r: Range)
    requires Good(l, active, free, limbo) && k + 1 < |active| && Fits(RangesOf(l.nodes, active), k, r)
    requires active[k] < |l.nodes| && active[k + 1] < |l.nodes|
    requires TouchesLeft(l, active[k], r) != TouchesRight(l, active[k + 1], r)
    ensures var m := Joined(l, active[k], active[k + 1], r);
      && Good(m, active, free, limbo)
      && RangesOf(m.nodes, active) == Inserted(RangesOf(l.nodes, active), k, r)
  {
    hide Good, Maximal, RangesOf;
    Shape(l, active, free, limbo);
    var rs := RangesOf(l.nodes, active);
    TouchesConnects(l, active, free, limbo, k, r);
    At(l, active, free, limbo, k);
    At(l, active, free, limbo, k + 1);
    InsertedMaximal(rs, k, r);
    if TouchesLeft(l, active[k], r) {
      SetRangeGood(l, active, free, limbo, k, Range(rs[k - 1].left, r.right));
    } else {
      SetRangeGood(l, active, free, limbo, k + 1, Range(r.left, rs[k].right));
    }
  }

  /** r gets a node of its own. */
  lemma LinkNew(l: List, active: seq<nat>, free: seq<nat>, limbo: set<nat>, k: nat, r: Range)
    requires Good(l, active, free, limbo) && k + 1 < |active| && Fits(RangesOf(l.nodes, active), k, r)
    requires active[k] < |l.nodes| && active[k + 1] < |l.nodes| && free != []
    requires !TouchesLeft(l, active[k], r) && !TouchesRight(l, active[k + 1], r)
    ensures l.freeHead == free[0] < |l.nodes|
    ensures var m := Linked(l, active[k], active[k + 1], r);
      && Good(m, With(active, k, free[0]), free[1..], limbo)
      && RangesOf(m.nodes, With(active, k, free[0])) == Inserted(RangesOf(l.nodes, active), k, r)
  {
    TouchesConnects(l, active, free, limbo, k, r);
    InsertedMaximal(RangesOf(l.nodes, active), k, r);
    LinkGood(l, active, free, limbo, k, r);
  }

  /** The first range is taken out. */
  lemma PopGood(l: List, active: seq<nat>, free: seq<nat>, limbo: set<nat>)
    requires Good(l, active, free, limbo) && |active| > 2
    ensures l.head < |l.nodes| && active[1] < |l.nodes| && l.nodes[active[1]].range == RangesOf(l.nodes, active)[0]
    ensures var m := Unlinked(l, active[1], active[2]);
      && Good(m, Without(active, 1), free, limbo + {active[1]})
      && RangesOf(m.nodes, Without(active, 1)) == RangesOf(l.nodes, active)[1..]
  {
    At(l, active, free, limbo, 1);
    var rs := RangesOf(l.nodes, active);
    PoppedCovers(rs, 0);
    assert rs[..0] + rs[1..] == rs[1..];
    RemoveGood(l, active, free, limbo, 1);
  }

  /** Nodes are neither lost nor gained. */
  lemma NodeCount(l: List, active: seq<nat>, free: seq<nat>, limbo: set<nat>)
    requires Good(l, active, free, limbo)
    ensures |RangesOf(l.nodes, active)| + |free| + |limbo| == |l.nodes| - 2
  {
    var all := Places(active, free, limbo);
    AllPlaces(all, |l.nodes|);
    assert |all| == |active| + |free| + |limbo|;
  }

  lemma {:induction false} AllPlaces(all: multiset<nat>, n: nat)
    requires forall i: nat :: all[i] == if i < n then 1 else 0
    ensures |all| == n
    decreases n
  {
    if n > 0 {
      AllPlaces(all - multiset{n - 1}, n - 1);
    } else {
      assert all == multiset{};
    }
  }
}
