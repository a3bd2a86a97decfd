/** Every run of the threads is safe, whatever the interleaving. */
module ListRuns {
  import opened Ranges
  import opened ListHeaps
  import opened ListThreads
  import opened ListCommits

  /* ---------- whole runs ---------- */

  /** An empty list, and no thread running. */
  ghost predicate Initial(s: State) {
    && Good(s.l, s.active, s.free, {}) && |s.active| == 2 && s.limbo == map[]
    && (forall t: Tid | t < |s.threads| :: s.threads[t].Idle?)
    && s.nextExpected == 0 && s.accepted == [] && s.popped == []
  }

  /** A run: states, and the steps between them. */
  ghost predicate IsRun(states: seq<State>, actions: seq<Action>) {
    && |states| == |actions| + 1 && Initial(states[0])
    && forall i: nat | i < |actions| :: Step(states[i], actions[i], states[i + 1])
  }

  lemma InitialKeeps(s: State)
    requires Initial(s)
    ensures Inv(s)
  {
    assert s.limbo.Keys == {};
    assert s.Stored() == [];
  }

  lemma StepKeeps(s: State, a: Action, s': State)
    requires Inv(s) && Step(s, a, s')
    ensures Inv(s')
  {
    match a {
      case Insert(t, r) =>
        HeadNamed(s, t);
        InsertStarts(s, t, r);
      case Find(t) => FindKeeps(s, t);
      case CommitIns(t) => CommitInsertKeeps(s, t);
      case Pop(t) => MoveKeeps(s, t, Starting(s.nextExpected));
      case ReadPop(t) => PopReadKeeps(s, t);
      case CommitPopped(t) => CommitPopKeeps(s, t);
      case Store(t) => StoreKeeps(s, t);
      case Free(n) => FreeKeeps(s, n);
    }
  }

  lemma InsertStarts(s: State, t: Tid, r: Range)
    requires Inv(s) && t < |s.threads| && s.threads[t].Idle? && NewRange(s, t, r)
    ensures Inv(Go(s, t, Finding(r, s.l.head, s.l.head)))
  {
    HeadNamed(s, t);
    assert r.Proper();
    MoveKeeps(s, t, Finding(r, s.l.head, s.l.head));
  }

  /** However the threads' steps interleave, every state of every run is sorted and maximal, holds each byte
      accepted and not yet popped once, and has popped exactly the bytes up to some point, in order. */
  lemma {:induction false} EveryRunSafe(states: seq<State>, actions: seq<Action>, i: nat)
    requires IsRun(states, actions) && i < |states|
    ensures Inv(states[i])
    decreases i
  {
    hide Inv, Step, Initial;
    if i == 0 {
      InitialKeeps(states[0]);
    } else {
      EveryRunSafe(states, actions, i - 1);
      assert Step(states[i - 1], actions[i - 1], states[i - 1 + 1]);
      StepKeeps(states[i - 1], actions[i - 1], states[i]);
    }
  }

  /** The bytes popped are those of [0, End), and a byte is accepted if and only if it is stored or popped,
      never both. */
  lemma DeliveredOnce(states: seq<State>, actions: seq<Action>, i: nat, x: int)
    requires IsRun(states, actions) && i < |states|
    ensures states[i].Heap() && Maximal(states[i].Stored())
    ensures Covers(states[i].popped, x) <==> 0 <= x < End(states[i].popped)
    ensures Covers(states[i].accepted, x) <==> Covers(states[i].Stored(), x) || Covers(states[i].popped, x)
    ensures !(Covers(states[i].Stored(), x) && Covers(states[i].popped, x))
  {
    EveryRunSafe(states, actions, i);
    InOrderCovers(states[i].popped, x);
  }

  /** No thread is ever stuck on something that is not a node: its next step can be taken. */
  lemma StepsEnabled(s: State, t: Tid) returns (a: Action, s': State)
    requires Inv(s) && t < |s.threads| && !s.threads[t].Idle?
    ensures Step(s, a, s')
  {
    match s.threads[t] {
      case Finding(_, _, _) => FindKeeps(s, t); a, s' := Find(t), FindStep(s, t);
      case Passing(_, _) => FindKeeps(s, t); a, s' := Find(t), FindStep(s, t);
      case Checking(_, _, _) => FindKeeps(s, t); a, s' := Find(t), FindStep(s, t);
      case Found(_, _, _) => CommitInsertKeeps(s, t); a, s' := CommitIns(t), CommitInsert(s, t);
      case Starting(_) => PopReadKeeps(s, t); a, s' := ReadPop(t), PopStep(s, t);
      case Reading(_, _) => PopReadKeeps(s, t); a, s' := ReadPop(t), PopStep(s, t);
      case Read(_, _, _) => PopReadKeeps(s, t); a, s' := ReadPop(t), PopStep(s, t);
      case Ready(_, _, _) => CommitPopKeeps(s, t); a, s' := CommitPopped(t), CommitPop(s, t);
      case Popped(end) => a, s' := Store(t), Done(s.(nextExpected := end), t);
    }
  }

  /** When all operations are done, the front of the list is not the next expected byte only if that byte has
      not been accepted: the bytes accepted without a gap from 0 on are deliverable by one more pop. */
  lemma FrontIsNext(s: State, m: int)
    requires Inv(s) && (forall t: Tid | t < |s.threads| :: s.threads[t].Idle?)
    requires forall x: int | 0 <= x < m :: Covers(s.accepted, x)
    ensures s.nextExpected == End(s.popped)
    ensures m > s.nextExpected ==>
      s.Stored() != [] && s.Stored()[0].left == s.nextExpected && s.Stored()[0].right >= m - 1
  {
    var rs, e := s.Stored(), s.nextExpected;
    InOrderCovers(s.popped, e);
    if m > e {
      assert Covers(s.accepted, e) && Covers(rs, e);
      var k: nat :| k < |rs| && rs[k].Has(e);
      StoredAfterPopped(s, 0);
      FirstRange(rs, e);
      InOrderCovers(s.popped, rs[0].right + 1);
    }
  }

  /* ---------- popping any range ---------- */

  /** The first link is redirected without validating that it still leads to `front`. If other nodes have been
      linked in before it, their ranges are lost with the popped one: just the range that is returned goes if and only
      if `front` is still the first node. Only the check of the left end rules this out. */
  lemma PopElsewhere(l: List, active: seq<nat>, free: seq<nat>, limbo: set<nat>, k: nat)
    requires Good(l, active, free, limbo) && 1 <= k < |active| - 1
    ensures l.head < |l.nodes| && active[k] < |l.nodes| && active[k + 1] < |l.marks|
    ensures Validate(l, active[k], active[k + 1])
    ensures var m, left := Unlinked(l, active[k], active[k + 1]), [l.head] + active[k + 1..];
      var rs := RangesOf(l.nodes, active);
      && Chained(m.nodes, left, EOL)
      && (forall i: nat | i < |left| :: left[i] < |m.nodes|)
      && k - 1 < |rs| && rs[k - 1] == l.nodes[active[k]].range
      && RangesOf(m.nodes, left) == rs[k..]
      && (RangesOf(m.nodes, left) == rs[..k - 1] + rs[k..] <==> k == 1)
  {
    At(l, active, free, limbo, 0);
    At(l, active, free, limbo, k);
    At(l, active, free, limbo, k + 1);
    ElsewhereChained(l, active, free, limbo, k);
    Shape(l, active, free, limbo);
    hide Good, Chained, Maximal;
    var m, left := Unlinked(l, active[k], active[k + 1]), [l.head] + active[k + 1..];
    var rs := RangesOf(l.nodes, active);
    assert forall i: nat | 0 < i < |left| :: left[i] == active[k + i];
    assert |rs[..k - 1] + rs[k..]| == |rs| - 1;
  }

  lemma ElsewhereChained(l: List, active: seq<nat>, free: seq<nat>, limbo: set<nat>, k: nat)
    requires Good(l, active, free, limbo) && 1 <= k < |active| - 1
    requires l.head < |l.nodes| && active[k] < |l.marks|
    ensures Chained(Unlinked(l, active[k], active[k + 1]).nodes, [l.head] + active[k + 1..], EOL)
  {
    hide Good, Link;
    At(l, active, free, limbo, 0);
    var m := Unlinked(l, active[k], active[k + 1]);
    SplitAt(active, 0);
    Redirect(l, active, free, limbo, 0, active[k + 1]);
    assert m.nodes == SetNext(l, l.head, active[k + 1]).nodes;
    assert active[1..] == active[1..k + 1] + active[k + 1..];
    ChainJoin(m.nodes, active[1..k + 1], active[k + 1..], EOL);
    assert active[..1] == [l.head];
    ChainJoin(m.nodes, [l.head], active[k + 1..], EOL);
  }

  /** A pop that has read the only node and its link, while bytes before it are inserted: both are still valid, but
      the node is the second one now. */
  lemma StaleFront(l: List, active: seq<nat>, free: seq<nat>)
    requires Good(l, active, free, {}) && |active| == 2 && |free| >= 2
    ensures l.freeHead == free[0] < |l.nodes| && active[0] < |l.nodes| && active[1] < |l.nodes| == |l.marks|
    ensures var one := Linked(l, active[0], active[1], Range(10, 19));
      && one.nodes[one.head].next == free[0] && one.nodes[free[0]].next == active[1]
      && one.freeHead == free[1] < |one.nodes|
      && var two := Linked(one, active[0], free[0], Range(0, 4));
        && Good(two, [active[0], free[1], free[0], active[1]], free[2..], {})
        && Validate(two, free[0], active[1])
        && two.nodes[free[0]].range == Range(10, 19)
  {
    Shape(l, active, free, {});
    At(l, active, free, {}, 0);
    assert RangesOf(l.nodes, active) == [];
    LinkNew(l, active, free, {}, 0, Range(10, 19));
    var one := Linked(l, active[0], active[1], Range(10, 19));
    var a := [active[0], free[0], active[1]];
    assert With(active, 0, free[0]) == a;
    assert Inserted([], 0, Range(10, 19)) == [Range(10, 19)];
    At(one, a, free[1..], {}, 0);
    At(one, a, free[1..], {}, 1);
    LinkNew(one, a, free[1..], {}, 0, Range(0, 4));
    var two := Linked(one, active[0], free[0], Range(0, 4));
    var b := [active[0], free[1], free[0], active[1]];
    assert With(a, 0, free[1]) == b && free[1..][1..] == free[2..];
    At(two, b, free[2..], {}, 2);
    At(two, b, free[2..], {}, 3);
    assert RangesOf(two.nodes, b)[1] == Range(10, 19);
  }
}
