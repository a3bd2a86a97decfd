/** What the locked sections do to the list, and what an operation achieves that no other one disturbs. */
module ListEffects {
  import opened Ranges
  import opened ListHeaps
  import opened ListThreads
  import opened ListCommits
  import opened ListRuns

  /* ---------- the locked sections ---------- */

  /** Nothing but thread t's phase is different. */
  ghost predicate OnlyPhase(s: State, s': State, t: Tid, p: Phase) {
    t < |s.threads| && s' == s.(threads := s.threads[t := p])
  }

  /** The thread is done, and the list holds what it held. */
  ghost predicate NothingStored(s: State, s': State, t: Tid) {
    && t < |s.threads| && s'.threads == s.threads[t := Idle]
    && s'.l == s.l && s'.active == s.active && s'.free == s.free && s'.limbo.Keys == s.limbo.Keys
    && s'.accepted == s.accepted && s'.popped == s.popped && s'.nextExpected == s.nextExpected
  }

  /** The thread is done, and its range r is stored between range k - 1 and range k. */
  ghost predicate StoredAt(s: State, s': State, t: Tid, r: Range, k: nat)
    requires s.Heap()
  {
    && t < |s.threads| && s'.threads == s.threads[t := Idle]
    && Fits(s.Stored(), k, r) && s'.Heap() && s'.Stored() == Inserted(s.Stored(), k, r)
    && s'.accepted == s.accepted + [r] && s'.popped == s.popped && s'.nextExpected == s.nextExpected
  }

  /** A validated insertion stores its range if that touches a neighbour or a node is free, else it leaves the list
      alone; one that is not validated begins its search again. */
  lemma InsertTakes(s: State, s': State, t: Tid) returns (k: nat)
    requires Inv(s) && Step(s, CommitIns(t), s')
    ensures var p := s.threads[t];
      if !Validate(s.l, p.pred, p.curr) then OnlyPhase(s, s', t, Finding(p.r, s.l.head, s.l.head))
      else
        && Fits(s.Stored(), k, p.r)
        && if ConnectsLeft(s.Stored(), k, p.r) || ConnectsRight(s.Stored(), k, p.r) || s.free != []
           then StoredAt(s, s', t, p.r, k) else NothingStored(s, s', t)
  {
    var p, d := s.threads[t], Done(s, t);
    k := 0;
    if Validate(s.l, p.pred, p.curr) {
      k := ValidateSuffices(s, t);
      DoneKeeps(s, t);
      assert d.Stored() == s.Stored();
      TouchesConnects(s.l, s.active, s.free, s.limbo.Keys, k, p.r);
      InsertHeap(d, t, k, p.r);
      if HasRoom(d, k, p.r) {
        InsertRetires(d, t, k, p.r);
        InsertFrame(d, t, k, p.r);
      }
    }
  }

  /** A validated pop whose range still begins at the byte asked for takes exactly the first range, which it has yet
      to announce; another one begins again. */
  lemma PopTakes(s: State, s': State, t: Tid)
    requires Inv(s) && Step(s, CommitPopped(t), s')
    ensures var p := s.threads[t];
      if !Validate(s.l, p.front, p.next) || s.l.nodes[p.front].range.left != p.e then
        OnlyPhase(s, s', t, Starting(p.e))
      else
        && s.Stored() != [] && s.Stored()[0] == s.l.nodes[p.front].range && s.Stored()[0].left == p.e
        && s'.Heap() && s'.Stored() == s.Stored()[1..] && s'.popped == s.popped + [s.Stored()[0]]
        && s'.threads == s.threads[t := Popped(s.Stored()[0].right + 1)]
        && s'.accepted == s.accepted && s'.nextExpected == s.nextExpected && s'.free == s.free
  {
    hide Good, LimboOk, LimboBytes, PhasesOk, PendingOk, Conserved, ExpectedOk, InOrder;
    var p, d := s.threads[t], Done(s, t);
    if Validate(s.l, p.front, p.next) && s.l.nodes[p.front].range.left == p.e {
      PopReady(s, t);
      PopHeap(d, t);
      assert d.Stored() == s.Stored();
      var a := AfterPop(d, t, p.front, p.next);
      assert s' == Go(a, t, Popped(s.Stored()[0].right + 1));
      assert s'.Stored() == a.Stored();
    }
  }

  /* ---------- operations that run undisturbed ---------- */

  /** The action is one of thread t. */
  predicate Own(a: Action, t: Tid) {
    !a.Free? && a.t == t
  }

  ghost predicate OwnStep(s: State, t: Tid, s': State) {
    exists a: Action :: Own(a, t) && Step(s, a, s')
  }

  /** Only thread t goes on; all others stay wherever they are. */
  ghost predicate OwnRun(states: seq<State>, t: Tid) {
    states != [] && forall i: nat | i + 1 < |states| :: OwnStep(states[i], t, states[i + 1])
  }

  function Last(states: seq<State>): State
    requires states != []
  {
    states[|states| - 1]
  }

  lemma OneMore(states: seq<State>, t: Tid, a: Action, s': State)
    requires OwnRun(states, t) && Own(a, t) && Step(Last(states), a, s')
    ensures OwnRun(states + [s'], t) && Last(states + [s']) == s'
  {
    var all := states + [s'];
    forall i: nat | i + 1 < |all| ensures OwnStep(all[i], t, all[i + 1]) {
      if i + 1 < |states| {
        assert OwnStep(states[i], t, states[i + 1]);
      }
    }
  }

  lemma TwoRuns(a: seq<State>, b: seq<State>, t: Tid)
    requires OwnRun(a, t) && OwnRun(b, t) && Last(a) == b[0]
    ensures OwnRun(a + b[1..], t) && Last(a + b[1..]) == Last(b)
  {
    var all := a + b[1..];
    forall i: nat | i + 1 < |all| ensures OwnStep(all[i], t, all[i + 1]) {
      if i + 1 < |a| {
        assert OwnStep(a[i], t, a[i + 1]);
      } else {
        var j := i + 1 - |a|;
        assert OwnStep(b[j], t, b[j + 1]);
        assert all[i] == b[j] && all[i + 1] == b[j + 1];
      }
    }
  }

  /** One node further. */
  lemma SearchStep(s: State, t: Tid, j: nat) returns (s1: State, s2: State)
    requires Inv(s) && t < |s.threads| && s.threads[t].Finding? && j < |s.active|
    requires s.threads[t].curr == s.active[j] && (j > 0 ==> s.threads[t].pred == s.active[j - 1])
    ensures |s2.threads| == |s.threads| && Inv(s1) && Inv(s2)
    ensures var r := s.threads[t].r;
      if s2.threads[t].Found? then j > 0 && OnlyPhase(s, s2, t, Found(r, s.active[j - 1], s.active[j]))
      else j + 1 < |s.active| && OnlyPhase(s, s2, t, Finding(r, s.active[j], s.active[j + 1]))
    ensures Step(s, Find(t), s1) && Step(s1, Find(t), s2)
  {
    hide Inv;
    SearchPhase(s, t, j);
    FindKeeps(s, t);
    s1 := FindStep(s, t);
    FindKeeps(s1, t);
    s2 := FindStep(s1, t);
    if s1.threads[t].Checking? {
      NeverRefused(s1, t);
    }
  }

  /** What the thread reads there. */
  lemma SearchPhase(s: State, t: Tid, j: nat)
    requires Inv(s) && t < |s.threads| && s.threads[t].Finding? && j < |s.active|
    ensures s.active[j] < |s.l.nodes| && 0 <= s.threads[t].r.left < INT32_MAX
    ensures s.l.nodes[s.active[j]].next == if j + 1 < |s.active| then s.active[j + 1] else EOL
    ensures j == 0 ==> s.l.nodes[s.active[j]].range.right < s.threads[t].r.left
    ensures s.l.nodes[s.active[j]].range.right < s.threads[t].r.left ==> j + 1 < |s.active|
  {
    At(s.l, s.active, s.free, s.limbo.Keys, j);
    assert NewRange(s, t, s.threads[t].r);
  }

  /** A search from the first node finds two neighbours. */
  lemma {:induction false} Search(s: State, t: Tid, j: nat) returns (states: seq<State>, k: nat)
    requires Inv(s) && t < |s.threads| && s.threads[t].Finding? && j < |s.active|
    requires s.threads[t].curr == s.active[j] && (j > 0 ==> s.threads[t].pred == s.active[j - 1])
    ensures OwnRun(states, t) && states[0] == s && Inv(Last(states)) && k + 1 < |s.active|
    ensures OnlyPhase(s, Last(states), t, Found(s.threads[t].r, s.active[k], s.active[k + 1]))
    decreases |s.active| - j
  {
    hide Inv;
    var s1, s2 := SearchStep(s, t, j);
    OneMore([s], t, Find(t), s1);
    OneMore([s] + [s1], t, Find(t), s2);
    states := [s] + [s1] + [s2];
    if s2.threads[t].Found? {
      k := j - 1;
    } else {
      var rest;
      rest, k := Search(s2, t, j + 1);
      TwoRuns(states, rest, t);
      states := states + rest[1..];
    }
  }

  /** Neighbours in the list are valid. */
  lemma NeighboursValid(s: State, k: nat)
    requires s.Heap() && k + 1 < |s.active|
    ensures Readable(s, s.active[k]) && Readable(s, s.active[k + 1])
    ensures Validate(s.l, s.active[k], s.active[k + 1])
  {
    At(s.l, s.active, s.free, s.limbo.Keys, k);
    At(s.l, s.active, s.free, s.limbo.Keys, k + 1);
  }

  /** An insertion that no other thread disturbs, wherever the others stand, comes to its end: its range is stored if
      it touches a stored one or a node is free. */
  lemma InsertAlone(s: State, t: Tid, r: Range) returns (states: seq<State>, k: nat)
    requires Inv(s) && t < |s.threads| && s.threads[t].Idle? && NewRange(s, t, r)
    ensures OwnRun(states, t) && states[0] == s && Fits(s.Stored(), k, r)
    ensures if ConnectsLeft(s.Stored(), k, r) || ConnectsRight(s.Stored(), k, r) || s.free != []
            then StoredAt(s, Last(states), t, r, k) else NothingStored(s, Last(states), t)
  {
    var s1 := Go(s, t, Finding(r, s.l.head, s.l.head));
    InsertStarts(s, t, r);
    At(s.l, s.active, s.free, s.limbo.Keys, 0);
    OneMore([s], t, Insert(t, r), s1);
    hide Inv, Step, OwnRun;
    var search;
    search, k := Search(s1, t, 0);
    TwoRuns([s] + [s1], search, t);
    var f := Last(search);
    states, k := InsertEnds(s, t, r, k, f, [s] + [s1] + search[1..]);
  }

  /** What a step does, seen from before a phase. */
  lemma SeenFrom(s: State, f: State, s': State, t: Tid, p: Phase, r: Range, k: nat)
    requires s.Heap() && f.Heap() && OnlyPhase(s, f, t, p)
    ensures f.Stored() == s.Stored() && f.free == s.free
    ensures StoredAt(f, s', t, r, k) ==> StoredAt(s, s', t, r, k)
    ensures NothingStored(f, s', t) ==> NothingStored(s, s', t)
  {
    assert f.threads[t := Idle] == s.threads[t := Idle];
  }

  lemma InsertEnds(s: State, t: Tid, r: Range, j: nat, f: State, before: seq<State>)
    returns (states: seq<State>, k: nat)
    requires s.Heap() && t < |s.threads| && s.threads[t].Idle? && j + 1 < |s.active| && Inv(f)
    requires OnlyPhase(s, f, t, Found(r, s.active[j], s.active[j + 1]))
    requires before != [] && OwnRun(before, t) && before[0] == s && Last(before) == f
    ensures OwnRun(states, t) && states[0] == s && Fits(s.Stored(), k, r)
    ensures if ConnectsLeft(s.Stored(), k, r) || ConnectsRight(s.Stored(), k, r) || s.free != []
            then StoredAt(s, Last(states), t, r, k) else NothingStored(s, Last(states), t)
  {
    hide OwnRun, Good, LimboOk, LimboBytes, PhasesOk, PendingOk, Conserved, ExpectedOk, InOrder, StoredAt,
      NothingStored;
    CommitInsertKeeps(f, t);
    NeighboursValid(f, j);
    var s' := CommitInsert(f, t);
    k := InsertTakes(f, s', t);
    OneMore(before, t, CommitIns(t), s');
    states := before + [s'];
    SeenFrom(s, f, s', t, f.threads[t], r, k);
  }

  /** The same for a pop: it delivers the first range if that begins at the next expected byte, else nothing. */
  lemma PopAlone(s: State, t: Tid) returns (states: seq<State>)
    requires Inv(s) && t < |s.threads| && s.threads[t].Idle?
    ensures OwnRun(states, t) && states[0] == s
    ensures if s.Stored() != [] && s.Stored()[0].left == s.nextExpected
            then Delivered(s, Last(states)) else NothingStored(s, Last(states), t)
  {
    var s1, s2, s3 := PopReads(s, t);
    OneMore([s], t, Pop(t), s1);
    OneMore([s] + [s1], t, ReadPop(t), s2);
    OneMore([s] + [s1] + [s2], t, ReadPop(t), s3);
    states := [s] + [s1] + [s2] + [s3];
    hide Inv, Step, OwnRun;
    PopReadKeeps(s3, t);
    var s4 := PopStep(s3, t);
    PopDecides(s, s3, t);
    OneMore(states, t, ReadPop(t), s4);
    states := states + [s4];
    if s.Stored() != [] && s.Stored()[0].left == s.nextExpected {
      var s5, s6 := PopEnds(s, s4, t);
      OneMore(states, t, CommitPopped(t), s5);
      OneMore(states + [s5], t, Store(t), s6);
      states := states + [s5] + [s6];
    }
  }

  /** The first range is delivered, and nothing else has changed. */
  ghost predicate Delivered(s: State, s': State)
    requires s.Heap() && s.Stored() != []
  {
    && s'.Heap() && s'.Stored() == s.Stored()[1..] && s'.popped == s.popped + [s.Stored()[0]]
    && s'.nextExpected == s.Stored()[0].right + 1
    && s'.threads == s.threads && s'.accepted == s.accepted && s'.free == s.free
  }

  lemma PopMayStart(s: State, t: Tid)
    requires Inv(s) && t < |s.threads| && s.threads[t].Idle?
    ensures Inv(Go(s, t, Starting(s.nextExpected))) && s.active[0] == s.l.head
  {
    MoveKeeps(s, t, Starting(s.nextExpected));
  }

  /** The first reads of a pop: the first node behind the sentinel and its link. */
  lemma PopReads(s: State, t: Tid) returns (s1: State, s2: State, s3: State)
    requires Inv(s) && t < |s.threads| && s.threads[t].Idle?
    ensures |s.active| >= 2 && s.active[1] < |s.l.nodes| && Inv(s3)
    ensures OnlyPhase(s, s3, t, Read(s.nextExpected, s.active[1], s.l.nodes[s.active[1]].next))
    ensures Step(s, Pop(t), s1) && Step(s1, ReadPop(t), s2) && Step(s2, ReadPop(t), s3)
  {
    hide Good, LimboOk, LimboBytes, PhasesOk, PendingOk, Conserved, ExpectedOk, InOrder;
    Shape(s.l, s.active, s.free, s.limbo.Keys);
    s1 := Go(s, t, Starting(s.nextExpected));
    PopMayStart(s, t);
    At(s.l, s.active, s.free, s.limbo.Keys, 0);
    At(s.l, s.active, s.free, s.limbo.Keys, 1);
    PopReadKeeps(s1, t);
    s2 := PopStep(s1, t);
    PopReadKeeps(s2, t);
    s3 := PopStep(s2, t);
  }

  /** The last read: whether the range is the one asked for. */
  lemma PopDecides(s: State, s3: State, t: Tid)
    requires Inv(s) && Inv(s3) && t < |s.threads| && s.threads[t].Idle?
    requires |s.active| >= 2 && s.active[1] < |s.l.nodes|
    requires OnlyPhase(s, s3, t, Read(s.nextExpected, s.active[1], s.l.nodes[s.active[1]].next))
    ensures Readable(s3, s3.l.head) && Readable(s3, s3.threads[t].front)
    ensures if s.Stored() != [] && s.Stored()[0].left == s.nextExpected
            then |s.active| > 2 && OnlyPhase(s, PopStep(s3, t), t, Ready(s.nextExpected, s.active[1], s.active[2]))
            else NothingStored(s, PopStep(s3, t), t)
    ensures Inv(PopStep(s3, t)) && Step(s3, ReadPop(t), PopStep(s3, t))
  {
    hide LimboOk, LimboBytes, PhasesOk, PendingOk, Conserved, InOrder, Chained, Marked, Partition, Maximal;
    PopReadKeeps(s3, t);
    At(s.l, s.active, s.free, s.limbo.Keys, 1);
    assert s.nextExpected >= 0;
    if s.Stored() == [] {
      assert s.active[1] == |s.l.nodes| - 1;
    } else {
      assert s.l.nodes[s.active[1]].range == s.Stored()[0];
    }
  }

  lemma PopEnds(s: State, s4: State, t: Tid) returns (s5: State, s6: State)
    requires Inv(s) && Inv(s4) && t < |s.threads| && s.threads[t].Idle? && |s.active| > 2
    requires OnlyPhase(s, s4, t, Ready(s.nextExpected, s.active[1], s.active[2]))
    requires s.Stored()[0].left == s.nextExpected
    ensures Step(s4, CommitPopped(t), s5) && Step(s5, Store(t), s6) && Delivered(s, s6)
  {
    hide Good, LimboOk, LimboBytes, PhasesOk, PendingOk, Conserved, ExpectedOk, InOrder;
    Shape(s.l, s.active, s.free, s.limbo.Keys);
    CommitPopKeeps(s4, t);
    NeighboursValid(s, 1);
    At(s.l, s.active, s.free, s.limbo.Keys, 1);
    assert s4.Stored() == s.Stored();
    s5 := CommitPop(s4, t);
    PopTakes(s4, s5, t);
    s6 := Done(s5.(nextExpected := s5.threads[t].end), t);
    StoreKeeps(s5, t);
    assert s6.Stored() == s5.Stored();
    assert s6.threads == s.threads;
  }

  /** So in a quiet state one pop by any thread delivers all bytes accepted without a gap. */
  lemma GapFreeDelivered(s: State, t: Tid, m: int) returns (states: seq<State>)
    requires Inv(s) && (forall u: Tid | u < |s.threads| :: s.threads[u].Idle?) && t < |s.threads|
    requires m > s.nextExpected && forall x: int | 0 <= x < m :: Covers(s.accepted, x)
    ensures OwnRun(states, t) && states[0] == s && Last(states).nextExpected >= m
    ensures s.Stored() != [] && Last(states).popped == s.popped + [s.Stored()[0]]
  {
    FrontIsNext(s, m);
    states := PopAlone(s, t);
  }
}
