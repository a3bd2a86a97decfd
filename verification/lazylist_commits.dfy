/** The locked sections of insert and pop keep the invariant of the threads' state. */
module ListCommits {
  import opened Ranges
  import opened ListHeaps
  import opened ListThreads

  /* ---------- commits ---------- */

  /** What a commit does to the nodes that other threads may know of: ranges only grow, and only `gone` leaves
      the chain. */
  ghost predicate Gentle(s: State, s': State, gone: set<nat>) {
    && |s'.l.nodes| == |s.l.nodes| == |s.l.marks| == |s'.l.marks|
    && (forall n: nat | n in s.active :: n < |s.l.nodes| && (n in s'.active || n in gone))
    && (forall n: nat | n in s.active :: Grown(s, s', n))
    && (forall n: nat | n in s.limbo :: n < |s.l.nodes| && s'.l.nodes[n] == s.l.nodes[n])
    && (forall n: nat | n in gone :: n in s.active && s'.l.nodes[n] == s.l.nodes[n] && s.l.nodes[n].next in s'.active)
  }

  ghost predicate Grown(s: State, s': State, n: nat) {
    && n < |s.l.nodes| == |s'.l.nodes|
    && s'.l.nodes[n].range.left <= s.l.nodes[n].range.left
    && s.l.nodes[n].range.right <= s'.l.nodes[n].range.right
  }

  /** The removed node is known to whoever is running. */
  ghost predicate Retires(s: State, s': State, t: Tid, gone: set<nat>) {
    && s'.limbo.Keys == s.limbo.Keys + gone
    && (forall n: nat | n in s.limbo && n !in gone :: s'.limbo[n] == s.limbo[n])
    && (forall n: nat | n in gone :: s'.limbo[n] == Running(s.threads, t))
    && s'.threads == s.threads && s.nextExpected == s'.nextExpected
  }

  /** What a thread may know of stays, with the ranges grown. */
  lemma StillNamed(s: State, s': State, t: Tid, gone: set<nat>, u: Tid, n: nat)
    requires s.Heap() && Gentle(s, s', gone) && Retires(s, s', t, gone)
    requires u < |s.threads| && u != t && !s.threads[u].Idle? && s.Named(u, n)
    ensures s'.Named(u, n) && Grown(s, s', n)
  {
    NamedNode(s, u, n);
    if n in gone {
      assert s'.limbo[n] == Running(s.threads, t);
      assert u in s'.limbo[n];
    }
  }

  lemma PhaseKept(s: State, s': State, t: Tid, gone: set<nat>, u: Tid)
    requires s.Heap() && Gentle(s, s', gone) && Retires(s, s', t, gone)
    requires u < |s.threads| && u != t && PhaseOk(s, u) && (s.popped == s'.popped || !s.threads[u].Popped?)
    ensures PhaseOk(s', u)
  {
    var p := s.threads[u];
    assert s'.threads == s.threads && s'.nextExpected == s.nextExpected && |s'.l.nodes| == |s.l.nodes|;
    hide Gentle, Retires;
    match p {
      case Finding(r, pred, curr) =>
        StillNamed(s, s', t, gone, u, pred);
        StillNamed(s, s', t, gone, u, curr);
      case Passing(r, curr) =>
        StillNamed(s, s', t, gone, u, curr);
      case Checking(r, pred, curr) =>
        StillNamed(s, s', t, gone, u, pred);
        StillNamed(s, s', t, gone, u, curr);
      case Found(r, pred, curr) =>
        StillNamed(s, s', t, gone, u, pred);
        StillNamed(s, s', t, gone, u, curr);
      case Reading(e, front) =>
        StillNamed(s, s', t, gone, u, front);
      case Read(e, front, next) =>
        StillNamed(s, s', t, gone, u, front);
        if front != |s.l.nodes| - 1 {
          StillNamed(s, s', t, gone, u, next);
        }
      case Ready(e, front, next) =>
        StillNamed(s, s', t, gone, u, front);
        StillNamed(s, s', t, gone, u, next);
      case _ =>
    }
  }

  lemma LimboKept(s: State, s': State, t: Tid, gone: set<nat>)
    requires s.Heap() && LimboOk(s) && Gentle(s, s', gone) && Retires(s, s', t, gone)
    requires t < |s.threads| && s.threads[t].Idle?
    ensures LimboOk(s')
  {
    forall n: nat, u: Tid | n in s'.limbo && u in s'.limbo[n] ensures LeadsOn(s', n, u) {
      if n in gone {
        assert u in Running(s.threads, t);
      } else {
        assert LeadsOn(s, n, u);
        StillNamed(s, s', t, gone, u, s.l.nodes[n].next);
      }
    }
  }

  /* ---------- insertion ---------- */

  /** The node that an insertion at position k removes. */
  function GoneBy(s: State, k: nat, r: Range): set<nat>
    requires k + 1 < |s.active| && s.active[k] < |s.l.nodes| && s.active[k + 1] < |s.l.nodes|
  {
    if TouchesLeft(s.l, s.active[k], r) && TouchesRight(s.l, s.active[k + 1], r) then {s.active[k + 1]} else {}
  }

  /** The insertion finds room: it touches a neighbour, or there is a free node. */
  predicate HasRoom(s: State, k: nat, r: Range)
    requires k + 1 < |s.active| && s.active[k] < |s.l.nodes| && s.active[k + 1] < |s.l.nodes|
  {
    TouchesLeft(s.l, s.active[k], r) || TouchesRight(s.l, s.active[k + 1], r) || s.free != []
  }

  /** The list after an insertion at position k. */
  lemma InsertHeap(s: State, t: Tid, k: nat, r: Range)
    requires s.Heap() && k + 1 < |s.active| && Fits(s.Stored(), k, r)
    ensures Readable(s, s.active[k]) && Readable(s, s.active[k + 1])
    ensures Readable(s, s.l.freeHead) || s.l.freeHead == EOL
    ensures var s' := AfterInsert(s, t, s.active[k], s.active[k + 1], r);
      && (!HasRoom(s, k, r) ==> s' == s)
      && (HasRoom(s, k, r) ==> s'.Heap() && s'.Stored() == Inserted(s.Stored(), k, r))
  {
    TouchesConnects(s.l, s.active, s.free, s.limbo.Keys, k, r);
    FreeEnd(s.l, s.active, s.free, s.limbo.Keys);
    OnceActive(|s.l.nodes|, s.active, s.free, s.limbo.Keys, k);
    OnceActive(|s.l.nodes|, s.active, s.free, s.limbo.Keys, k + 1);
    var pred, curr := s.active[k], s.active[k + 1];
    RemovedIs(s.active, k + 1);
    hide Good, Fits, Maximal, Removed, Followed;
    if TouchesLeft(s.l, pred, r) && TouchesRight(s.l, curr, r) {
      JoinBoth(s.l, s.active, s.free, s.limbo.Keys, k, r);
      assert s.limbo[curr := Running(s.threads, t)].Keys == s.limbo.Keys + {curr};
    } else if TouchesLeft(s.l, pred, r) || TouchesRight(s.l, curr, r) {
      JoinOne(s.l, s.active, s.free, s.limbo.Keys, k, r);
    } else if s.free != [] {
      LinkNew(s.l, s.active, s.free, s.limbo.Keys, k, r);
      FollowedIs(s.active, k, s.free[0]);
    }
  }

  lemma WithoutHas(active: seq<nat>, k: nat, n: nat)
    requires k < |active| && n in active && n != active[k]
    ensures n in Without(active, k)
  {
    SplitAt(active, k);
  }

  lemma WithHas(active: seq<nat>, k: nat, m: nat, n: nat)
    requires k < |active| && n in active
    ensures n in With(active, k, m)
  {
    SplitAt(active, k);
  }

  lemma InsertGentle(s: State, t: Tid, k: nat, r: Range)
    requires s.Heap() && k + 1 < |s.active| && Fits(s.Stored(), k, r) && s.active[k] < |s.l.nodes|
    requires s.active[k + 1] < |s.l.nodes| == |s.l.marks| && (Readable(s, s.l.freeHead) || s.l.freeHead == EOL)
    requires HasRoom(s, k, r)
    ensures Gentle(s, AfterInsert(s, t, s.active[k], s.active[k + 1], r), GoneBy(s, k, r))
  {
    hide Fits, AfterInsert, GoneBy, HasRoom, Grown;
    InsertActive(s, t, k, r);
    InsertNodes(s, t, k, r);
  }

  /** Of the nodes in the chain only the one that is removed leaves it, and its link leads back to it. */
  lemma InsertActive(s: State, t: Tid, k: nat, r: Range)
    requires s.Heap() && k + 1 < |s.active| && Fits(s.Stored(), k, r) && s.active[k] < |s.l.nodes|
    requires s.active[k + 1] < |s.l.nodes| == |s.l.marks| && (Readable(s, s.l.freeHead) || s.l.freeHead == EOL)
    requires HasRoom(s, k, r)
    ensures var s', gone := AfterInsert(s, t, s.active[k], s.active[k + 1], r), GoneBy(s, k, r);
      && (forall n: nat | n in s.active :: n < |s.l.nodes| && (n in s'.active || n in gone))
      && (forall n: nat | n in gone :: n in s.active && n < |s.l.nodes| && s.l.nodes[n].next in s'.active)
  {
    var s' := AfterInsert(s, t, s.active[k], s.active[k + 1], r);
    At(s.l, s.active, s.free, s.limbo.Keys, k + 1);
    TouchesConnects(s.l, s.active, s.free, s.limbo.Keys, k, r);
    FreeEnd(s.l, s.active, s.free, s.limbo.Keys);
    OnceActive(|s.l.nodes|, s.active, s.free, s.limbo.Keys, k);
    OnceActive(|s.l.nodes|, s.active, s.free, s.limbo.Keys, k + 1);
    RemovedIs(s.active, k + 1);
    var gone := GoneBy(s, k, r);
    forall n: nat | n in s.active ensures n in s'.active || n in gone {
      if gone != {} {
        if n != s.active[k + 1] {
          WithoutHas(s.active, k + 1, n);
        }
      } else if !TouchesLeft(s.l, s.active[k], r) && !TouchesRight(s.l, s.active[k + 1], r) {
        FollowedIs(s.active, k, s.free[0]);
        WithHas(s.active, k, s.free[0], n);
      }
    }
    if gone != {} {
      assert s.active[k + 2] in s.active && s.active[k + 2] != s.active[k + 1] by {
        OnceActive(|s.l.nodes|, s.active, s.free, s.limbo.Keys, k + 2);
        assert s.active[k + 1] in s.active[..k + 2];
      }
      WithoutHas(s.active, k + 1, s.active[k + 2]);
    }
  }

  lemma InsertNodes(s: State, t: Tid, k: nat, r: Range)
    requires s.Heap() && k + 1 < |s.active| && Fits(s.Stored(), k, r) && s.active[k] < |s.l.nodes|
    requires s.active[k + 1] < |s.l.nodes| == |s.l.marks| && (Readable(s, s.l.freeHead) || s.l.freeHead == EOL)
    requires HasRoom(s, k, r)
    ensures var s' := AfterInsert(s, t, s.active[k], s.active[k + 1], r);
      && |s'.l.nodes| == |s.l.nodes| == |s'.l.marks|
      && (forall n: nat | n in s.active :: Grown(s, s', n))
      && (forall n: nat | n in s.limbo :: n < |s.l.nodes| && s'.l.nodes[n] == s.l.nodes[n])
      && (forall n: nat | n in GoneBy(s, k, r) :: s'.l.nodes[n] == s.l.nodes[n])
  {
    hide Sentinels, Chained, Marked, Maximal;
    var s' := AfterInsert(s, t, s.active[k], s.active[k + 1], r);
    var N := |s.l.nodes|;
    At(s.l, s.active, s.free, s.limbo.Keys, k);
    At(s.l, s.active, s.free, s.limbo.Keys, k + 1);
    FreeEnd(s.l, s.active, s.free, s.limbo.Keys);
    OnceActive(N, s.active, s.free, s.limbo.Keys, k + 1);
    assert s.active[k] in s.active[..k + 1];
    TouchesConnects(s.l, s.active, s.free, s.limbo.Keys, k, r);
    forall n: nat | n in s.active ensures Grown(s, s', n) {
      OnePlace(N, s.active, s.free, s.limbo.Keys, n);
    }
    forall n: nat | n in s.limbo ensures n < N && s'.l.nodes[n] == s.l.nodes[n] {
      OnePlace(N, s.active, s.free, s.limbo.Keys, n);
    }
  }

  /** The bytes of r are now stored, and no others. */
  lemma InsertConserved(s: State, s': State, t: Tid, k: nat, r: Range)
    requires s.Heap() && Conserved(s) && t < |s.threads| && NewRange(s, t, r) && Fits(s.Stored(), k, r)
    requires s'.Heap() && s'.Stored() == Inserted(s.Stored(), k, r)
    requires s'.accepted == s.accepted + [r] && s'.popped == s.popped
    ensures Conserved(s')
  {
    forall x: int
      ensures Covers(s'.accepted, x) <==> Covers(s'.Stored(), x) || Covers(s'.popped, x)
      ensures Covers(s'.popped, x) ==> !Covers(s'.Stored(), x)
    {
      InsertedCovers(s.Stored(), k, r, x);
      CoversAppend(s.accepted, [r], x);
      CoversOne(r, x);
      if r.Has(x) {
        NotAccepted(s, t, r, x);
      }
    }
  }

  lemma AcceptedGrows(accepted: seq<Range>, r: Range, n: Range)
    requires WasAccepted(accepted, n)
    ensures WasAccepted(accepted + [r], n)
  {
    forall x: int | n.Has(x) ensures Covers(accepted + [r], x) {
      CoversAppend(accepted, [r], x);
    }
  }

  lemma InsertPending(s: State, s': State, t: Tid, r: Range)
    requires PendingOk(s) && t < |s.threads| && s.threads[t].Idle? && NewRange(s, t, r)
    requires s'.threads == s.threads && s'.accepted == s.accepted + [r]
    ensures PendingOk(s')
  {
    forall u: Tid | u < |s'.threads| && s'.threads[u].Inserting() ensures NewRange(s', u, s'.threads[u].r) {
      assert NewRange(s, u, s.threads[u].r);
    }
  }

  lemma InsertLimboBytes(s: State, s': State, t: Tid, k: nat, r: Range, gone: set<nat>)
    requires s.Heap() && Conserved(s) && LimboBytes(s) && k + 1 < |s.active|
    requires Gentle(s, s', gone) && Retires(s, s', t, gone) && s'.accepted == s.accepted + [r]
    requires gone == {} || (gone == {s.active[k + 1]} && k + 2 < |s.active|)
    ensures LimboBytes(s')
  {
    forall n: nat | n in s'.limbo && n < |s'.l.nodes| ensures WasAccepted(s'.accepted, s'.l.nodes[n].range) {
      if n in gone {
        At(s.l, s.active, s.free, s.limbo.Keys, k + 1);
        forall x: int | s.l.nodes[n].range.Has(x) ensures Covers(s.accepted, x) {
          assert s.Stored()[k].Has(x);
        }
        assert WasAccepted(s.accepted, s.l.nodes[n].range);
      }
      AcceptedGrows(s.accepted, r, s.l.nodes[n].range);
    }
  }

  lemma InsertRetires(s: State, t: Tid, k: nat, r: Range)
    requires s.Heap() && k + 1 < |s.active| && Fits(s.Stored(), k, r) && HasRoom(s, k, r)
    requires Readable(s, s.active[k]) && Readable(s, s.active[k + 1])
    requires Readable(s, s.l.freeHead) || s.l.freeHead == EOL
    ensures Retires(s, AfterInsert(s, t, s.active[k], s.active[k + 1], r), t, GoneBy(s, k, r))
    ensures GoneBy(s, k, r) != {} ==> k + 2 < |s.active|
    ensures AfterInsert(s, t, s.active[k], s.active[k + 1], r).accepted == s.accepted + [r]
  {
    FreeEnd(s.l, s.active, s.free, s.limbo.Keys);
    TouchesConnects(s.l, s.active, s.free, s.limbo.Keys, k, r);
    At(s.l, s.active, s.free, s.limbo.Keys, k + 1);
    assert s.limbo.Keys + {} == s.limbo.Keys;
  }

  lemma InsertKeeps(s: State, t: Tid, k: nat, r: Range)
    requires Inv(s) && t < |s.threads| && s.threads[t].Idle? && NewRange(s, t, r)
    requires k + 1 < |s.active| && Fits(s.Stored(), k, r)
    ensures Readable(s, s.active[k]) && Readable(s, s.active[k + 1])
    ensures Readable(s, s.l.freeHead) || s.l.freeHead == EOL
    ensures Inv(AfterInsert(s, t, s.active[k], s.active[k + 1], r))
  {
    hide Gentle, Retires, Good, Fits, AfterInsert, HasRoom, Conserved, LimboBytes, LimboOk, PhaseOk, NewRange;
    InsertHeap(s, t, k, r);
    if HasRoom(s, k, r) {
      var s' := AfterInsert(s, t, s.active[k], s.active[k + 1], r);
      var gone := GoneBy(s, k, r);
      InsertGentle(s, t, k, r);
      InsertRetires(s, t, k, r);
      InsertFrame(s, t, k, r);
      LimboKept(s, s', t, gone);
      InsertLimboBytes(s, s', t, k, r, gone);
      forall u: Tid | u < |s'.threads| ensures PhaseOk(s', u) {
        if u == t {
          IdleOk(s', t);
        } else {
          PhaseKept(s, s', t, gone, u);
        }
      }
      InsertPending(s, s', t, r);
      InsertConserved(s, s', t, k, r);
    }
  }

  lemma IdleOk(s: State, t: Tid)
    requires t < |s.threads| && s.threads[t].Idle?
    ensures PhaseOk(s, t)
  {
  }

  lemma InsertFrame(s: State, t: Tid, k: nat, r: Range)
    requires k + 1 < |s.active| && Readable(s, s.active[k]) && Readable(s, s.active[k + 1])
    requires Readable(s, s.l.freeHead) || s.l.freeHead == EOL
    ensures var s' := AfterInsert(s, t, s.active[k], s.active[k + 1], r);
      s'.threads == s.threads && s'.popped == s.popped && s'.nextExpected == s.nextExpected
  {
  }

  /** What the locked section of an insert amounts to. */
  lemma CommitInsertKeeps(s: State, t: Tid)
    requires Inv(s) && t < |s.threads| && s.threads[t].Found?
    ensures Readable(s, s.threads[t].pred) && Readable(s, s.threads[t].curr)
    ensures Readable(s, s.l.freeHead) || s.l.freeHead == EOL
    ensures Inv(CommitInsert(s, t))
  {
    var p := s.threads[t];
    assert PhaseOk(s, t) && NewRange(s, t, p.r);
    NamedNode(s, t, p.pred);
    NamedNode(s, t, p.curr);
    FreeEnd(s.l, s.active, s.free, s.limbo.Keys);
    if Validate(s.l, p.pred, p.curr) {
      var k := ValidateSuffices(s, t);
      DoneKeeps(s, t);
      var d := Done(s, t);
      assert d.Stored() == s.Stored();
      InsertKeeps(d, t, k, p.r);
    } else {
      HeadNamed(s, t);
      MoveKeeps(s, t, Finding(p.r, s.l.head, s.l.head));
    }
  }

  /* ---------- popping ---------- */

  /** A validated pop of the expected byte takes the first range, and no other pop is under way. */
  lemma PopIsFirst(s: State, t: Tid)
    requires Inv(s) && t < |s.threads| && s.threads[t].Ready?
    requires Readable(s, s.threads[t].front) && Readable(s, s.threads[t].next)
    requires Validate(s.l, s.threads[t].front, s.threads[t].next)
    requires s.l.nodes[s.threads[t].front].range.left == s.threads[t].e
    ensures |s.active| > 2 && s.active[1] == s.threads[t].front && s.active[2] == s.threads[t].next
    ensures s.threads[t].e == s.nextExpected == End(s.popped)
    ensures s.Stored() != [] && s.Stored()[0].left == End(s.popped)
    ensures forall u: Tid | u < |s.threads| :: !s.threads[u].Popped?
  {
    var p := s.threads[t];
    assert PhaseOk(s, t);
    var k := ValidatedPosition(s, t, p.front, p.next);
    At(s.l, s.active, s.free, s.limbo.Keys, k);
    At(s.l, s.active, s.free, s.limbo.Keys, 0);
    HeadNamed(s, t);
    var rs := s.Stored();
    assert rs[k - 1].left == p.e && rs[k - 1].Has(p.e);
    StoredAfterPopped(s, k - 1);
    StoredAfterPopped(s, 0);
    assert rs[0].Proper();
    if k > 1 {
      Ascending(rs, 0, k - 1);
    }
  }

  /** All stored bytes lie behind the popped ones. */
  lemma StoredAfterPopped(s: State, i: nat)
    requires s.Heap() && Conserved(s) && InOrder(s.popped) && i < |s.Stored()|
    ensures End(s.popped) <= s.Stored()[i].left
  {
    var x := s.Stored()[i].left;
    assert s.Stored()[i].Proper() && s.Stored()[i].Has(x);
    assert Covers(s.Stored(), x) && Covers(s.accepted, x);
    var k: nat :| k < |s.accepted| && s.accepted[k].Has(x);
    InOrderCovers(s.popped, x);
  }

  lemma PopHeap(s: State, t: Tid)
    requires s.Heap() && |s.active| > 2
    ensures Readable(s, s.l.head) && Readable(s, s.active[1]) && Readable(s, s.active[2])
    ensures var s' := AfterPop(s, t, s.active[1], s.active[2]);
      && s'.Heap() && s'.Stored() == s.Stored()[1..] && s'.popped == s.popped + [s.Stored()[0]]
      && Retires(s, s', t, {s.active[1]})
  {
    PopGood(s.l, s.active, s.free, s.limbo.Keys);
    At(s.l, s.active, s.free, s.limbo.Keys, 1);
    At(s.l, s.active, s.free, s.limbo.Keys, 2);
    OnceActive(|s.l.nodes|, s.active, s.free, s.limbo.Keys, 1);
    RemovedIs(s.active, 1);
    assert s.limbo[s.active[1] := Running(s.threads, t)].Keys == s.limbo.Keys + {s.active[1]};
  }

  lemma PopGentle(s: State, t: Tid)
    requires s.Heap() && |s.active| > 2
    requires Readable(s, s.l.head) && Readable(s, s.active[1])
    ensures Gentle(s, AfterPop(s, t, s.active[1], s.active[2]), {s.active[1]})
  {
    var s' := AfterPop(s, t, s.active[1], s.active[2]);
    var N := |s.l.nodes|;
    At(s.l, s.active, s.free, s.limbo.Keys, 1);
    At(s.l, s.active, s.free, s.limbo.Keys, 2);
    OnceActive(N, s.active, s.free, s.limbo.Keys, 1);
    OnceActive(N, s.active, s.free, s.limbo.Keys, 2);
    assert s.active[1] in s.active[..2];
    RemovedIs(s.active, 1);
    forall n: nat | n in s.active ensures Grown(s, s', n) && (n in s'.active || n == s.active[1]) {
      OnePlace(N, s.active, s.free, s.limbo.Keys, n);
      if n != s.active[1] {
        WithoutHas(s.active, 1, n);
      }
    }
    WithoutHas(s.active, 1, s.active[2]);
    forall n: nat | n in s.limbo ensures n < N && s'.l.nodes[n] == s.l.nodes[n] {
      OnePlace(N, s.active, s.free, s.limbo.Keys, n);
    }
  }

  /** The first range moves from the stored to the popped ones. */
  lemma PopConserved(s: State, s': State)
    requires s.Heap() && Conserved(s) && s'.Heap() && s.Stored() != []
    requires s'.Stored() == s.Stored()[1..] && s'.popped == s.popped + [s.Stored()[0]] && s'.accepted == s.accepted
    ensures Conserved(s')
  {
    forall x: int
      ensures Covers(s'.accepted, x) <==> Covers(s'.Stored(), x) || Covers(s'.popped, x)
      ensures Covers(s'.popped, x) ==> !Covers(s'.Stored(), x)
    {
      PoppedCovers(s.Stored(), x);
      CoversAppend(s.popped, [s.Stored()[0]], x);
      CoversOne(s.Stored()[0], x);
      FirstRange(s.Stored(), x);
    }
  }

  /** A pop leaves everything but the thread's phase and the expected byte as it should be. */
  lemma PopCore(s: State, t: Tid)
    requires Inv(s) && t < |s.threads| && s.threads[t].Idle? && |s.active| > 2
    requires s.Stored()[0].left == End(s.popped)
    requires forall u: Tid | u < |s.threads| :: !s.threads[u].Popped?
    requires Readable(s, s.l.head) && Readable(s, s.active[1])
    ensures var s' := AfterPop(s, t, s.active[1], s.active[2]);
      && s'.Heap() && LimboOk(s') && LimboBytes(s') && PhasesOk(s') && PendingOk(s') && Conserved(s')
      && InOrder(s'.popped) && s'.threads == s.threads && s'.nextExpected == s.nextExpected
      && End(s'.popped) == s.Stored()[0].right + 1 > End(s.popped)
  {
    PopHeap(s, t);
    PopGentle(s, t);
    var s' := AfterPop(s, t, s.active[1], s.active[2]);
    var gone := {s.active[1]};
    var first := s.Stored()[0];
    assert first.Proper();
    At(s.l, s.active, s.free, s.limbo.Keys, 1);
    PopLimboBytes(s, s', t);
    hide Gentle, Retires, Good, AfterPop, Conserved, LimboBytes, LimboOk, PhaseOk, NewRange, InOrder;
    LimboKept(s, s', t, gone);
    forall u: Tid | u < |s'.threads| ensures PhaseOk(s', u) {
      if u == t {
        IdleOk(s', t);
      } else {
        PhaseKept(s, s', t, gone, u);
      }
    }
    PopConserved(s, s');
    PopInOrder(s.popped, first);
    PopPending(s, s');
  }

  lemma PopPending(s: State, s': State)
    requires PendingOk(s) && s'.threads == s.threads && s'.accepted == s.accepted
    ensures PendingOk(s')
  {
    forall u: Tid | u < |s'.threads| && s'.threads[u].Inserting() ensures NewRange(s', u, s'.threads[u].r) {
      assert NewRange(s, u, s.threads[u].r);
    }
  }

  lemma PopLimboBytes(s: State, s': State, t: Tid)
    requires s.Heap() && Conserved(s) && LimboBytes(s) && |s.active| > 2
    requires Gentle(s, s', {s.active[1]}) && Retires(s, s', t, {s.active[1]}) && s'.accepted == s.accepted
    ensures LimboBytes(s')
  {
    forall n: nat | n in s'.limbo && n < |s'.l.nodes| ensures WasAccepted(s'.accepted, s'.l.nodes[n].range) {
      if n == s.active[1] {
        At(s.l, s.active, s.free, s.limbo.Keys, 1);
        assert n in {s.active[1]};
        forall x: int | s.l.nodes[n].range.Has(x) ensures Covers(s.accepted, x) {
          assert s.Stored()[0].Has(x);
        }
      }
    }
  }

  /** What the locked section of a pop amounts to. */
  lemma CommitPopKeeps(s: State, t: Tid)
    requires Inv(s) && t < |s.threads| && s.threads[t].Ready?
    ensures Readable(s, s.l.head) && Readable(s, s.threads[t].front) && Readable(s, s.threads[t].next)
    ensures Inv(CommitPop(s, t))
  {
    var p := s.threads[t];
    assert PhaseOk(s, t);
    HeadNamed(s, t);
    NamedNode(s, t, p.front);
    NamedNode(s, t, p.next);
    if Validate(s.l, p.front, p.next) && s.l.nodes[p.front].range.left == p.e {
      PopSucceeds(s, t);
    } else {
      MoveKeeps(s, t, Starting(p.e));
    }
  }

  lemma PopSucceeds(s: State, t: Tid)
    requires Inv(s) && t < |s.threads| && s.threads[t].Ready? && Readable(s, s.l.head)
    requires Readable(s, s.threads[t].front) && Readable(s, s.threads[t].next)
    requires Validate(s.l, s.threads[t].front, s.threads[t].next)
    requires s.l.nodes[s.threads[t].front].range.left == s.threads[t].e
    ensures Inv(CommitPop(s, t))
  {
    hide Good, Conserved, LimboOk, LimboBytes, PhasesOk, PendingOk, InOrder, Inv;
    var p, d := s.threads[t], Done(s, t);
    PopReady(s, t);
    PopCore(d, t);
    PopAnnounced(AfterPop(d, t, p.front, p.next), t);
  }

  /** What the popping thread leaves behind when it is done, except for the list. */
  lemma PopReady(s: State, t: Tid)
    requires Inv(s) && t < |s.threads| && s.threads[t].Ready? && Readable(s, s.l.head)
    requires Readable(s, s.threads[t].front) && Readable(s, s.threads[t].next)
    requires Validate(s.l, s.threads[t].front, s.threads[t].next)
    requires s.l.nodes[s.threads[t].front].range.left == s.threads[t].e
    ensures var p, d := s.threads[t], Done(s, t);
      && Inv(d) && d.Heap() && t < |d.threads| && d.threads[t].Idle? && |d.active| > 2
      && d.active[1] == p.front && d.active[2] == p.next
      && d.Stored()[0] == s.l.nodes[p.front].range && d.Stored()[0].left == End(d.popped)
      && 0 <= d.nextExpected <= End(d.popped)
      && forall u: Tid | u < |d.threads| :: !d.threads[u].Popped?
  {
    PopIsFirst(s, t);
    At(s.l, s.active, s.free, s.limbo.Keys, 1);
    DoneKeeps(s, t);
    assert Done(s, t).Stored() == s.Stored();
  }

  /** The thread that popped has yet to store the next expected byte. */
  lemma PopAnnounced(s: State, t: Tid)
    requires s.Heap() && LimboOk(s) && LimboBytes(s) && PhasesOk(s) && PendingOk(s) && Conserved(s) && InOrder(s.popped)
    requires t < |s.threads| && s.threads[t].Idle? && 0 <= s.nextExpected < End(s.popped)
    requires forall u: Tid | u < |s.threads| :: !s.threads[u].Popped?
    ensures Inv(Go(s, t, Popped(End(s.popped))))
  {
    var s' := Go(s, t, Popped(End(s.popped)));
    assert s'.Stored() == s.Stored();
    forall n: nat, u: Tid | n in s'.limbo && u in s'.limbo[n] ensures LeadsOn(s', n, u) {
      assert LeadsOn(s, n, u);
    }
    forall u: Tid | u < |s'.threads| ensures PhaseOk(s', u) {
      assert u != t ==> PhaseOk(s, u);
    }
    MovePending(s, t, s'.threads[t]);
    assert s'.threads[t].Popped?;
  }

  /** The next expected byte is stored. */
  lemma StoreKeeps(s: State, t: Tid)
    requires Inv(s) && t < |s.threads| && s.threads[t].Popped?
    ensures Inv(Done(s.(nextExpected := s.threads[t].end), t))
  {
    assert PhaseOk(s, t);
    var m := s.(nextExpected := s.threads[t].end);
    var s' := Done(m, t);
    assert LimboOk(m) by {
      forall n: nat, u: Tid | n in m.limbo && u in m.limbo[n] ensures LeadsOn(m, n, u) {
        assert LeadsOn(s, n, u);
      }
    }
    LeaveLimbo(m, t);
    assert s'.Stored() == s.Stored();
    forall u: Tid | u < |s'.threads| ensures PhaseOk(s', u) {
      assert u != t ==> PhaseOk(s, u);
    }
    StorePending(s, t);
  }

  lemma StorePending(s: State, t: Tid)
    requires PendingOk(s) && t < |s.threads| && s.threads[t].Popped?
    ensures PendingOk(Done(s.(nextExpected := s.threads[t].end), t))
  {
    var s' := Done(s.(nextExpected := s.threads[t].end), t);
    forall u: Tid | u < |s'.threads| && s'.threads[u].Inserting() ensures NewRange(s', u, s'.threads[u].r) {
      assert NewRange(s, u, s.threads[u].r);
    }
  }

  /* ---------- freeing ---------- */

  /** Nobody that runs knows of the freed node. */
  lemma FreeKeeps(s: State, n: nat)
    requires Inv(s) && n in s.limbo && s.limbo[n] == {}
    ensures n < |s.l.nodes| && Inv(s.(l := Freed(s.l, n), free := [n] + s.free, limbo := s.limbo - {n}))
  {
    OnePlace(|s.l.nodes|, s.active, s.free, s.limbo.Keys, n);
    FreeGood(s.l, s.active, s.free, s.limbo.Keys, n);
    var s' := s.(l := Freed(s.l, n), free := [n] + s.free, limbo := s.limbo - {n});
    assert s'.limbo.Keys == s.limbo.Keys - {n};
    forall m: nat, u: Tid | s.Named(u, m) ensures s'.Named(u, m) && m != n && Grown(s, s', m) {
      NamedNode(s, u, m);
    }
    forall m: nat, u: Tid | m in s'.limbo && u in s'.limbo[m] ensures LeadsOn(s', m, u) {
      assert LeadsOn(s, m, u);
    }
    forall u: Tid | u < |s'.threads| ensures PhaseOk(s', u) {
      assert PhaseOk(s, u);
    }
    PopPending(s, s');
  }
}
