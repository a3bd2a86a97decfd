/** The reassembly list used by many threads: searches read one field at a time and may be stale; the locked
    section of an operation is one step. A removed node is freed when no operation is left that was running
    when it was removed. */
module ListThreads {
  import opened Ranges
  import opened ListHeaps

  type Tid = nat

  /** Where a thread is in its operation. */
  datatype Phase =
    | Idle
    | Finding(r: Range, pred: nat, curr: nat)   // about to read curr's right end
    | Passing(r: Range, curr: nat)              // curr ends before r: about to read its link
    | Checking(r: Range, pred: nat, curr: nat)  // about to read curr's left end
    | Found(r: Range, pred: nat, curr: nat)     // about to lock and validate
    | Starting(e: int)                          // a pop: about to read the first link
    | Reading(e: int, front: nat)               // about to read the link of `front`
    | Read(e: int, front: nat, next: nat)       // about to read the left end of `front`
    | Ready(e: int, front: nat, next: nat)      // about to lock and validate
    | Popped(end: int)                          // about to store the next expected byte
  {
    predicate Inserting() {
      Finding? || Passing? || Checking? || Found?
    }
  }

  datatype State = State(
    l: List, active: seq<nat>, free: seq<nat>,
    limbo: map<nat, set<Tid>>,       // removed nodes, with the threads that may still know of them
    threads: seq<Phase>, nextExpected: int,
    accepted: seq<Range>,            // all ranges committed by inserts so far
    popped: seq<Range>)              // all ranges popped so far, in order
  {
    ghost predicate Heap() {
      Good(l, active, free, limbo.Keys)
    }

    ghost function Stored(): seq<Range>
      requires Heap()
    {
      RangesOf(l.nodes, active)
    }

    /** Thread t may follow a pointer to node n. */
    ghost predicate Named(t: Tid, n: nat) {
      n in active || (n in limbo && t in limbo[n])
    }
  }

  /* ---------- the steps ---------- */

  function Running(threads: seq<Phase>, t: Tid): (r: set<Tid>)
    ensures forall u: Tid :: u in r <==> u < |threads| && u != t && !threads[u].Idle?
  {
    set u: Tid | u < |threads| && u != t && !threads[u].Idle?
  }

  function Leave(limbo: map<nat, set<Tid>>, t: Tid): map<nat, set<Tid>> {
    map n | n in limbo :: limbo[n] - {t}
  }

  /** Thread t moves on. */
  function Go(s: State, t: Tid, p: Phase): State
    requires t < |s.threads|
  {
    s.(threads := s.threads[t := p])
  }

  /** Thread t is done. */
  function Done(s: State, t: Tid): State
    requires t < |s.threads|
  {
    s.(threads := s.threads[t := Idle], limbo := Leave(s.limbo, t))
  }

  /** What a thread reads is a node of the list. */
  predicate Readable(s: State, n: nat) {
    n < |s.l.nodes| == |s.l.marks|
  }

  /** The environment's part: a new range has no byte in common with any range inserted so far. */
  ghost predicate NewRange(s: State, t: Tid, r: Range)
    requires t < |s.threads|
  {
    && r.Proper() && 0 <= r.left
    && (forall k: nat | k < |s.accepted| :: r.Disjoint(s.accepted[k]))
    && (forall u: Tid | u < |s.threads| && u != t && s.threads[u].Inserting() :: r.Disjoint(s.threads[u].r))
  }

  /** One read of lazylist_find_pred. */
  function FindStep(s: State, t: Tid): State
    requires t < |s.threads| && (s.threads[t].Finding? || s.threads[t].Passing? || s.threads[t].Checking?)
    requires Readable(s, s.threads[t].curr)
  {
    match s.threads[t]
    case Finding(r, pred, curr) =>
      if s.l.nodes[curr].range.right < r.left then Go(s, t, Passing(r, curr)) else Go(s, t, Checking(r, pred, curr))
    case Passing(r, curr) => Go(s, t, Finding(r, curr, s.l.nodes[curr].next))
    case Checking(r, pred, curr) =>
      if s.l.nodes[curr].range.left <= r.right then Done(s, t) else Go(s, t, Found(r, pred, curr))
  }

  /** The locked section of lazylist_insert, or the search again. */
  function CommitInsert(s: State, t: Tid): State
    requires t < |s.threads| && s.threads[t].Found?
    requires Readable(s, s.threads[t].pred) && Readable(s, s.threads[t].curr)
    requires Readable(s, s.l.freeHead) || s.l.freeHead == EOL
  {
    var r, pred, curr := s.threads[t].r, s.threads[t].pred, s.threads[t].curr;
    if !Validate(s.l, pred, curr) then Go(s, t, Finding(r, s.l.head, s.l.head))
    else AfterInsert(Done(s, t), t, pred, curr, r)
  }

  function AfterInsert(s: State, t: Tid, pred: nat, curr: nat, r: Range): State
    requires Readable(s, pred) && Readable(s, curr) && (Readable(s, s.l.freeHead) || s.l.freeHead == EOL)
  {
    if TouchesLeft(s.l, pred, r) && TouchesRight(s.l, curr, r) then
      s.(l := Joined(s.l, pred, curr, r), active := Removed(s.active, curr),
         limbo := s.limbo[curr := Running(s.threads, t)], accepted := s.accepted + [r])
    else if TouchesLeft(s.l, pred, r) || TouchesRight(s.l, curr, r) then
      s.(l := Joined(s.l, pred, curr, r), accepted := s.accepted + [r])
    else if s.l.freeHead == EOL || s.free == [] then s
    else
      s.(l := Linked(s.l, pred, curr, r), active := Followed(s.active, pred, s.l.freeHead),
         free := s.free[1..], accepted := s.accepted + [r])
  }

  /** The active chain without a node, and with a node after another. */
  function Removed(active: seq<nat>, n: nat): seq<nat> {
    if active == [] then [] else if active[0] == n then active[1..] else [active[0]] + Removed(active[1..], n)
  }

  function Followed(active: seq<nat>, pred: nat, n: nat): seq<nat> {
    if active == [] then [] else if active[0] == pred then [pred, n] + active[1..]
    else [active[0]] + Followed(active[1..], pred, n)
  }

  /** One read of lazylist_pop_front. */
  function PopStep(s: State, t: Tid): State
    requires t < |s.threads| && (s.threads[t].Starting? || s.threads[t].Reading? || s.threads[t].Read?)
    requires Readable(s, s.l.head) && (!s.threads[t].Starting? ==> Readable(s, s.threads[t].front))
  {
    match s.threads[t]
    case Starting(e) => Go(s, t, Reading(e, s.l.nodes[s.l.head].next))
    case Reading(e, front) => Go(s, t, Read(e, front, s.l.nodes[front].next))
    case Read(e, front, next) =>
      if s.l.nodes[front].range.left == INT32_MAX || s.l.nodes[front].range.left != e then Done(s, t)
      else Go(s, t, Ready(e, front, next))
  }

  /** The locked section of lazylist_pop_front, or the reads again. */
  function CommitPop(s: State, t: Tid): State
    requires t < |s.threads| && s.threads[t].Ready? && Readable(s, s.l.head)
    requires Readable(s, s.threads[t].front) && Readable(s, s.threads[t].next)
  {
    var e, front, next := s.threads[t].e, s.threads[t].front, s.threads[t].next;
    var range := s.l.nodes[front].range;
    if Validate(s.l, front, next) && range.left == e then
      Go(AfterPop(Done(s, t), t, front, next), t, Popped(range.right + 1))
    else Go(s, t, Starting(e))
  }

  function AfterPop(s: State, t: Tid, front: nat, next: nat): State
    requires Readable(s, s.l.head) && Readable(s, front)
  {
    s.(l := Unlinked(s.l, front, next), active := Removed(s.active, front),
       limbo := s.limbo[front := Running(s.threads, t)], popped := s.popped + [s.l.nodes[front].range])
  }

  /** Each operation is one of these; `Free` returns a removed node that no operation knows of. */
  datatype Action =
    | Insert(t: Tid, r: Range) | Find(t: Tid) | CommitIns(t: Tid)
    | Pop(t: Tid) | ReadPop(t: Tid) | CommitPopped(t: Tid) | Store(t: Tid)
    | Free(n: nat)

  ghost predicate Step(s: State, a: Action, s': State) {
    match a
    case Insert(t, r) =>
      && t < |s.threads| && s.threads[t].Idle? && NewRange(s, t, r)
      && s' == Go(s, t, Finding(r, s.l.head, s.l.head))
    case Find(t) =>
      && t < |s.threads| && (s.threads[t].Finding? || s.threads[t].Passing? || s.threads[t].Checking?)
      && Readable(s, s.threads[t].curr) && s' == FindStep(s, t)
    case CommitIns(t) =>
      && t < |s.threads| && s.threads[t].Found?
      && Readable(s, s.threads[t].pred) && Readable(s, s.threads[t].curr)
      && (Readable(s, s.l.freeHead) || s.l.freeHead == EOL) && s' == CommitInsert(s, t)
    case Pop(t) =>
      t < |s.threads| && s.threads[t].Idle? && s' == Go(s, t, Starting(s.nextExpected))
    case ReadPop(t) =>
      && t < |s.threads| && (s.threads[t].Starting? || s.threads[t].Reading? || s.threads[t].Read?)
      && Readable(s, s.l.head) && (!s.threads[t].Starting? ==> Readable(s, s.threads[t].front)) && s' == PopStep(s, t)
    case CommitPopped(t) =>
      && t < |s.threads| && s.threads[t].Ready? && Readable(s, s.l.head)
      && Readable(s, s.threads[t].front) && Readable(s, s.threads[t].next) && s' == CommitPop(s, t)
    case Store(t) =>
      t < |s.threads| && s.threads[t].Popped? && s' == Done(s.(nextExpected := s.threads[t].end), t)
    case Free(n) =>
      && n in s.limbo && s.limbo[n] == {} && n < |s.l.nodes|
      && s' == s.(l := Freed(s.l, n), free := [n] + s.free, limbo := s.limbo - {n})
  }

  /* ---------- the invariant ---------- */

  /** The left end of node n lies before r. */
  ghost predicate Before(s: State, n: nat, r: Range) {
    n < |s.l.nodes| && s.l.nodes[n].range.left < r.left
  }

  /** The right end of node n does not lie before r. */
  ghost predicate Reaches(s: State, n: nat, r: Range) {
    n < |s.l.nodes| && r.left <= s.l.nodes[n].range.right
  }

  /** What a thread has learnt that stays true whatever others do. */
  ghost predicate PhaseOk(s: State, t: Tid)
    requires t < |s.threads|
  {
    match s.threads[t]
    case Idle => true
    case Finding(r, pred, curr) => s.Named(t, pred) && s.Named(t, curr) && Before(s, pred, r)
    case Passing(r, curr) => s.Named(t, curr) && Before(s, curr, r)
    case Checking(r, pred, curr) =>
      s.Named(t, pred) && s.Named(t, curr) && Before(s, pred, r) && Reaches(s, curr, r)
    case Found(r, pred, curr) =>
      s.Named(t, pred) && s.Named(t, curr) && Before(s, pred, r) && Reaches(s, curr, r)
    case Starting(e) => 0 <= e <= s.nextExpected
    case Reading(e, front) => 0 <= e <= s.nextExpected && s.Named(t, front)
    case Read(e, front, next) =>
      0 <= e <= s.nextExpected && s.Named(t, front) && (front != |s.l.nodes| - 1 ==> s.Named(t, next))
    case Ready(e, front, next) =>
      0 <= e <= s.nextExpected && s.Named(t, front) && s.Named(t, next) && front != |s.l.nodes| - 1
    case Popped(end) => end == End(s.popped)
  }

  ghost predicate PhasesOk(s: State) {
    forall t: Tid | t < |s.threads| :: PhaseOk(s, t)
  }

  /** A removed node is known to running operations only, and its link leads them on. */
  ghost predicate LimboOk(s: State) {
    forall n: nat, t: Tid | n in s.limbo && t in s.limbo[n] :: LeadsOn(s, n, t)
  }

  ghost predicate LeadsOn(s: State, n: nat, t: Tid) {
    t < |s.threads| && !s.threads[t].Idle? && n < |s.l.nodes| && s.Named(t, s.l.nodes[n].next)
  }

  /** The bytes of a removed node had been accepted. */
  ghost predicate LimboBytes(s: State) {
    forall n: nat | n in s.limbo && n < |s.l.nodes| :: WasAccepted(s.accepted, s.l.nodes[n].range)
  }

  ghost predicate WasAccepted(accepted: seq<Range>, r: Range) {
    r.left <= r.right && forall x: int | r.Has(x) :: Covers(accepted, x)
  }

  /** Pending ranges have no byte in common with accepted ones, nor with each other. */
  ghost predicate PendingOk(s: State) {
    forall t: Tid | t < |s.threads| && s.threads[t].Inserting() :: NewRange(s, t, s.threads[t].r)
  }

  /** The accepted bytes are the stored and the popped ones, and no byte is both. */
  ghost predicate Conserved(s: State)
    requires s.Heap()
  {
    && (forall k: nat | k < |s.accepted| :: 0 <= s.accepted[k].left)
    && (forall x: int :: Covers(s.accepted, x) <==> Covers(s.Stored(), x) || Covers(s.popped, x))
    && (forall x: int :: Covers(s.popped, x) ==> !Covers(s.Stored(), x))
  }

  /** The next expected byte is the one after those popped, except while the thread that popped last has yet
      to store it. */
  ghost predicate ExpectedOk(s: State) {
    && 0 <= s.nextExpected <= End(s.popped)
    && (s.nextExpected < End(s.popped) ==> exists t: Tid :: t < |s.threads| && s.threads[t].Popped?)
    && (forall t: Tid | t < |s.threads| && s.threads[t].Popped? :: s.nextExpected < End(s.popped))
    && (forall t: Tid, u: Tid | t < |s.threads| && u < |s.threads| && s.threads[t].Popped? && s.threads[u].Popped?
          :: t == u)
  }

  ghost predicate Inv(s: State) {
    && s.Heap() && LimboOk(s) && LimboBytes(s) && PhasesOk(s) && PendingOk(s) && Conserved(s)
    && InOrder(s.popped) && ExpectedOk(s)
  }

  /* ---------- chains and positions ---------- */

  lemma {:induction false} RemovedIs(active: seq<nat>, k: nat)
    requires k < |active| && active[k] !in active[..k]
    ensures Removed(active, active[k]) == Without(active, k)
    decreases k
  {
    if k > 0 {
      assert active[..k] == [active[0]] + active[1..][..k - 1];
      RemovedIs(active[1..], k - 1);
    }
  }

  lemma {:induction false} FollowedIs(active: seq<nat>, k: nat, n: nat)
    requires k < |active| && active[k] !in active[..k]
    ensures Followed(active, active[k], n) == With(active, k, n)
    decreases k
  {
    if k > 0 {
      assert active[..k] == [active[0]] + active[1..][..k - 1];
      FollowedIs(active[1..], k - 1, n);
    }
  }

  lemma NamedNode(s: State, t: Tid, n: nat)
    requires s.Heap() && s.Named(t, n)
    ensures Readable(s, n)
    ensures n !in s.free && (n in s.active ==> n !in s.limbo) && (n in s.limbo ==> s.l.marks[n])
  {
    OnePlace(|s.l.nodes|, s.active, s.free, s.limbo.Keys, n);
  }

  /** Following a link from a node that is not the right sentinel. */
  lemma NextNamed(s: State, t: Tid, n: nat)
    requires Inv(s) && s.Named(t, n) && n != |s.l.nodes| - 1
    ensures Readable(s, n) && s.Named(t, s.l.nodes[n].next)
  {
    NamedNode(s, t, n);
    if n in s.active {
      var k: nat :| k < |s.active| && s.active[k] == n;
      At(s.l, s.active, s.free, s.limbo.Keys, k);
    } else {
      assert LeadsOn(s, n, t);
    }
  }

  lemma HeadNamed(s: State, t: Tid)
    requires s.Heap()
    ensures s.Named(t, s.l.head) && Readable(s, s.l.head)
    ensures s.l.nodes[s.l.head].range == Range(INT32_MIN, INT32_MIN)
  {
    assert s.active[0] in s.active;
  }

  /* ---------- a thread moves on, or is done ---------- */

  /** A step that only changes what one thread knows. */
  lemma MoveKeeps(s: State, t: Tid, p: Phase)
    requires Inv(s) && t < |s.threads| && !s.threads[t].Popped? && !p.Popped? && !p.Idle?
    requires p.Inserting() ==> NewRange(s, t, p.r)
    requires p.Inserting() && !s.threads[t].Inserting() ==>
      forall u: Tid | u < |s.threads| && u != t && s.threads[u].Inserting() :: s.threads[u].r.Disjoint(p.r)
    requires s.threads[t].Inserting() ==> p.Inserting() && p.r == s.threads[t].r
    requires PhaseOk(Go(s, t, p), t)
    ensures Inv(Go(s, t, p))
  {
    var s' := Go(s, t, p);
    assert s'.Stored() == s.Stored();
    assert LimboOk(s') by {
      forall n: nat, u: Tid | n in s'.limbo && u in s'.limbo[n] ensures LeadsOn(s', n, u) {
        assert LeadsOn(s, n, u);
      }
    }
    forall u: Tid | u < |s'.threads| ensures PhaseOk(s', u) {
      assert u != t ==> PhaseOk(s, u);
    }
    MovePending(s, t, p);
    MoveExpected(s, t, p);
  }

  lemma MoveExpected(s: State, t: Tid, p: Phase)
    requires ExpectedOk(s) && t < |s.threads| && !s.threads[t].Popped? && !p.Popped?
    ensures ExpectedOk(Go(s, t, p))
  {
    if s.nextExpected < End(s.popped) {
      var u: Tid :| u < |s.threads| && s.threads[u].Popped?;
      assert Go(s, t, p).threads[u].Popped?;
    }
  }

  lemma MovePending(s: State, t: Tid, p: Phase)
    requires PendingOk(s) && t < |s.threads|
    requires p.Inserting() ==> NewRange(s, t, p.r)
    requires p.Inserting() && !s.threads[t].Inserting() ==>
      forall u: Tid | u < |s.threads| && u != t && s.threads[u].Inserting() :: s.threads[u].r.Disjoint(p.r)
    requires s.threads[t].Inserting() && p.Inserting() ==> p.r == s.threads[t].r
    ensures PendingOk(Go(s, t, p))
  {
    var s' := Go(s, t, p);
    forall u: Tid | u < |s'.threads| && s'.threads[u].Inserting() ensures NewRange(s', u, s'.threads[u].r) {
      if u != t {
        assert NewRange(s, u, s.threads[u].r);
      }
    }
  }

  lemma LeaveLimbo(s: State, t: Tid)
    requires LimboOk(s) && t < |s.threads|
    ensures LimboOk(Done(s, t)) && Done(s, t).limbo.Keys == s.limbo.Keys
    ensures forall u: Tid, n: nat | u != t :: Done(s, t).Named(u, n) <==> s.Named(u, n)
  {
    var s' := Done(s, t);
    forall n: nat, u: Tid | n in s'.limbo && u in s'.limbo[n] ensures LeadsOn(s', n, u) {
      assert LeadsOn(s, n, u);
    }
  }

  lemma DoneKeeps(s: State, t: Tid)
    requires Inv(s) && t < |s.threads| && !s.threads[t].Popped?
    ensures Inv(Done(s, t))
  {
    var s' := Done(s, t);
    LeaveLimbo(s, t);
    assert s'.Stored() == s.Stored();
    forall u: Tid | u < |s'.threads| ensures PhaseOk(s', u) {
      assert u != t ==> PhaseOk(s, u);
    }
    MovePending(s, t, Idle);
    assert PendingOk(s') by {
      forall u: Tid | u < |s'.threads| && s'.threads[u].Inserting() ensures NewRange(s', u, s'.threads[u].r) {
        assert NewRange(Go(s, t, Idle), u, s.threads[u].r);
      }
    }
    MoveExpected(s, t, Idle);
  }

  /* ---------- validation suffices ---------- */

  /** A validated node that an operation knows of is in the list, and the validated link leads to its
      neighbour there. */
  lemma ValidatedPosition(s: State, t: Tid, pred: nat, curr: nat) returns (k: nat)
    requires Inv(s) && s.Named(t, pred) && s.Named(t, curr) && pred != |s.l.nodes| - 1
    requires pred < |s.l.nodes| && curr < |s.l.nodes| && Validate(s.l, pred, curr)
    ensures k + 1 < |s.active| && s.active[k] == pred && s.active[k + 1] == curr
  {
    NamedNode(s, t, pred);
    k :| k < |s.active| && s.active[k] == pred;
    At(s.l, s.active, s.free, s.limbo.Keys, k);
  }

  /** A stored byte is not pending. */
  lemma StoredNotPending(s: State, t: Tid, r: Range, i: nat, x: int)
    requires s.Heap() && Conserved(s) && t < |s.threads| && NewRange(s, t, r)
    requires i < |s.Stored()| && s.Stored()[i].Has(x)
    ensures !r.Has(x)
  {
    assert Covers(s.Stored(), x);
    assert Covers(s.accepted, x);
    var k: nat :| k < |s.accepted| && s.accepted[k].Has(x);
  }

  /** Neighbours of which one lies before r and the other reaches r have room for all of r, even if what was
      read of them is out of date. */
  lemma RoomBetween(s: State, t: Tid, r: Range, k: nat)
    requires Inv(s) && t < |s.threads| && NewRange(s, t, r) && k + 1 < |s.active|
    requires Before(s, s.active[k], r) && Reaches(s, s.active[k + 1], r)
    ensures Fits(s.Stored(), k, r)
  {
    At(s.l, s.active, s.free, s.limbo.Keys, k);
    At(s.l, s.active, s.free, s.limbo.Keys, k + 1);
    var rs := s.Stored();
    if k > 0 && r.left <= rs[k - 1].right {
      StoredNotPending(s, t, r, k - 1, r.left);
    }
    if k < |rs| && rs[k].left <= r.right {
      StoredNotPending(s, t, r, k, if rs[k].left <= r.left then r.left else rs[k].left);
    }
  }

  /** lazylist_validate alone makes an insertion safe: the node before r and the node after it are neighbours
      in the list, with room for r between them. */
  lemma ValidateSuffices(s: State, t: Tid) returns (k: nat)
    requires Inv(s) && t < |s.threads| && s.threads[t].Found?
    requires var p := s.threads[t]; Readable(s, p.pred) && Readable(s, p.curr) && Validate(s.l, p.pred, p.curr)
    ensures k + 1 < |s.active| && s.active[k] == s.threads[t].pred && s.active[k + 1] == s.threads[t].curr
    ensures Fits(s.Stored(), k, s.threads[t].r)
  {
    var p := s.threads[t];
    assert PhaseOk(s, t) && NewRange(s, t, p.r);
    k := ValidatedPosition(s, t, p.pred, p.curr);
    RoomBetween(s, t, p.r, k);
  }

  /** A search is never refused for an overlap, however stale the nodes that it reads. */
  lemma NeverRefused(s: State, t: Tid)
    requires Inv(s) && t < |s.threads| && s.threads[t].Checking?
    ensures Readable(s, s.threads[t].curr)
    ensures s.l.nodes[s.threads[t].curr].range.left > s.threads[t].r.right
  {
    var c, r := s.threads[t].curr, s.threads[t].r;
    assert PhaseOk(s, t) && NewRange(s, t, r);
    NamedNode(s, t, c);
    var n := s.l.nodes[c].range;
    if c == s.l.head {
      HeadNamed(s, t);
    } else if c != |s.l.nodes| - 1 && n.left <= r.right {
      NodeAccepted(s, t, c);
      var x := if n.left <= r.left then r.left else n.left;
      NotAccepted(s, t, r, x);
    }
  }

  lemma NotAccepted(s: State, t: Tid, r: Range, x: int)
    requires t < |s.threads| && NewRange(s, t, r) && r.Has(x)
    ensures !Covers(s.accepted, x)
  {
  }

  /** The bytes of every node but the sentinels had been accepted. */
  lemma NodeAccepted(s: State, t: Tid, n: nat)
    requires Inv(s) && s.Named(t, n) && n != s.l.head && n != |s.l.nodes| - 1
    ensures n < |s.l.nodes| && WasAccepted(s.accepted, s.l.nodes[n].range)
  {
    NamedNode(s, t, n);
    if n in s.active {
      var k: nat :| k < |s.active| && s.active[k] == n;
      At(s.l, s.active, s.free, s.limbo.Keys, k);
      forall x: int | s.l.nodes[n].range.Has(x) ensures Covers(s.accepted, x) {
        assert s.Stored()[k - 1].Has(x);
      }
    }
  }

  /* ---------- reads ---------- */

  lemma FindKeeps(s: State, t: Tid)
    requires Inv(s) && t < |s.threads|
    requires s.threads[t].Finding? || s.threads[t].Passing? || s.threads[t].Checking?
    ensures Readable(s, s.threads[t].curr) && Inv(FindStep(s, t)) && !FindStep(s, t).threads[t].Idle?
  {
    assert PhaseOk(s, t) && NewRange(s, t, s.threads[t].r);
    NamedNode(s, t, s.threads[t].curr);
    var p := FindStep(s, t).threads[t];
    if s.threads[t].Passing? {
      NextNamed(s, t, s.threads[t].curr);
    } else if s.threads[t].Checking? {
      NeverRefused(s, t);
    } else {
      ReversedRanges(s, t, s.threads[t].curr);
    }
    assert PhaseOk(Go(s, t, p), t);
    MoveKeeps(s, t, p);
  }

  lemma ReversedRanges(s: State, t: Tid, n: nat)
    requires Inv(s) && s.Named(t, n)
    ensures n < |s.l.nodes| && s.l.nodes[n].range.left <= s.l.nodes[n].range.right
  {
    NamedNode(s, t, n);
    if n != s.l.head && n != |s.l.nodes| - 1 {
      NodeAccepted(s, t, n);
    }
  }

  lemma PopReadKeeps(s: State, t: Tid)
    requires Inv(s) && t < |s.threads|
    requires s.threads[t].Starting? || s.threads[t].Reading? || s.threads[t].Read?
    ensures Readable(s, s.l.head) && (!s.threads[t].Starting? ==> Readable(s, s.threads[t].front))
    ensures Inv(PopStep(s, t))
  {
    assert PhaseOk(s, t);
    HeadNamed(s, t);
    if s.threads[t].Starting? {
      assert s.l.head != |s.l.nodes| - 1;
      NextNamed(s, t, s.l.head);
    } else {
      NamedNode(s, t, s.threads[t].front);
      if s.threads[t].Reading? && s.threads[t].front != |s.l.nodes| - 1 {
        NextNamed(s, t, s.threads[t].front);
      }
    }
    var s' := PopStep(s, t);
    if s'.threads[t].Idle? {
      DoneKeeps(s, t);
    } else {
      assert PhaseOk(s', t);
      MoveKeeps(s, t, s'.threads[t]);
    }
  }
}
