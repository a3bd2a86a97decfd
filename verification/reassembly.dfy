/** The out-of-order reassembly handlers over the list, one packet at a time. */
module Reassembly {
  import opened Ranges
  import opened ListHeaps
  import opened LazyLists

  const NUM_SEGMENTS: nat := 128
  const OP_INSERT: int := 0
  const OP_POP: int := 1

  /** The next expected byte is here, and nothing that had been delivered before. */
  ghost predicate Deliverable(rs: seq<Range>, next: int) {
    Covers(rs, next) && forall x: int | x < next :: !Covers(rs, x)
  }

  /** Bytes that had been delivered have come again. */
  ghost predicate Blocked(rs: seq<Range>, next: int) {
    exists x: int :: x < next && Covers(rs, x)
  }

  lemma FrontDelivers(rs: seq<Range>, next: int)
    requires Maximal(rs)
    ensures Deliverable(rs, next) <==> rs != [] && rs[0].left == next
  {
    if rs != [] {
      FirstRange(rs, next);
      if rs[0].left == next {
        forall x: int | x < next ensures !Covers(rs, x) {
          FirstRange(rs, x);
        }
      }
    }
  }

  class RbState {
    const list: LazyList
    var nextExpectedByte: int
    ghost var delivered: seq<Range>  // the ranges popped so far

    ghost predicate Valid()
      reads this, list, list.nodes, list.marks
    {
      list.Valid() && InOrder(delivered) && nextExpectedByte == End(delivered) <= INT32_MAX
    }

    /** The stored ranges and the next expected byte. */
    ghost function Held(): Content
      requires Valid()
      reads this, list, list.nodes, list.marks
    {
      Content(list.Ranges(), nextExpectedByte)
    }

    /** Nodes for ranges: all but the sentinels. */
    ghost function Nodes(): int
      reads list
    {
      list.nodes.Length - 2
    }

    lemma HeldSound()
      requires Valid()
      ensures Nodes() >= 1 && Sound(Held(), Nodes())
    {
      list.RangesMaximal();
      list.FullWhen();
      Shape(list.Snap(), list.active, list.free, {});
      NextIsByte(delivered);
    }

    /** ooorb_hh */
    constructor ()
      ensures Valid() && nextExpectedByte == 0 && delivered == [] && list.Ranges() == []
      ensures fresh(list) && fresh(list.nodes) && fresh(list.marks)
    {
      list := new LazyList(NUM_SEGMENTS);
      nextExpectedByte := 0;
      delivered := [];
    }

    method InsertPacket(r: Range)
      requires Valid() && r.Proper()
      modifies list, list.nodes, list.marks
      ensures Valid() && AfterInsert(old(list.Ranges()), list.Ranges(), r, list.nodes.Length - 2)
      ensures old(Nodes()) >= 1 && Held() == Step(old(Held()), Add(r), old(Nodes()))
    {
      HeldSound();
      ghost var c, nodes := Held(), Nodes();
      var error := list.Insert(r);
      list.RangesMaximal();
      StepIs(c, r, nodes, list.Ranges(), error);
    }

    method PopPacket()
      requires Valid()
      modifies this, list, list.nodes, list.marks
      ensures Valid()
      ensures AfterPop(old(list.Ranges()), list.Ranges(), old(nextExpectedByte), nextExpectedByte)
      ensures delivered == old(delivered) + Delivery(old(list.Ranges()), old(nextExpectedByte), nextExpectedByte)
      ensures old(Nodes()) >= 1 && Held() == Step(old(Held()), Take, old(Nodes()))
    {
      hide AfterPop, InOrder, Delivery, LazyList.Valid, LazyList.Ranges, Step;
      HeldSound();
      list.RangesMaximal();
      NextIsByte(delivered);
      ghost var before := list.Ranges();
      var popped, range := list.PopFront(nextExpectedByte);
      PopResult(before, list.Ranges(), delivered, popped, range);
      nextExpectedByte := if popped then range.right + 1 else nextExpectedByte;
      delivered := delivered + if popped then [range] else [];
    }

    /** ooorb_ph: a packet that inserts a range, or asks for the next one; any other is ignored. */
    method Packet(op: int, left: int, right: int)
      requires Valid() && (op == OP_INSERT ==> Range(left, right).Proper())
      modifies this, list, list.nodes, list.marks
      ensures Valid()
      ensures op == OP_INSERT ==>
        AfterInsert(old(list.Ranges()), list.Ranges(), Range(left, right), list.nodes.Length - 2)
      ensures op == OP_POP ==>
        AfterPop(old(list.Ranges()), list.Ranges(), old(nextExpectedByte), nextExpectedByte)
      ensures op != OP_INSERT && op != OP_POP ==> list.Ranges() == old(list.Ranges())
      ensures op != OP_POP ==> nextExpectedByte == old(nextExpectedByte)
      ensures delivered == old(delivered) +
                if op == OP_POP then Delivery(old(list.Ranges()), old(nextExpectedByte), nextExpectedByte) else []
      ensures old(Nodes()) >= 1 && Nodes() == old(Nodes())
      ensures Held() == Step(old(Held()), RequestOf(op, left, right), old(Nodes()))
    {
      hide AfterPop, AfterInsert, InOrder, Delivery, Good, Deliverable, Accepted, Inserted;
      HeldSound();
      if op == OP_INSERT {
        InsertPacket(Range(left, right));
      } else if op == OP_POP {
        PopPacket();
      }
    }
  }

  /** An insertion adds all bytes of r or none; it adds them unless they overlap or all nodes are in use. */
  ghost predicate AfterInsert(before: seq<Range>, after: seq<Range>, r: Range, nodes: int) {
    && (forall x: int :: Covers(after, x) ==> Covers(before, x) || r.Has(x))
    && (forall x: int :: Covers(before, x) ==> Covers(after, x))
    && (!Overlaps(before, r) && (Touches(before, r) || |before| < nodes) ==>
          forall x: int | r.Has(x) :: Covers(after, x))
    && (Overlaps(before, r) || (!Touches(before, r) && |before| == nodes) ==>
          forall x: int :: Covers(after, x) <==> Covers(before, x))
  }

  /** A delivery takes all bytes from the expected one up to the next that is missing, and only those. */
  ghost predicate AfterPop(before: seq<Range>, after: seq<Range>, next: int, next': int) {
    if Deliverable(before, next) then
      && next < next' && !Covers(before, next')
      && (forall x: int | next <= x < next' :: Covers(before, x))
      && forall x: int :: Covers(after, x) <==> Covers(before, x) && !(next <= x < next')
    else after == before && next' == next
  }

  /** The range that is delivered, if any. */
  ghost function Delivery(before: seq<Range>, next: int, next': int): seq<Range> {
    if Deliverable(before, next) then [Range(next, next' - 1)] else []
  }

  lemma NextIsByte(delivered: seq<Range>)
    requires InOrder(delivered)
    ensures End(delivered) >= 0
  {
    InOrderCovers(delivered, 0);
  }

  /** What popping the first range does, and when it is popped. */
  lemma PopResult(rs: seq<Range>, after: seq<Range>, delivered: seq<Range>, popped: bool, range: Range)
    requires Maximal(rs) && InOrder(delivered)
    requires popped <==> rs != [] && rs[0].left == End(delivered)
    requires !popped ==> after == rs
    requires popped ==> range == rs[0] && after == rs[1..]
    ensures var next := End(delivered);
      var next' := if popped then range.right + 1 else next;
      var d := delivered + if popped then [range] else [];
      && InOrder(d) && End(d) == next'
      && AfterPop(rs, after, next, next') && d == delivered + Delivery(rs, next, next')
      && (forall nodes: nat :: Step(Content(rs, next), Take, nodes) == Content(after, next'))
      && (popped ==> next' <= INT32_MAX)
  {
    FrontDelivers(rs, End(delivered));
    if popped {
      assert rs[0].Proper();
      PopInOrder(delivered, rs[0]);
      FirstRange(rs, 0);
      forall x: int
        ensures Covers(rs[1..], x) <==> Covers(rs, x) && !rs[0].Has(x)
        ensures rs[0].Has(x) ==> Covers(rs, x)
      {
        PoppedCovers(rs, x);
        FirstRange(rs, x);
      }
    } else {
      assert delivered + [] == delivered;
    }
  }

  /** The delivered ranges are, in order and once each, the bytes up to the next expected one. */
  lemma DeliveredPrefix(s: RbState, x: int)
    requires s.Valid()
    ensures Covers(s.delivered, x) <==> 0 <= x < s.nextExpectedByte
    ensures s.nextExpectedByte >= 0
  {
    InOrderCovers(s.delivered, x);
  }

  /* ---------- runs of packets ---------- */

  /** What the state holds: the stored ranges, and the next expected byte. */
  datatype Content = Content(ranges: seq<Range>, next: int)

  /** What a packet asks for. */
  datatype Request = Add(r: Range) | Take | Ignored
  {
    predicate Proper() {
      Add? ==> r.Proper()
    }
  }

  function RequestOf(op: int, left: int, right: int): Request {
    if op == OP_INSERT then Add(Range(left, right)) else if op == OP_POP then Take else Ignored
  }

  /** How many ranges lie before r. */
  function Place(rs: seq<Range>, r: Range): (k: nat)
    ensures k <= |rs|
  {
    if rs == [] || r.right < rs[0].left then 0 else 1 + Place(rs[1..], r)
  }

  /** The range is stored: it overlaps no other, and touches one or finds a node. */
  ghost predicate Accepted(rs: seq<Range>, r: Range, nodes: nat) {
    !Overlaps(rs, r) && (Touches(rs, r) || |rs| < nodes)
  }

  ghost function Step(c: Content, q: Request, nodes: nat): Content {
    match q
    case Add(r) =>
      if Accepted(c.ranges, r, nodes) then Content(Inserted(c.ranges, Place(c.ranges, r), r), c.next) else c
    case Take =>
      if c.ranges != [] && c.ranges[0].left == c.next then Content(c.ranges[1..], c.ranges[0].right + 1) else c
    case Ignored => c
  }

  ghost function After(c: Content, qs: seq<Request>, nodes: nat): Content
    decreases |qs|
  {
    if qs == [] then c else After(Step(c, qs[0], nodes), qs[1..], nodes)
  }

  ghost predicate Sound(c: Content, nodes: nat) {
    Maximal(c.ranges) && |c.ranges| <= nodes && 0 <= c.next <= INT32_MAX
  }

  /** The place of a range that overlaps no other has room for it. */
  lemma {:induction false} PlaceFits(rs: seq<Range>, r: Range)
    requires Maximal(rs) && !Overlaps(rs, r) && r.Proper()
    ensures Fits(rs, Place(rs, r), r)
    decreases |rs|
  {
    if rs != [] && r.right >= rs[0].left {
      NotOver(rs, r);
      PlaceFits(rs[1..], r);
    }
  }

  lemma NotOver(rs: seq<Range>, r: Range)
    requires Maximal(rs) && rs != [] && !Overlaps(rs, r) && r.Proper() && r.right >= rs[0].left
    ensures rs[0].right < r.left && Maximal(rs[1..]) && !Overlaps(rs[1..], r)
  {
    var x := if r.left >= rs[0].left then r.left else rs[0].left;
    assert rs[0].Proper();
    if rs[0].right >= r.left {
      assert rs[0].Has(x) && r.Has(x);
    }
    PoppedCovers(rs, 0);
  }

  /** The bytes that an insertion leaves stored tell the ranges. */
  lemma StepIs(c: Content, r: Range, nodes: nat, after: seq<Range>, error: nat)
    requires Sound(c, nodes) && r.Proper() && Maximal(after)
    requires error == if !Overlaps(c.ranges, r) && !Touches(c.ranges, r) && |c.ranges| == nodes then 1 else 0
    requires forall x: int :: Covers(after, x) <==>
               Covers(c.ranges, x) || (!Overlaps(c.ranges, r) && error == 0 && r.Has(x))
    ensures Content(after, c.next) == Step(c, Add(r), nodes)
  {
    if Accepted(c.ranges, r, nodes) {
      forall x: int ensures Covers(Step(c, Add(r), nodes).ranges, x) <==> Covers(c.ranges, x) || r.Has(x) {
        AddedCovers(c, r, nodes, x);
      }
      StepSound(c, Add(r), nodes);
    }
    hide Covers, Maximal;
    SameBytesSameList(after, Step(c, Add(r), nodes).ranges);
  }

  lemma FirstSays(c: Content, nodes: nat)
    requires Sound(c, nodes)
    ensures Blocked(c.ranges, c.next) <==> c.ranges != [] && c.ranges[0].left < c.next
    ensures Deliverable(c.ranges, c.next) <==> c.ranges != [] && c.ranges[0].left == c.next
  {
    FrontDelivers(c.ranges, c.next);
    if c.ranges != [] {
      forall x: int ensures Covers(c.ranges, x) ==> c.ranges[0].left <= x {
        FirstRange(c.ranges, x);
      }
      FirstRange(c.ranges, 0);
    }
  }

  /** A packet leaves a sound state, and what was popped is not asked for again. */
  lemma StepSound(c: Content, q: Request, nodes: nat)
    requires Sound(c, nodes) && q.Proper()
    ensures Sound(Step(c, q, nodes), nodes) && Step(c, q, nodes).next >= c.next
  {
    match q
    case Add(r) =>
      if Accepted(c.ranges, r, nodes) {
        PlaceFits(c.ranges, r);
        InsertedMaximal(c.ranges, Place(c.ranges, r), r);
        FitsMeans(c.ranges, Place(c.ranges, r), r);
      }
    case Take =>
      if c.ranges != [] && c.ranges[0].left == c.next {
        assert c.ranges[0].Proper();
        PoppedCovers(c.ranges, 0);
      }
    case Ignored =>
  }

  /** The bytes of a range that is stored are added, and no others. */
  lemma AddedCovers(c: Content, r: Range, nodes: nat, x: int)
    requires Sound(c, nodes) && r.Proper() && Accepted(c.ranges, r, nodes)
    ensures Covers(Step(c, Add(r), nodes).ranges, x) <==> Covers(c.ranges, x) || r.Has(x)
  {
    PlaceFits(c.ranges, r);
    InsertedCovers(c.ranges, Place(c.ranges, r), r, x);
  }

  /** A packet blocks delivery if and only if it stores a range that reaches below the next expected byte. */
  ghost predicate Late(c: Content, q: Request, nodes: nat) {
    q.Add? && q.r.left < c.next && Accepted(c.ranges, q.r, nodes)
  }

  lemma BlockedNow(c: Content, q: Request, nodes: nat)
    requires Sound(c, nodes) && q.Proper()
    ensures var d := Step(c, q, nodes);
      Blocked(d.ranges, d.next) <==> Blocked(c.ranges, c.next) || Late(c, q, nodes)
    ensures Blocked(c.ranges, c.next) ==> Step(c, q, nodes).next == c.next
  {
    hide Blocked, Deliverable, Inserted, Covers;
    FirstSays(c, nodes);
    StepSound(c, q, nodes);
    FirstSays(Step(c, q, nodes), nodes);
    if q.Add? && Accepted(c.ranges, q.r, nodes) {
      AddBlocks(c, q.r, nodes);
    } else if q.Take? && c.ranges != [] && c.ranges[0].left == c.next && |c.ranges| >= 2 {
      assert c.ranges[0].right + 1 < c.ranges[0 + 1].left;
    }
  }

  lemma AddBlocks(c: Content, r: Range, nodes: nat)
    requires Sound(c, nodes) && r.Proper() && Accepted(c.ranges, r, nodes)
    ensures Blocked(Step(c, Add(r), nodes).ranges, c.next) <==> Blocked(c.ranges, c.next) || r.left < c.next
  {
    hide Step;
    var rs := Step(c, Add(r), nodes).ranges;
    forall x: int ensures Covers(rs, x) <==> Covers(c.ranges, x) || r.Has(x) {
      AddedCovers(c, r, nodes, x);
    }
    if r.left < c.next {
      assert Covers(rs, r.left);
    }
    if Blocked(c.ranges, c.next) {
      var x: int :| x < c.next && Covers(c.ranges, x);
      assert Covers(rs, x);
    }
  }

  /** Some packet of a run stores a range below the byte that is expected then. */
  ghost predicate SomeLate(c: Content, qs: seq<Request>, nodes: nat)
    decreases |qs|
  {
    qs != [] && (Late(c, qs[0], nodes) || SomeLate(Step(c, qs[0], nodes), qs[1..], nodes))
  }

  ghost predicate AllProper(qs: seq<Request>) {
    forall k: nat | k < |qs| :: qs[k].Proper()
  }

  lemma {:induction false} RunSound(c: Content, qs: seq<Request>, nodes: nat)
    requires Sound(c, nodes) && AllProper(qs)
    ensures Sound(After(c, qs, nodes), nodes) && After(c, qs, nodes).next >= c.next
    decreases |qs|
  {
    if qs != [] {
      StepSound(c, qs[0], nodes);
      RunSound(Step(c, qs[0], nodes), qs[1..], nodes);
    }
  }

  /** A run ends blocked if and only if it began blocked or one of its packets stores a range that reaches below the
      byte that is expected then. */
  lemma {:induction false} BlockedAfter(c: Content, qs: seq<Request>, nodes: nat)
    requires Sound(c, nodes) && AllProper(qs)
    ensures var d := After(c, qs, nodes);
      Blocked(d.ranges, d.next) <==> Blocked(c.ranges, c.next) || SomeLate(c, qs, nodes)
    ensures Blocked(c.ranges, c.next) ==> After(c, qs, nodes).next == c.next
    decreases |qs|
  {
    hide Blocked, Late, Step;
    if qs != [] {
      StepSound(c, qs[0], nodes);
      BlockedNow(c, qs[0], nodes);
      BlockedAfter(Step(c, qs[0], nodes), qs[1..], nodes);
    }
  }

  /** The packets that bring the next expected byte, and ask for it. */
  function Unblocking(c: Content): seq<Request> {
    var last := if c.ranges == [] then c.next else c.ranges[0].left - 1;
    if c.ranges != [] && c.ranges[0].left == c.next then [Take] else [Add(Range(c.next, last)), Take]
  }

  lemma UnblockingDelivers(c: Content, nodes: nat)
    requires Sound(c, nodes) && nodes >= 1 && !Blocked(c.ranges, c.next) && c.next < INT32_MAX
    ensures AllProper(Unblocking(c)) && After(c, Unblocking(c), nodes).next > c.next
  {
    hide Blocked, Deliverable;
    FirstSays(c, nodes);
    if c.ranges != [] {
      assert c.ranges[0].Proper();
    }
    if c.ranges != [] && c.ranges[0].left == c.next {
      assert After(c, [Take], nodes) == Step(c, Take, nodes);
    } else {
      var r := Unblocking(c)[0].r;
      GapAccepted(c, r, nodes);
      var d := Step(c, Add(r), nodes);
      StepSound(c, Add(r), nodes);
      FirstSays(d, nodes);
      assert After(c, [Add(r), Take], nodes) == After(d, [Take], nodes) == Step(d, Take, nodes);
      assert d.ranges[0].Proper();
    }
  }

  /** A range from the next expected byte up to the first stored one is stored. */
  lemma GapAccepted(c: Content, r: Range, nodes: nat)
    requires Sound(c, nodes) && nodes >= 1 && r.Proper() && r.left == c.next
    requires if c.ranges == [] then r.right == c.next else r.right == c.ranges[0].left - 1
    ensures Accepted(c.ranges, r, nodes) && Deliverable(Step(c, Add(r), nodes).ranges, c.next)
  {
    var rs := c.ranges;
    forall x: int ensures Covers(rs, x) ==> x > r.right {
      if rs != [] {
        FirstRange(rs, x);
      }
    }
    if rs != [] {
      FirstRange(rs, r.right + 1);
    }
    forall x: int ensures Covers(Step(c, Add(r), nodes).ranges, x) <==> Covers(rs, x) || r.Has(x) {
      AddedCovers(c, r, nodes, x);
    }
  }

  /** Some packets make delivery go on if and only if no byte that had been delivered is stored again (and the next
      byte has a number that a range can have). */
  lemma GoesOnIff(c: Content, nodes: nat)
    requires Sound(c, nodes) && nodes >= 1
    ensures (exists qs: seq<Request> :: AllProper(qs) && After(c, qs, nodes).next > c.next)
       <==> !Blocked(c.ranges, c.next) && c.next < INT32_MAX
  {
    hide Blocked, Step;
    if !Blocked(c.ranges, c.next) && c.next < INT32_MAX {
      UnblockingDelivers(c, nodes);
    } else {
      forall qs: seq<Request> | AllProper(qs) ensures After(c, qs, nodes).next == c.next {
        BlockedAfter(c, qs, nodes);
        RunSound(c, qs, nodes);
      }
    }
  }

  /** The fields of a packet. */
  datatype Info = Info(op: int, left: int, right: int)

  function Requests(infos: seq<Info>): (qs: seq<Request>)
    ensures |qs| == |infos|
  {
    seq(|infos|, i requires 0 <= i < |infos| => RequestOf(infos[i].op, infos[i].left, infos[i].right))
  }

  /** Packets one after the other. */
  method HandleAll(s: RbState, infos: seq<Info>)
    requires s.Valid() && AllProper(Requests(infos))
    modifies s, s.list, s.list.nodes, s.list.marks
    ensures s.Valid() && old(s.Nodes()) >= 1 && s.Held() == After(old(s.Held()), Requests(infos), old(s.Nodes()))
  {
    hide RbState.Valid, Step;
    ghost var c, nodes := s.Held(), s.Nodes();
    s.HeldSound();
    for i := 0 to |infos|
      invariant s.Valid() && s.Nodes() == nodes
      invariant After(s.Held(), Requests(infos)[i..], nodes) == After(c, Requests(infos), nodes)
    {
      assert Requests(infos)[i].Proper();
      s.Packet(infos[i].op, infos[i].left, infos[i].right);
      assert Requests(infos)[i..][1..] == Requests(infos)[i + 1..];
    }
  }

  lemma FiveAgain(nodes: nat)
    requires nodes >= 1
    ensures After(Content([], 0), [Add(Range(0, 9)), Take, Add(Range(0, 4))], nodes) == Content([Range(0, 4)], 10)
  {
    var c := Content([], 0);
    assert Accepted([], Range(0, 9), nodes) && Accepted([], Range(0, 4), nodes);
    var d := Step(c, Add(Range(0, 9)), nodes);
    assert d == Content([Range(0, 9)], 0);
    var e := Step(d, Take, nodes);
    assert e == Content([], 10);
    assert Step(e, Add(Range(0, 4)), nodes) == Content([Range(0, 4)], 10);
    hide Step;
    assert After(c, [Add(Range(0, 9)), Take, Add(Range(0, 4))], nodes) == After(d, [Take, Add(Range(0, 4))], nodes);
    assert After(d, [Take, Add(Range(0, 4))], nodes) == After(e, [Add(Range(0, 4))], nodes);
  }

  /** Bytes 0 to 9 come and are delivered; then bytes 0 to 4 come again. */
  method BlockedState() returns (s: RbState)
    ensures fresh(s) && s.Valid() && s.Held() == Content([Range(0, 4)], 10)
    ensures Blocked(s.Held().ranges, s.Held().next)
  {
    hide RbState.Valid, After;
    s := new RbState();
    var infos := [Info(OP_INSERT, 0, 9), Info(OP_POP, 0, 0), Info(OP_INSERT, 0, 4)];
    assert Requests(infos) == [Add(Range(0, 9)), Take, Add(Range(0, 4))];
    s.HeldSound();
    FiveAgain(s.Nodes());
    HandleAll(s, infos);
    assert [Range(0, 4)][0].Has(0);
    assert Covers([Range(0, 4)], 0);
  }
}
