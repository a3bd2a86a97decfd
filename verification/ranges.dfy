/** Lists of byte ranges kept sorted and maximal: the meaning of the reassembly list. */
module Ranges {

  const INT32_MIN: int := -0x8000_0000
  const INT32_MAX: int := 0x7FFF_FFFF

  /** Both ends are inclusive. */
  datatype Range = Range(left: int, right: int)
  {
    predicate Has(x: int) {
      left <= x <= right
    }

    /** The sentinels' values are not used by ranges. */
    predicate Proper() {
      INT32_MIN < left <= right < INT32_MAX
    }

    predicate Disjoint(r: Range) {
      right < r.left || r.right < left
    }
  }

  /** A byte that the list holds. */
  ghost predicate Covers(rs: seq<Range>, x: int) {
    exists k: nat | k < |rs| :: rs[k].Has(x)
  }

  /** Ascending, with at least one byte missing between two neighbours. */
  ghost predicate Maximal(rs: seq<Range>) {
    && (forall k: nat | k < |rs| :: rs[k].Proper())
    && (forall k: nat | k + 1 < |rs| :: rs[k].right + 1 < rs[k + 1].left)
  }

  lemma {:induction false} Ascending(rs: seq<Range>, i: nat, j: nat)
    requires Maximal(rs) && i < j < |rs|
    ensures rs[i].right + 1 < rs[j].left
    decreases j
  {
    if i + 1 < j {
      Ascending(rs, i, j - 1);
      assert rs[j - 1].Proper() && rs[j - 1 + 1].left > rs[j - 1].right + 1;
    } else {
      assert rs[i].right + 1 < rs[i + 1].left;
    }
  }

  lemma CoversAppend(rs: seq<Range>, ts: seq<Range>, x: int)
    ensures Covers(rs + ts, x) <==> Covers(rs, x) || Covers(ts, x)
  {
    if Covers(rs + ts, x) {
      var k: nat :| k < |rs + ts| && (rs + ts)[k].Has(x);
      if k >= |rs| {
        assert ts[k - |rs|].Has(x);
      } else {
        assert rs[k].Has(x);
      }
    }
    if Covers(rs, x) {
      var k: nat :| k < |rs| && rs[k].Has(x);
      assert (rs + ts)[k].Has(x);
    }
    if Covers(ts, x) {
      var k: nat :| k < |ts| && ts[k].Has(x);
      assert (rs + ts)[|rs| + k].Has(x);
    }
  }

  lemma CoversOne(r: Range, x: int)
    ensures Covers([r], x) <==> r.Has(x)
  {
    if r.Has(x) {
      assert [r][0].Has(x);
    }
  }

  /* ---------- insertion ---------- */

  /** Range r fits between the ranges before and from position k. */
  ghost predicate Fits(rs: seq<Range>, k: nat, r: Range) {
    && k <= |rs| && r.Proper()
    && (k > 0 ==> rs[k - 1].right < r.left)
    && (k < |rs| ==> r.right < rs[k].left)
  }

  predicate ConnectsLeft(rs: seq<Range>, k: nat, r: Range)
    requires k <= |rs|
  {
    k > 0 && rs[k - 1].right + 1 == r.left
  }

  predicate ConnectsRight(rs: seq<Range>, k: nat, r: Range)
    requires k <= |rs|
  {
    k < |rs| && r.right + 1 == rs[k].left
  }

  /** r added at position k, merged with the neighbours that it touches. */
  function Inserted(rs: seq<Range>, k: nat, r: Range): seq<Range>
    requires k <= |rs|
  {
    if ConnectsLeft(rs, k, r) && ConnectsRight(rs, k, r) then
      rs[..k - 1] + [Range(rs[k - 1].left, rs[k].right)] + rs[k + 1..]
    else if ConnectsLeft(rs, k, r) then rs[k - 1 := Range(rs[k - 1].left, r.right)]
    else if ConnectsRight(rs, k, r) then rs[k := Range(r.left, rs[k].right)]
    else rs[..k] + [r] + rs[k..]
  }

  /** The list stays sorted and maximal. */
  lemma InsertedMaximal(rs: seq<Range>, k: nat, r: Range)
    requires Maximal(rs) && Fits(rs, k, r)
    ensures Maximal(Inserted(rs, k, r))
  {
    var t := Inserted(rs, k, r);
    forall i: nat | i + 1 < |t| ensures t[i].right + 1 < t[i + 1].left {
      if i + 1 < |rs| {
        assert rs[i].right + 1 < rs[i + 1].left;
      }
      if 1 <= i < |rs| {
        assert rs[i - 1].right + 1 < rs[i - 1 + 1].left;
      }
      if i + 2 < |rs| {
        assert rs[i + 1].right + 1 < rs[i + 1 + 1].left;
      }
    }
  }

  /** Exactly the bytes of r are added. */
  lemma InsertedCovers(rs: seq<Range>, k: nat, r: Range, x: int)
    requires Maximal(rs) && Fits(rs, k, r)
    ensures Covers(Inserted(rs, k, r), x) <==> Covers(rs, x) || r.Has(x)
  {
    CoversOne(r, x);
    if ConnectsLeft(rs, k, r) && ConnectsRight(rs, k, r) {
      Between(rs, k - 1, k + 1, [Range(rs[k - 1].left, rs[k].right)], x);
      assert rs[k - 1..k + 1] == [rs[k - 1]] + [rs[k]];
      CoversAppend([rs[k - 1]], [rs[k]], x);
      CoversOne(rs[k - 1], x);
      CoversOne(rs[k], x);
      CoversOne(Range(rs[k - 1].left, rs[k].right), x);
    } else if ConnectsLeft(rs, k, r) {
      One(rs, k - 1, Range(rs[k - 1].left, r.right), x);
    } else if ConnectsRight(rs, k, r) {
      One(rs, k, Range(r.left, rs[k].right), x);
    } else {
      Between(rs, k, k, [r], x);
    }
  }

  /** Replacing a section changes what the section covers. */
  lemma Between(rs: seq<Range>, a: nat, b: nat, middle: seq<Range>, x: int)
    requires a <= b <= |rs|
    ensures Covers(rs[..a] + middle + rs[b..], x) <==> Covers(rs[..a], x) || Covers(middle, x) || Covers(rs[b..], x)
    ensures Covers(rs, x) <==> Covers(rs[..a], x) || Covers(rs[a..b], x) || Covers(rs[b..], x)
  {
    CoversAppend(rs[..a] + middle, rs[b..], x);
    CoversAppend(rs[..a], middle, x);
    CoversAppend(rs[..a] + rs[a..b], rs[b..], x);
    CoversAppend(rs[..a], rs[a..b], x);
    assert rs == rs[..a] + rs[a..b] + rs[b..];
  }

  lemma One(rs: seq<Range>, a: nat, r: Range, x: int)
    requires a < |rs|
    ensures Covers(rs[a := r], x) <==> Covers(rs[..a], x) || r.Has(x) || Covers(rs[a + 1..], x)
    ensures Covers(rs, x) <==> Covers(rs[..a], x) || rs[a].Has(x) || Covers(rs[a + 1..], x)
  {
    Between(rs, a, a + 1, [r], x);
    assert rs[a := r] == rs[..a] + [r] + rs[a + 1..];
    assert rs[a..a + 1] == [rs[a]];
    CoversOne(r, x);
    CoversOne(rs[a], x);
  }

  /* ---------- removal of the first range ---------- */

  lemma PoppedCovers(rs: seq<Range>, x: int)
    requires Maximal(rs) && rs != []
    ensures Maximal(rs[1..])
    ensures Covers(rs[1..], x) <==> Covers(rs, x) && !rs[0].Has(x)
  {
    forall k: nat | k + 1 < |rs[1..]| ensures rs[1..][k].right + 1 < rs[1..][k + 1].left {
      assert rs[k + 1].right + 1 < rs[k + 1 + 1].left;
    }
    Between(rs, 0, 1, [], x);
    assert rs[0..1] == [rs[0]] && rs[..0] == [];
    CoversOne(rs[0], x);
    if Covers(rs[1..], x) {
      var k: nat :| k < |rs[1..]| && rs[1..][k].Has(x);
      Ascending(rs, 0, k + 1);
    }
  }

  /* ---------- a maximal list is determined by its bytes ---------- */

  /** The first range of a maximal list: from the least byte to the last before a gap. */
  lemma FirstRange(rs: seq<Range>, x: int)
    requires Maximal(rs) && rs != []
    ensures Covers(rs, rs[0].left) && (Covers(rs, x) ==> rs[0].left <= x)
    ensures !Covers(rs, rs[0].right + 1) && (rs[0].Has(x) ==> Covers(rs, x))
  {
    assert rs[0].Has(rs[0].left);
    if Covers(rs, rs[0].right + 1) {
      var k: nat :| k < |rs| && rs[k].Has(rs[0].right + 1);
      if k > 0 {
        Ascending(rs, 0, k);
      }
      assert false;
    }
    if Covers(rs, x) {
      var k: nat :| k < |rs| && rs[k].Has(x);
      if k > 0 {
        Ascending(rs, 0, k);
      }
    }
  }

  /** Two maximal lists of the same bytes are the same list: what an operation does to the bytes says all. */
  lemma {:induction false} SameBytesSameList(rs: seq<Range>, ts: seq<Range>)
    requires Maximal(rs) && Maximal(ts)
    requires forall x: int :: Covers(rs, x) <==> Covers(ts, x)
    ensures rs == ts
    decreases |rs|
  {
    if rs == [] {
      if ts != [] {
        FirstRange(ts, 0);
      }
    } else if ts == [] {
      FirstRange(rs, 0);
    } else {
      SameFirst(rs, ts);
      forall x: int ensures Covers(rs[1..], x) <==> Covers(ts[1..], x) {
        PoppedCovers(rs, x);
        PoppedCovers(ts, x);
      }
      PoppedCovers(rs, 0);
      PoppedCovers(ts, 0);
      SameBytesSameList(rs[1..], ts[1..]);
      assert rs == [rs[0]] + rs[1..] && ts == [ts[0]] + ts[1..];
    }
  }

  lemma SameFirst(rs: seq<Range>, ts: seq<Range>)
    requires Maximal(rs) && Maximal(ts) && rs != [] && ts != []
    requires forall x: int :: Covers(rs, x) <==> Covers(ts, x)
    ensures rs[0] == ts[0]
  {
    var a, b := rs[0], ts[0];
    FirstRange(rs, b.left);
    FirstRange(ts, a.left);
    assert Covers(ts, a.left) && Covers(rs, b.left);
    assert a.left == b.left;
    FirstRange(ts, a.right + 1);
    FirstRange(rs, b.right + 1);
  }

  /* ---------- ranges popped one after the other ---------- */

  /** One past the last byte popped. */
  function End(popped: seq<Range>): int {
    if popped == [] then 0 else popped[|popped| - 1].right + 1
  }

  /** Popped ranges follow one another from byte 0 on. */
  ghost predicate InOrder(popped: seq<Range>) {
    forall k: nat | k < |popped| :: popped[k].left == End(popped[..k]) && popped[k].left <= popped[k].right
  }

  /** The bytes that a range list covers if it is in order. */
  lemma {:induction false} InOrderCovers(popped: seq<Range>, x: int)
    requires InOrder(popped)
    ensures Covers(popped, x) <==> 0 <= x < End(popped)
    ensures End(popped) >= 0
    decreases |popped|
  {
    if popped != [] {
      var k := |popped| - 1;
      var before := popped[..k];
      forall i: nat | i < k ensures before[i].left == End(before[..i]) && before[i].left <= before[i].right {
        assert before[..i] == popped[..i] && before[i] == popped[i];
      }
      InOrderCovers(before, x);
      assert popped == before + [popped[k]];
      CoversAppend(before, [popped[k]], x);
      CoversOne(popped[k], x);
    }
  }

  lemma PopInOrder(popped: seq<Range>, r: Range)
    requires InOrder(popped) && r.left == End(popped) && r.left <= r.right
    ensures InOrder(popped + [r])
  {
    var p := popped + [r];
    forall k: nat | k < |p| ensures p[k].left == End(p[..k]) && p[k].left <= p[k].right {
      if k < |popped| {
        assert p[..k] == popped[..k] && p[k] == popped[k];
      } else {
        assert p[..k] == popped;
      }
    }
  }
}
