/** Byte memories: what writing and reading a list of offsets does to them. */
module Memory {

  newtype byte = x: int | 0 <= x < 256

  /** The offsets lie in a memory of n bytes whose offset zero is at index `origin`. */
  ghost predicate Inside(offs: seq<int>, origin: int, n: nat) {
    forall k: nat | k < |offs| :: 0 <= origin + offs[k] < n
  }

  lemma InsideAppend(a: seq<int>, b: seq<int>, origin: int, n: nat)
    ensures Inside(a + b, origin, n) <==> Inside(a, origin, n) && Inside(b, origin, n)
  {
    assert forall k: nat | k < |a| :: (a + b)[k] == a[k];
    assert forall k: nat | k < |b| :: (a + b)[|a| + k] == b[k];
  }

  /** vals[k] written at offs[k], in order: later writes win. */
  ghost function Scatter(mem: seq<byte>, origin: int, offs: seq<int>, vals: seq<byte>): (r: seq<byte>)
    requires |offs| == |vals|
    requires Inside(offs, origin, |mem|)
    ensures |r| == |mem|
  {
    if offs == [] then mem
    else
      var m := |offs| - 1;
      Scatter(mem, origin, offs[..m], vals[..m])[origin + offs[m] := vals[m]]
  }

  ghost function Gather(mem: seq<byte>, origin: int, offs: seq<int>): seq<byte>
    requires Inside(offs, origin, |mem|)
  {
    seq(|offs|, k requires 0 <= k < |offs| => mem[origin + offs[k]])
  }

  ghost predicate Distinct(offs: seq<int>) {
    forall j: nat, k: nat | j < k < |offs| :: offs[j] != offs[k]
  }

  lemma ScatterOne(mem: seq<byte>, origin: int, offs: seq<int>, vals: seq<byte>, o: int, v: byte)
    requires |offs| == |vals|
    requires Inside(offs, origin, |mem|) && 0 <= origin + o < |mem|
    ensures Inside(offs + [o], origin, |mem|)
    ensures Scatter(mem, origin, offs + [o], vals + [v])
         == Scatter(mem, origin, offs, vals)[origin + o := v]
  {
    assert (offs + [o])[..|offs|] == offs;
    assert (vals + [v])[..|vals|] == vals;
  }

  /** Writing two lists one after the other is writing their concatenation. */
  lemma {:induction false} ScatterAppend(mem: seq<byte>, origin: int, a: seq<int>, x: seq<byte>,
                                         b: seq<int>, y: seq<byte>)
    requires |a| == |x| && |b| == |y|
    requires Inside(a, origin, |mem|) && Inside(b, origin, |mem|)
    ensures Inside(a + b, origin, |mem|)
    ensures Scatter(mem, origin, a + b, x + y) == Scatter(Scatter(mem, origin, a, x), origin, b, y)
    decreases |b|
  {
    if b == [] {
      assert a + b == a && x + y == x;
    } else {
      var m := |b| - 1;
      ScatterAppend(mem, origin, a, x, b[..m], y[..m]);
      assert a + b == a + b[..m] + [b[m]];
      assert x + y == x + y[..m] + [y[m]];
      ScatterOne(mem, origin, a + b[..m], x + y[..m], b[m], y[m]);
    }
  }

  /** The last position of x. */
  ghost function LastAt(offs: seq<int>, x: int): (k: nat)
    requires x in offs
    ensures k < |offs| && offs[k] == x && x !in offs[k + 1..]
  {
    var m := |offs| - 1;
    assert offs == offs[..m] + [offs[m]];
    if offs[m] == x then m
    else
      var k := LastAt(offs[..m], x);
      assert offs[k + 1..] == offs[..m][k + 1..] + [offs[m]];
      k
  }

  /** Index i of the result is the last value written there, else what was there before. */
  lemma {:induction false} ScatterAt(mem: seq<byte>, origin: int, offs: seq<int>, vals: seq<byte>, i: nat)
    requires |offs| == |vals| && i < |mem|
    requires Inside(offs, origin, |mem|)
    ensures i - origin !in offs ==> Scatter(mem, origin, offs, vals)[i] == mem[i]
    ensures i - origin in offs ==> Scatter(mem, origin, offs, vals)[i] == vals[LastAt(offs, i - origin)]
  {
    if offs != [] {
      var m := |offs| - 1;
      assert offs == offs[..m] + [offs[m]];
      if offs[m] != i - origin {
        ScatterAt(mem, origin, offs[..m], vals[..m], i);
      }
    }
  }

  /** With distinct offsets every value written is there at the end. */
  lemma ScatterDistinct(mem: seq<byte>, origin: int, offs: seq<int>, vals: seq<byte>, k: nat)
    requires |offs| == |vals| && k < |offs|
    requires Inside(offs, origin, |mem|) && Distinct(offs)
    ensures Scatter(mem, origin, offs, vals)[origin + offs[k]] == vals[k]
  {
    ScatterAt(mem, origin, offs, vals, origin + offs[k]);
    assert offs[k] in offs;
  }

  /** Unpack, then pack: the stream comes back when no byte is selected twice. */
  lemma GatherScatter(mem: seq<byte>, origin: int, offs: seq<int>, vals: seq<byte>)
    requires |offs| == |vals|
    requires Inside(offs, origin, |mem|) && Distinct(offs)
    ensures Gather(Scatter(mem, origin, offs, vals), origin, offs) == vals
  {
    forall k: nat | k < |offs|
      ensures Scatter(mem, origin, offs, vals)[origin + offs[k]] == vals[k]
    {
      ScatterDistinct(mem, origin, offs, vals, k);
    }
  }

  /** Pack, then unpack elsewhere: every selected byte is restored, every other byte is untouched,
      also when bytes are selected several times. */
  lemma ScatterGather(mem: seq<byte>, from: seq<byte>, origin: int, offs: seq<int>, i: nat)
    requires |mem| == |from| && i < |mem|
    requires Inside(offs, origin, |mem|)
    ensures Scatter(mem, origin, offs, Gather(from, origin, offs))[i]
         == if i - origin in offs then from[i] else mem[i]
  {
    hide Scatter, Inside;
    ScatterAt(mem, origin, offs, Gather(from, origin, offs), i);
  }
}
