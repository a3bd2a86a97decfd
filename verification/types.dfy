/** Datatype handles and what MPI-3.1, section 4.1.2, says that the type constructors select. */
module Types {
  import opened Dataloops
  import opened LeafBlocks
  import opened FlattenCount

  /** What the engine knows of a datatype: a basic type has no loop, and its extent is its size. */
  datatype Handle =
    | Basic(bsize: nat)
    | Derived(loop: Loop, dsize: nat, dextent: int)
  {
    function Size(): nat {
      if Basic? then bsize else dsize
    }

    function Extent(): int {
      if Basic? then bsize else dextent
    }

    /** The recorded sizes are those of the byte map. */
    ghost predicate Sized() {
      Derived? ==>
        && dsize == |Bytes(loop, 0)|
        && (loop.Node? ==> loop.elSize == |Bytes(loop.child, 0)|)
    }
  }

  /** No two neighbouring blocks of an indexed leaf abut (see FlattenCount). */
  ghost predicate Tidy(h: Handle) {
    h.Derived? ==> Separated(h.loop.LeafLoop())
  }

  /** What the segment engine asks of a type: that it has data, and no empty parts. */
  ghost predicate Grounded(h: Handle) {
    if h.Basic? then h.bsize >= 1 else h.loop.WellFormed()
  }

  /** A constructor's loop over a type keeps what the engine relies on: recorded sizes that are right, no
      empty parts if there is data, and no neighbours that abut. */
  ghost predicate Carries(h: Handle, dlp: Loop) {
    && (Tidy(h) ==> Separated(dlp.LeafLoop()))
    && (dlp.Node? ==> dlp.elSize == |Bytes(dlp.child, 0)|)
    && (Grounded(h) && Bytes(dlp, 0) != [] ==> dlp.WellFormed())
  }

  /** The loop selects as many bytes as n instances have. */
  ghost predicate Fills(h: Handle, dlp: Loop, n: nat) {
    |Bytes(dlp, 0)| == n * h.Size()
  }

  /** The size of the elements at which windows of a type can be cut; `allBytes` is for loops made of single bytes. */
  function Grain(h: Handle, allBytes: bool): nat {
    if h.Derived? then h.loop.LeafSize() else if allBytes then 1 else h.bsize
  }

  function Nesting(h: Handle): nat {
    if h.Basic? then 0 else h.loop.Depth()
  }

  /** A constructor's loop over a type: if it has data, windows can be cut at elements of `grain` bytes, and it adds no
      more than one level. */
  ghost predicate Over(h: Handle, dlp: Loop, grain: nat) {
    (Bytes(dlp, 0) != [] ==> dlp.LeafSize() == grain) && dlp.Depth() <= 1 + Nesting(h)
  }

  /** The bytes of one instance at b. */
  ghost function TypeBytes(h: Handle, b: int): seq<int> {
    if h.Basic? then Run(b, h.bsize) else Bytes(h.loop, b)
  }

  /** n instances, one extent apart: MPI_Type_contiguous. */
  ghost function Copies(h: Handle, b: int, n: nat): seq<int>
    decreases n
  {
    if n == 0 then [] else TypeBytes(h, b) + Copies(h, b + h.Extent(), n - 1)
  }

  /** Blocks of instances at given byte displacements: MPI_Type_create_hindexed. */
  ghost function BlockCopies(h: Handle, b: int, lens: seq<nat>, disps: seq<int>): seq<int>
    requires |lens| == |disps|
    decreases |lens|
  {
    if lens == [] then []
    else Copies(h, b + disps[0], lens[0]) + BlockCopies(h, b, lens[1..], disps[1..])
  }

  /** `count` blocks of one length, `stride` bytes apart, from block i on: MPI_Type_create_hvector. */
  ghost function StridedCopies(h: Handle, b: int, i: nat, count: nat, blocklen: nat, stride: int): seq<int>
    decreases count - i
  {
    if i >= count then []
    else Copies(h, b + i * stride, blocklen) + StridedCopies(h, b, i + 1, count, blocklen, stride)
  }

  /* ---------- loops around a type ---------- */

  /** The loop that a constructor stores when no shortcut applies. */
  function Wrap(s: Shape, h: Handle): Loop {
    if h.Basic? then Leaf(s, h.bsize, h.bsize) else Node(s, h.dsize, h.dextent, h.loop)
  }

  lemma {:induction false} WrapElems(s: Shape, h: Handle, b: int, n: nat)
    ensures Elems(Wrap(s, h), b, n) == Copies(h, b, n)
    decreases n
  {
    if n > 0 {
      WrapElems(s, h, b + h.Extent(), n - 1);
      WrapStep(s, h, b);
      hide Wrap, Elem, TypeBytes;
    }
  }

  lemma WrapStep(s: Shape, h: Handle, b: int)
    ensures Wrap(s, h).Step() == h.Extent() && Elem(Wrap(s, h), b) == TypeBytes(h, b)
  {
  }

  /** A leaf over a basic type in units of bytes. */
  lemma ByteElems(s: Shape, h: Handle, b: int, n: nat)
    requires h.Basic?
    ensures Elems(Leaf(s, 1, 1), b, n * h.bsize) == Copies(h, b, n)
  {
    WrapElems(s, h, b, n);
    LeafElems(Leaf(s, h.bsize, h.bsize), b, n);
    LeafElems(Leaf(s, 1, 1), b, n * h.bsize);
  }

  lemma TypeBytesLen(h: Handle, b: int)
    requires h.Sized()
    ensures |TypeBytes(h, b)| == h.Size()
  {
    if h.Derived? {
      BytesLen(h.loop, b);
    }
  }

  lemma TypeBytesShift(h: Handle, b: int, d: int)
    ensures TypeBytes(h, b + d) == Shift(TypeBytes(h, b), d)
  {
    if h.Derived? {
      BytesShift(h.loop, b, d);
    }
  }

  lemma {:induction false} CopiesAppend(h: Handle, b: int, n: nat, m: nat)
    ensures Copies(h, b, n + m) == Copies(h, b, n) + Copies(h, b + n * h.Extent(), m)
  {
    WrapElems(Contig(0), h, b, n + m);
    WrapElems(Contig(0), h, b, n);
    WrapElems(Contig(0), h, b + n * h.Extent(), m);
    ElemsAppend(Wrap(Contig(0), h), b, n, m);
  }

  lemma {:induction false} BlockCopiesLen(h: Handle, b: int, lens: seq<nat>, disps: seq<int>)
    requires h.Sized() && |lens| == |disps|
    ensures |BlockCopies(h, b, lens, disps)| == Sum(lens) * h.Size()
    decreases |lens|
  {
    if lens != [] {
      CopiesLen(h, b + disps[0], lens[0]);
      BlockCopiesLen(h, b, lens[1..], disps[1..]);
      Times(lens[0], Sum(lens[1..]), h.Size());
    } else {
      assert 0 * h.Size() == 0;
    }
  }

  lemma {:induction false} CopiesLen(h: Handle, b: int, n: nat)
    requires h.Sized()
    ensures |Copies(h, b, n)| == n * h.Size()
  {
    WrapElems(Contig(0), h, b, n);
    ElemsLen(Wrap(Contig(0), h), b, n);
    TypeBytesLen(h, 0);
  }

  /** A contiguous loop of n instances. */
  lemma WrapContig(h: Handle, b: int, n: nat)
    ensures Bytes(Wrap(Contig(n), h), b) == Copies(h, b, n)
  {
    var l := Wrap(Contig(n), h);
    WrapElems(Contig(n), h, b, n);
    assert BlocksFrom(l, b, 1) == [];
    assert BlocksFrom(l, b, 0) == Elems(l, b + 0, n) + BlocksFrom(l, b, 1);
  }

  lemma {:induction false} WrapStrided(h: Handle, b: int, i: nat, count: nat, blocklen: nat, stride: int)
    ensures BlocksFrom(Wrap(Vector(count, blocklen, stride), h), b, i)
         == StridedCopies(h, b, i, count, blocklen, stride)
    decreases count - i
  {
    if i < count {
      WrapElems(Vector(count, blocklen, stride), h, b + i * stride, blocklen);
      WrapStrided(h, b, i + 1, count, blocklen, stride);
    }
  }

  /** The same vector in bytes. */
  lemma {:induction false} ByteStrided(h: Handle, b: int, i: nat, count: nat, blocklen: nat, stride: int)
    requires h.Basic?
    ensures BlocksFrom(Leaf(Vector(count, blocklen * h.bsize, stride), 1, 1), b, i)
         == StridedCopies(h, b, i, count, blocklen, stride)
    decreases count - i
  {
    if i < count {
      ByteElems(Vector(count, blocklen * h.bsize, stride), h, b + i * stride, blocklen);
      ByteStrided(h, b, i + 1, count, blocklen, stride);
    }
  }

  /* ---------- what the engine relies on ---------- */

  lemma WrapCarries(s: Shape, h: Handle)
    requires h.Sized()
    requires Grounded(h) && Bytes(Wrap(s, h), 0) != [] ==> s.Positive()
    requires s.Indexed? && h.Basic? ==> Separated(Wrap(s, h))
    ensures Carries(h, Wrap(s, h))
  {
  }

  lemma LeafCarries(s: Shape, h: Handle, size: nat, extent: int)
    requires Grounded(h) && Bytes(Leaf(s, size, extent), 0) != [] ==> s.Positive() && size >= 1
    requires Separated(Leaf(s, size, extent))
    ensures Carries(h, Leaf(s, size, extent))
  {
  }
}
