/** Dataloop_create: the loop of a type, built from that of the type inside it, and which bytes it selects. */
module CreateTypes {
  import opened Dataloops
  import opened FlattenCount
  import opened Types
  import opened CreateVectors
  import opened CreateBlocks
  import opened CreateIndexes
  import opened SegmentStack
  import opened Segments
  import opened SegmentInit
  import F = Footprints

  /* ---------- one meaning in two forms ---------- */

  lemma {:induction false} CopiesJoin(bytes: seq<int>, s: seq<int>, t: seq<int>)
    ensures F.Copies(bytes, s + t) == F.Copies(bytes, s) + F.Copies(bytes, t)
    decreases |t|
  {
    hide Shift;
    if t == [] {
      assert s + t == s;
    } else {
      var k := |t| - 1;
      var st := s + t;
      CopiesJoin(bytes, s, t[..k]);
      assert |st| == |s| + k + 1 && st[..|s| + k] == s + t[..k] && st[|s| + k] == t[k];
      LastCopy(bytes, st);
      LastCopy(bytes, t);
    }
  }

  lemma LastCopy(bytes: seq<int>, s: seq<int>)
    requires s != []
    ensures F.Copies(bytes, s) == F.Copies(bytes, s[..|s| - 1]) + Shift(bytes, s[|s| - 1])
  {
  }

  lemma CopiesOne(bytes: seq<int>, x: int)
    ensures F.Copies(bytes, [x]) == Shift(bytes, x)
  {
    F.NothingBefore(bytes, x);
  }

  /** A block of instances. */
  lemma {:induction false} SameBlock(h: Handle, b: int, n: nat)
    ensures Copies(h, b, n) == F.Copies(TypeBytes(h, 0), F.Block(b, n, h.Extent()))
    decreases n
  {
    hide TypeBytes, Handle.Extent, F.Copies, Shift;
    if n > 0 {
      var e := h.Extent();
      var last := b + (n - 1) * e;
      SameBlock(h, b, n - 1);
      CopiesAppend(h, b, n - 1, 1);
      OneCopy(h, last);
      CopiesJoin(TypeBytes(h, 0), F.Block(b, n - 1, e), [last]);
    } else {
      NoOrigins(TypeBytes(h, 0));
    }
  }

  lemma OneCopy(h: Handle, b: int)
    ensures Copies(h, b, 1) == F.Copies(TypeBytes(h, 0), [b])
  {
    TypeBytesShift(h, 0, b);
    CopiesOne(TypeBytes(h, 0), b);
    hide TypeBytes;
    assert Copies(h, b, 1) == TypeBytes(h, b) + Copies(h, b + h.Extent(), 0);
  }

  lemma NoOrigins(bytes: seq<int>)
    ensures F.Copies(bytes, []) == []
  {
  }

  lemma {:induction false} StridedLast(h: Handle, b: int, i: nat, count: nat, blocklen: nat, stride: int)
    requires i <= count
    ensures StridedCopies(h, b, i, count + 1, blocklen, stride)
         == StridedCopies(h, b, i, count, blocklen, stride) + Copies(h, b + count * stride, blocklen)
    decreases count - i
  {
    hide Copies;
    if i < count {
      StridedLast(h, b, i + 1, count, blocklen, stride);
    } else {
      assert StridedCopies(h, b, i + 1, count + 1, blocklen, stride) == [];
    }
  }

  /** Blocks of one length, one stride apart. */
  lemma {:induction false} SameStrided(h: Handle, n: nat, blocklen: nat, stride: int)
    ensures StridedCopies(h, 0, 0, n, blocklen, stride)
         == F.Copies(TypeBytes(h, 0), F.Strided(n, blocklen, stride, h.Extent()))
    decreases n
  {
    hide Copies, TypeBytes;
    if n > 0 {
      SameStrided(h, n - 1, blocklen, stride);
      StridedLast(h, 0, 0, n - 1, blocklen, stride);
      SameBlock(h, (n - 1) * stride, blocklen);
      CopiesJoin(TypeBytes(h, 0), F.Strided(n - 1, blocklen, stride, h.Extent()),
                 F.Block((n - 1) * stride, blocklen, h.Extent()));
    }
  }

  lemma {:induction false} BlocksLast(h: Handle, lens: seq<nat>, disps: seq<int>, l: nat, d: int)
    requires |lens| == |disps|
    ensures BlockCopies(h, 0, lens + [l], disps + [d]) == BlockCopies(h, 0, lens, disps) + Copies(h, d, l)
    decreases |lens|
  {
    hide Copies;
    if lens == [] {
      assert lens + [l] == [l] && disps + [d] == [d] && [l][1..] == [] && [d][1..] == [];
      assert 0 + d == d;
    } else {
      BlocksLast(h, lens[1..], disps[1..], l, d);
      assert (lens + [l])[1..] == lens[1..] + [l] && (disps + [d])[1..] == disps[1..] + [d];
    }
  }

  /** Blocks of any lengths, at displacements in units. */
  lemma {:induction false} SameBlocks(h: Handle, lens: seq<nat>, disps: seq<int>, unit: int)
    requires |lens| == |disps|
    ensures BlockCopies(h, 0, lens, Scaled(disps, unit))
         == F.Copies(TypeBytes(h, 0), F.Blocks(lens, disps, unit, h.Extent()))
    decreases |lens|
  {
    hide Copies, TypeBytes;
    if lens != [] {
      var k := |lens| - 1;
      SameBlocks(h, lens[..k], disps[..k], unit);
      assert lens == lens[..k] + [lens[k]];
      assert Scaled(disps, unit) == Scaled(disps[..k], unit) + [disps[k] * unit];
      BlocksLast(h, lens[..k], Scaled(disps[..k], unit), lens[k], disps[k] * unit);
      SameBlock(h, disps[k] * unit, lens[k]);
      CopiesJoin(TypeBytes(h, 0), F.Blocks(lens[..k], disps[..k], unit, h.Extent()),
                 F.Block(disps[k] * unit, lens[k], h.Extent()));
    }
  }

  /* ---------- handles ---------- */

  /** The size of a type; size and extent are those of the MPI library. */
  function SizeOf(t: F.Mpi): nat
    requires t.Valid()
  {
    if t.Named? then t.size else F.Count(t) * SizeOf(t.inner)
  }

  function ExtentOf(t: F.Mpi): int
    requires t.Valid()
  {
    F.Ub(t) - F.Lb(t)
  }

  /** It is the number of bytes that the type has. */
  lemma {:induction false} SizeIs(t: F.Mpi)
    requires t.Valid()
    ensures |F.TypeMap(t)| == SizeOf(t)
    decreases t
  {
    hide F.Origins, F.Copies, F.Ub, F.Lb, F.Count, ExtentOf;
    if !t.Named? {
      SizeIs(t.inner);
      MapOf(t);
      InstancesSize(t, F.TypeMap(t.inner), ExtentOf(t.inner));
    }
  }

  lemma MapOf(t: F.Mpi)
    requires t.Valid() && !t.Named?
    ensures F.TypeMap(t) == F.Copies(F.TypeMap(t.inner), F.Origins(t, ExtentOf(t.inner)))
  {
    hide F.Origins, F.Copies, F.Ub, F.Lb;
  }

  lemma InstancesSize(t: F.Mpi, bytes: seq<int>, e: int)
    requires t.Valid()
    ensures |F.Copies(bytes, F.Origins(t, e))| == F.Count(t) * |bytes|
  {
    F.OriginCount(t, e);
    hide F.Origins, F.Count;
    F.CopiesLength(bytes, F.Origins(t, e));
  }

  /** The handle of a type with this loop. */
  function Handled(t: F.Mpi, dlp: Loop): Handle
    requires t.Valid()
  {
    Derived(dlp, SizeOf(t), ExtentOf(t))
  }

  /** The handle is fit for use as that of the type. */
  ghost predicate Stands(h: Handle, t: F.Mpi)
    requires t.Valid()
  {
    && h.Sized() && Tidy(h) && h.Size() == SizeOf(t) && h.Extent() == ExtentOf(t)
    && (h.Basic? <==> t.Named?) && (SizeOf(t) > 0 ==> Grounded(h))
  }

  lemma NamedStands(t: F.Mpi)
    requires t.Named?
    ensures Stands(Basic(t.size), t)
  {
  }

  lemma LoopStands(t: F.Mpi, h: Handle, dlp: Loop)
    requires t.Valid() && !t.Named? && Stands(h, t.inner) && Carries(h, dlp) && Fills(h, dlp, F.Count(t))
    ensures Stands(Handled(t, dlp), t)
  {
    hide F.Ub, F.Lb, F.Count;
  }

  /** A loop without data. */
  lemma EmptyStands(t: F.Mpi, h: Handle, dlp: Loop)
    requires t.Valid() && !t.Named? && F.Count(t) == 0 && Carries(h, dlp) && Fills(h, dlp, 0) && Tidy(h)
    ensures Stands(Handled(t, dlp), t)
  {
    hide F.Ub, F.Lb;
    assert 0 * SizeOf(t.inner) == 0 && 0 * h.Size() == 0;
  }

  /* ---------- one constructor ---------- */

  /** The instances of the inner type, with the bytes that its handle has. */
  ghost function Instances(t: F.Mpi, h: Handle): seq<int>
    requires t.Valid()
  {
    F.Copies(TypeBytes(h, 0), F.Origins(t, h.Extent()))
  }

  /** The assertion on the number of merged blocks holds. */
  predicate Makes(t: F.Mpi, h: Handle)
    requires t.Valid()
  {
    match t
    case Indexed(ls, ds, _) => CountsAgree(h, ls, ds, false) || HandsOn(h, ls, ds, false)
    case Hindexed(ls, ds, _) => CountsAgree(h, ls, ds, true) || HandsOn(h, ls, ds, true)
    case _ => true
  }

  /** The constructor called is exact. */
  ghost predicate Keeps(t: F.Mpi, h: Handle)
    requires t.Valid()
  {
    match t
    case Contiguous(n, _) => ContigExact(h, n)
    case Vector(n, bl, s, _) => VectorExact(h, n, bl, s, false)
    case Hvector(n, bl, s, _) => VectorExact(h, n, bl, s, true)
    case IndexedBlock(bl, ds, _) => BlockIndexedExact(h, bl, ds, false)
    case Indexed(ls, ds, _) => IndexedKept(h, ls, ds, false)
    case Hindexed(ls, ds, _) => IndexedKept(h, ls, ds, true)
    case _ => true
  }

  /** What is stored for a type: fit for use, and with the right bytes just when the constructor is exact. */
  ghost predicate Stored(t: F.Mpi, h: Handle, dlp: Loop)
    requires t.Valid()
  {
    Stands(Handled(t, dlp), t) && (Bytes(dlp, 0) == Instances(t, h) <==> Keeps(t, h))
  }

  /** The elements of what the constructor called makes. */
  function LevelGrain(t: F.Mpi, h: Handle, allBytes: bool): nat
    requires t.Valid()
  {
    match t
    case Vector(n, bl, s, _) => VectorGrain(h, n, bl, s, false, allBytes)
    case Hvector(n, bl, s, _) => VectorGrain(h, n, bl, s, true, allBytes)
    case IndexedBlock(bl, ds, _) => BlockGrain(h, bl, ds, false, allBytes)
    case Indexed(ls, ds, _) => IndexedGrain(h, ls, ds, false, allBytes)
    case Hindexed(ls, ds, _) => IndexedGrain(h, ls, ds, true, allBytes)
    case _ => Grain(h, allBytes)
  }

  /** Only a contiguous node of larger elements, fused into a vector, makes them other than those of the inner type. */
  lemma GrainKept(t: F.Mpi, h: Handle, allBytes: bool)
    requires t.Valid()
    requires Coalesces(h) && h.loop.Node? ==> h.loop.elSize == h.loop.LeafSize()
    ensures LevelGrain(t, h, allBytes) == Grain(h, allBytes)
  {
  }

  /** A count of zero, where there is one. */
  predicate ZeroCount(t: F.Mpi) {
    match t
    case Contiguous(n, _) => n == 0
    case Vector(n, _, _, _) => n == 0
    case Hvector(n, _, _, _) => n == 0
    case IndexedBlock(_, ds, _) => ds == []
    case Indexed(ls, _, _) => ls == []
    case Hindexed(ls, _, _) => ls == []
    case _ => false
  }

  lemma ZeroIs(t: F.Mpi, h: Handle)
    requires t.Valid() && ZeroCount(t)
    ensures F.Count(t) == 0 && Makes(t, h) && Keeps(t, h) && Instances(t, h) == []
  {
    F.OriginCount(t, h.Extent());
    assert F.Origins(t, h.Extent()) == [];
  }

  /** The inner type itself. */
  lemma Once(t: F.Mpi, h: Handle)
    requires t.Valid() && (t.Dup? || t.Resized?)
    ensures Instances(t, h) == TypeBytes(h, 0) == Copies(h, 0, 1)
  {
    CopiesOne(TypeBytes(h, 0), 0);
    assert Shift(TypeBytes(h, 0), 0) == TypeBytes(h, 0);
    assert Copies(h, 0, 1) == TypeBytes(h, 0) + Copies(h, 0 + h.Extent(), 0);
  }

  /** The extent stored in a leaf is not used for its bytes. */
  lemma ExtentUnused(l: Loop, e: int)
    requires l.Leaf? && l.shape.Contig?
    ensures Bytes(Leaf(l.shape, l.elSize, e), 0) == Bytes(l, 0)
  {
    ContigBytes(l, 0);
    ContigBytes(Leaf(l.shape, l.elSize, e), 0);
    LeafElems(l, 0, l.shape.count);
    LeafElems(Leaf(l.shape, l.elSize, e), 0, l.shape.count);
  }

  /** MPI_Type_dup and MPI_Type_create_resized: the inner type's own loop if it has one. */
  method SameLoop(t: F.Mpi, h: Handle, allBytes: bool) returns (dlp: Loop)
    requires t.Valid() && (t.Dup? || t.Resized?) && Stands(h, t.inner)
    ensures Stored(t, h, dlp) && Over(h, dlp, LevelGrain(t, h, allBytes))
  {
    hide F.Ub, F.Lb, F.Copies, Copies, F.Origins, SizeOf, Instances;
    Once(t, h);
    TypeBytesLen(h, 0);
    dlp := CreateContiguous(1, h, allBytes);
    LoopStands(t, h, dlp);
    if t.Resized? && h.Basic? {
      ExtentUnused(dlp, t.extent);
      dlp := Leaf(dlp.shape, dlp.elSize, t.extent);
    }
  }

  /** Where the instances of a constructor's blocks are, in bytes. */
  lemma StridedOrigins(t: F.Mpi, h: Handle, stride: int)
    requires t.Valid() && (t.Vector? || t.Hvector?)
    requires stride == if t.Vector? then t.stride * h.Extent() else t.stride
    ensures Instances(t, h) == StridedCopies(h, 0, 0, t.count, t.blklen, stride)
  {
    SameStrided(h, t.count, t.blklen, stride);
  }

  lemma BlockOrigins(t: F.Mpi, h: Handle)
    requires t.IndexedBlock? && t.Valid()
    ensures Instances(t, h)
         == BlockCopies(h, 0, Same(|t.disps|, t.blklen), ByteDisps(h, t.disps, false))
  {
    SameBlocks(h, Same(|t.disps|, t.blklen), t.disps, h.Extent());
  }

  lemma IndexedOrigins(t: F.Mpi, h: Handle)
    requires t.Valid() && (t.Indexed? || t.Hindexed?)
    ensures Instances(t, h) == BlockCopies(h, 0, t.lens, ByteDisps(h, t.disps, t.Hindexed?))
  {
    if t.Indexed? {
      SameBlocks(h, t.lens, t.disps, h.Extent());
    } else {
      SameBlocks(h, t.lens, t.disps, 1);
      assert Scaled(t.disps, 1) == t.disps;
    }
  }

  /** Dataloop_create for a constructed type, given the handle of the type inside it. */
  method LoopOver(t: F.Mpi, h: Handle, allBytes: bool) returns (made: bool, dlp: Loop)
    requires t.Valid() && !t.Named? && Stands(h, t.inner)
    ensures made <==> Makes(t, h)
    ensures made ==> Stored(t, h, dlp) && Over(h, dlp, LevelGrain(t, h, allBytes))
  {
    hide F.Origins, F.Ub, F.Lb, Instances, Copies, StridedCopies, BlockCopies, Bytes, ContigExact, VectorExact;
    hide Over, LevelGrain, Grain;
    hide BlockIndexedExact, IndexedKept, CountsAgree, HandsOn, ShortcutResult, Carries, Fills, Stands, SizeOf;
    made := true;
    if ZeroCount(t) {
      dlp := CreateContiguous(0, Basic(4), allBytes);
      ZeroStored(t, h, dlp, LevelGrain(t, h, allBytes));
      return;
    }
    match t {
      case Dup(_) => dlp := SameLoop(t, h, allBytes);
      case Resized(_, _, _) => dlp := SameLoop(t, h, allBytes);
      case Contiguous(n, _) => dlp := ContiguousOver(t, h, allBytes);
      case Vector(n, bl, s, _) => dlp := VectorOver(t, h, allBytes);
      case Hvector(n, bl, s, _) => dlp := VectorOver(t, h, allBytes);
      case IndexedBlock(bl, ds, _) => dlp := BlocksOver(t, h, allBytes);
      case Indexed(ls, ds, _) => made, dlp := IndexedOver(t, h, allBytes);
      case Hindexed(ls, ds, _) => made, dlp := IndexedOver(t, h, allBytes);
    }
  }

  lemma ZeroStored(t: F.Mpi, h: Handle, dlp: Loop, grain: nat)
    requires t.Valid() && ZeroCount(t) && Stands(h, t.inner)
    requires Carries(Basic(4), dlp) && Fills(Basic(4), dlp, 0) && dlp.Leaf?
    ensures Makes(t, h) && Stored(t, h, dlp) && Over(h, dlp, grain)
  {
    ZeroIs(t, h);
    EmptyStands(t, Basic(4), dlp);
  }

  method ContiguousOver(t: F.Mpi, h: Handle, allBytes: bool) returns (dlp: Loop)
    requires t.Valid() && t.Contiguous? && Stands(h, t.inner)
    ensures Stored(t, h, dlp) && Over(h, dlp, LevelGrain(t, h, allBytes))
  {
    hide Over, Grain, VectorGrain, BlockGrain;
    hide F.Ub, F.Lb, Copies, F.Copies, Bytes, ContigExact, Carries, Fills, Stands, SizeOf;
    StandsSized(h, t.inner);
    SameBlock(h, 0, t.count);
    dlp := CreateContiguous(t.count, h, allBytes);
    LoopStands(t, h, dlp);
  }

  lemma StandsSized(h: Handle, t: F.Mpi)
    requires t.Valid() && Stands(h, t)
    ensures h.Sized()
  {
  }

  method VectorOver(t: F.Mpi, h: Handle, allBytes: bool) returns (dlp: Loop)
    requires t.Valid() && (t.Vector? || t.Hvector?) && Stands(h, t.inner)
    ensures Stored(t, h, dlp) && Over(h, dlp, LevelGrain(t, h, allBytes))
  {
    hide Over, Grain, VectorGrain, BlockGrain;
    hide F.Ub, F.Lb, F.Origins, Instances, StridedCopies, F.Copies, Bytes, VectorExact, Carries, Fills, Stands, SizeOf;
    hide Rewrites;
    StandsSized(h, t.inner);
    StridedOrigins(t, h, if t.Vector? then t.stride * h.Extent() else t.stride);
    dlp := CreateVector(t.count, t.blklen, t.stride, t.Hvector?, h, allBytes);
    LoopStands(t, h, dlp);
  }

  method BlocksOver(t: F.Mpi, h: Handle, allBytes: bool) returns (dlp: Loop)
    requires t.Valid() && t.IndexedBlock? && Stands(h, t.inner)
    ensures Stored(t, h, dlp) && Over(h, dlp, LevelGrain(t, h, allBytes))
  {
    hide Over, Grain, VectorGrain, BlockGrain;
    hide F.Ub, F.Lb, F.Origins, Instances, BlockCopies, F.Copies, Bytes, BlockIndexedExact, Carries, Fills, Stands;
    hide WrongBlocks, SizeOf;
    StandsSized(h, t.inner);
    BlockOrigins(t, h);
    dlp := CreateBlockIndexed(t.blklen, t.disps, false, h, allBytes);
    LoopStands(t, h, dlp);
  }

  method IndexedOver(t: F.Mpi, h: Handle, allBytes: bool) returns (made: bool, dlp: Loop)
    requires t.Valid() && (t.Indexed? || t.Hindexed?) && Stands(h, t.inner)
    ensures made <==> Makes(t, h)
    ensures made ==> Stored(t, h, dlp) && Over(h, dlp, LevelGrain(t, h, allBytes))
  {
    hide Over, Grain, IndexedGrain;
    hide F.Ub, F.Lb, F.Origins, Instances, BlockCopies, F.Copies, Bytes, IndexedKept, Carries, Fills, Stands, SizeOf;
    hide ShortcutResult, HandsOn, CountsAgree;
    StandsSized(h, t.inner);
    IndexedOrigins(t, h);
    made := CountsAgree(h, t.lens, t.disps, t.Hindexed?) || HandsOn(h, t.lens, t.disps, t.Hindexed?);
    if made {
      dlp := CreateIndexed(t.lens, t.disps, t.Hindexed?, h, allBytes);
      LoopStands(t, h, dlp);
    } else {
      dlp := EmptyLoop(allBytes);
    }
  }

  /* ---------- whole types ---------- */

  /** The handles of a type and of all types inside it, the type's own first. */
  ghost predicate Built(t: F.Mpi, hs: seq<Handle>)
    requires t.Valid()
    decreases t
  {
    && hs != [] && Stands(hs[0], t)
    && (t.Named? ==> hs == [Basic(t.size)])
    && (!t.Named? ==>
          && |hs| >= 2 && Built(t.inner, hs[1..]) && Makes(t, hs[1])
          && hs[0] == Handled(t, hs[0].loop) && Stored(t, hs[1], hs[0].loop))
  }

  /** Every constructor called was exact for what it was given. */
  ghost predicate AllKeep(t: F.Mpi, hs: seq<Handle>)
    requires t.Valid()
    decreases t
  {
    !t.Named? ==> |hs| >= 2 && Keeps(t, hs[1]) && AllKeep(t.inner, hs[1..])
  }

  /** Every loop has the elements that its constructor makes, and no more levels than its type. */
  ghost predicate Cuts(t: F.Mpi, hs: seq<Handle>, allBytes: bool)
    requires t.Valid()
    decreases t
  {
    !t.Named? ==>
      && |hs| >= 2 && Cuts(t.inner, hs[1..], allBytes)
      && hs[0].Derived? && Over(hs[1], hs[0].loop, LevelGrain(t, hs[1], allBytes))
  }

  /** No constructor changes the elements. */
  ghost predicate GrainsKept(t: F.Mpi, hs: seq<Handle>, allBytes: bool)
    requires t.Valid()
    decreases t
  {
    !t.Named? ==>
      && |hs| >= 2 && LevelGrain(t, hs[1], allBytes) == Grain(hs[1], allBytes) && GrainsKept(t.inner, hs[1..], allBytes)
  }

  /** The size of the basic type inside. */
  function BasicSize(t: F.Mpi): nat {
    if t.Named? then t.size else BasicSize(t.inner)
  }

  function TypeLevels(t: F.Mpi): nat {
    if t.Named? then 0 else 1 + TypeLevels(t.inner)
  }

  /** Windows of a nested type can be cut at the elements of its basic type, or at bytes. */
  lemma {:induction false} BasicElements(t: F.Mpi, hs: seq<Handle>, allBytes: bool)
    requires t.Valid() && Built(t, hs) && Cuts(t, hs, allBytes) && GrainsKept(t, hs, allBytes) && SizeOf(t) > 0
    ensures Grain(hs[0], allBytes) == if allBytes then 1 else BasicSize(t)
    decreases t
  {
    hide F.Ub, F.Lb, Stored, Makes, LevelGrain;
    if !t.Named? {
      InnerSize(t);
      BasicElements(t.inner, hs[1..], allBytes);
    }
  }

  lemma InnerSize(t: F.Mpi)
    requires t.Valid() && !t.Named? && SizeOf(t) > 0
    ensures SizeOf(t.inner) > 0
  {
  }

  lemma {:induction false} FewLevels(t: F.Mpi, hs: seq<Handle>, allBytes: bool)
    requires t.Valid() && Built(t, hs) && Cuts(t, hs, allBytes)
    ensures Nesting(hs[0]) <= TypeLevels(t)
    decreases t
  {
    hide F.Ub, F.Lb, Stored, Makes, LevelGrain, SizeOf;
    if !t.Named? {
      FewLevels(t.inner, hs[1..], allBytes);
    }
  }

  /** No type inside has extent zero. */
  predicate Spread(t: F.Mpi)
    requires t.Valid()
  {
    !t.Named? ==> ExtentOf(t.inner) != 0 && Spread(t.inner)
  }

  lemma SpreadMakes(t: F.Mpi, h: Handle)
    requires t.Valid() && !t.Named? && h.Extent() != 0
    ensures Makes(t, h)
  {
    hide HandsOn;
  }

  /** Dataloop_create, which first creates the loops of the types inside; `made` is false if an assertion fails. */
  method CreateType(t: F.Mpi, allBytes: bool) returns (made: bool, hs: seq<Handle>)
    requires t.Valid()
    ensures made ==> Built(t, hs) && Cuts(t, hs, allBytes)
    ensures Spread(t) ==> made
    decreases t
  {
    hide LevelGrain, Over, F.Ub, F.Lb, Stored, Makes, SizeOf;
    if t.Named? {
      NamedStands(t);
      return true, [Basic(t.size)];
    }
    made, hs := CreateType(t.inner, allBytes);
    if !made {
      return;
    }
    ghost var inner := hs;
    var h := hs[0];
    if Spread(t) {
      SpreadMakes(t, h);
    }
    var dlp;
    made, dlp := LoopOver(t, h, allBytes);
    hs := [Handled(t, dlp)] + hs;
    assert hs[1..] == inner;
    if made {
      StoredStands(t, h, dlp);
    }
  }

  lemma StoredStands(t: F.Mpi, h: Handle, dlp: Loop)
    requires t.Valid() && Stored(t, h, dlp)
    ensures Stands(Handled(t, dlp), t)
  {
  }

  /** If the types inside are right, the loop of a type selects the type's bytes just when its own constructor was
      exact. */
  lemma LevelKept(t: F.Mpi, hs: seq<Handle>)
    requires t.Valid() && !t.Named? && Built(t, hs) && TypeBytes(hs[1], 0) == F.TypeMap(t.inner)
    ensures TypeBytes(hs[0], 0) == F.TypeMap(t) <==> Keeps(t, hs[1])
  {
    hide F.Ub, F.Lb, F.Origins, F.Copies, F.TypeMap, Makes, Keeps, SizeOf, Bytes;
    MapOf(t);
  }

  /** The loop built for a type selects the bytes that the type has, if every constructor was exact. */
  lemma {:induction false} TypeKept(t: F.Mpi, hs: seq<Handle>)
    requires t.Valid() && Built(t, hs) && AllKeep(t, hs)
    ensures TypeBytes(hs[0], 0) == F.TypeMap(t)
    decreases t
  {
    hide F.Ub, F.Lb, F.Origins, F.Copies, Keeps, SizeOf, Bytes, Stored, Makes;
    if !t.Named? {
      TypeKept(t.inner, hs[1..]);
      LevelKept(t, hs);
    }
  }

  /** The loop selects the bytes of `count` instances of the type. */
  ghost predicate Selects(root: Loop, t: F.Mpi, count: nat)
    requires t.Valid()
  {
    Bytes(root, 0) == F.Copies(F.TypeMap(t), F.Block(0, count, ExtentOf(t)))
  }

  /** Segment_init for a type: the stream is that of `count` instances. */
  method SegmentFor(t: F.Mpi, count: nat, allBytes: bool) returns (made: bool, hs: seq<Handle>, seg: Segment?)
    requires t.Valid() && SizeOf(t) > 0 && count >= 1
    ensures made ==>
      && Built(t, hs) && seg != null && fresh(seg) && fresh(seg.stackelm)
      && seg.Valid() && seg.Parked() && seg.Exact() && seg.streamOff == 0 && seg.root.WellFormed()
    ensures made && AllKeep(t, hs) ==> Selects(seg.root, t, count)
    ensures made && GrainsKept(t, hs, allBytes) ==>
              seg.root.LeafSize() == if allBytes && !t.Named? then 1 else BasicSize(t)
    ensures Spread(t) && TypeLevels(t) + 1 < MAX_DATATYPE_DEPTH ==> made
  {
    hide F.Ub, F.Lb, F.TypeMap, F.Copies, SizeOf, Bytes, AllKeep, Built, Cuts, GrainsKept, Stands, Grounded;
    seg := null;
    made, hs := CreateType(t, allBytes);
    if made {
      BuiltStands(t, hs);
      FewLevels(t, hs, allBytes);
      InitWellFormed(hs[0], count);
    }
    if !made || InitLoop(hs[0], count).Depth() >= MAX_DATATYPE_DEPTH {
      return false, hs, null;
    }
    seg := Init(0, count, hs[0]);
    SameBlock(hs[0], 0, count);
    if AllKeep(t, hs) {
      TypeKept(t, hs);
    }
    if GrainsKept(t, hs, allBytes) {
      BasicElements(t, hs, allBytes);
    }
  }

  lemma BuiltStands(t: F.Mpi, hs: seq<Handle>)
    requires t.Valid() && Built(t, hs) && SizeOf(t) > 0
    ensures hs != [] && hs[0].Sized() && Grounded(hs[0]) && (t.Named? ==> hs[0] == Basic(t.size))
    ensures hs[0].Extent() == ExtentOf(t) && (!t.Named? ==> hs[0].Derived?)
  {
  }
}
