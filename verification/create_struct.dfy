/** Dataloop_create_struct for systems with one representation: one type, one repeated type, basic types only,
    or any types, which are then flattened with the segment engine itself. */
module CreateStructs {
  import opened Dataloops
  import opened LeafBlocks
  import opened SegmentStack
  import opened FlattenCount
  import opened Segments
  import opened Types
  import opened CreateVectors
  import opened CreateBlocks
  import opened CreateIndexes
  import opened SegmentInit

  /** A member is a type, or one of the markers MPI_LB and MPI_UB, which have no data. */
  datatype Member = Marker | Of(h: Handle)

  datatype Struct = Struct(lens: seq<nat>, disps: seq<int>, types: seq<Member>)
  {
    ghost predicate Valid() {
      && |lens| == |disps| == |types|
      && forall k: nat | k < |types| && types[k].Of? :: types[k].h.Sized()
    }

    /** Member k has instances of a type. */
    predicate Real(k: nat)
      requires k < |lens| && |lens| == |types|
    {
      types[k].Of? && lens[k] != 0
    }
  }

  /** The bytes of member k: MPI_Type_create_struct. */
  ghost function MemberBytes(s: Struct, k: nat): seq<int>
    requires s.Valid() && k < |s.lens|
  {
    if s.Real(k) then Copies(s.types[k].h, s.disps[k], s.lens[k]) else []
  }

  /** The bytes of the first n members, in the order of the members. */
  ghost function StructBytes(s: Struct, n: nat): seq<int>
    requires s.Valid() && n <= |s.lens|
  {
    if n == 0 then [] else StructBytes(s, n - 1) + MemberBytes(s, n - 1)
  }

  /* ---------- blocks of bytes ---------- */

  const MPI_BYTE: Handle := Basic(1)

  lemma {:induction false} ByteCopies(size: nat, b: int, n: nat)
    ensures Copies(Basic(size), b, n) == Run(b, n * size)
    ensures Copies(MPI_BYTE, b, n * size) == Run(b, n * size)
  {
    WrapElems(Contig(0), Basic(size), b, n);
    LeafElems(Wrap(Contig(0), Basic(size)), b, n);
    WrapElems(Contig(0), MPI_BYTE, b, n * size);
    LeafElems(Wrap(Contig(0), MPI_BYTE), b, n * size);
  }

  lemma CopiesShift(h: Handle, b: int, n: nat)
    ensures Copies(h, b, n) == Shift(Copies(h, 0, n), b)
  {
    WrapElems(Contig(0), h, 0, n);
    WrapElems(Contig(0), h, b, n);
    ElemsShift(Wrap(Contig(0), h), 0, b, n);
  }

  lemma {:induction false} BlockCopiesPush(h: Handle, lens: seq<nat>, disps: seq<int>, n: nat, d: int)
    requires |lens| == |disps|
    ensures BlockCopies(h, 0, lens + [n], disps + [d]) == BlockCopies(h, 0, lens, disps) + Copies(h, d, n)
    decreases |lens|
  {
    if lens == [] {
      assert ([] + [n])[1..] == [] && (disps + [d])[1..] == [];
      assert 0 + d == d;
    } else {
      BlockCopiesPush(h, lens[1..], disps[1..], n, d);
      assert (lens + [n])[1..] == lens[1..] + [n] && (disps + [d])[1..] == disps[1..] + [d];
    }
  }

  /** Entries of bytes are blocks of MPI_BYTE. */
  lemma {:induction false} ExpandIsBlocks(disps: seq<int>, lens: seq<nat>)
    requires |disps| == |lens|
    ensures BlockCopies(MPI_BYTE, 0, lens, disps) == Expand(disps, lens)
    decreases |lens|
  {
    if lens != [] {
      var k := |lens| - 1;
      ExpandIsBlocks(disps[..k], lens[..k]);
      BlockCopiesPush(MPI_BYTE, lens[..k], disps[..k], lens[k], disps[k]);
      assert lens[..k] + [lens[k]] == lens && disps[..k] + [disps[k]] == disps;
      ByteCopies(1, disps[k], lens[k]);
    }
  }

  /* ---------- browsing the members ---------- */

  function NrBasics(s: Struct, n: nat): nat
    requires |s.lens| == |s.types| && n <= |s.lens|
  {
    if n == 0 then 0 else NrBasics(s, n - 1) + if s.Real(n - 1) && s.types[n - 1].h.Basic? then 1 else 0
  }

  function NrDerived(s: Struct, n: nat): nat
    requires |s.lens| == |s.types| && n <= |s.lens|
  {
    if n == 0 then 0 else NrDerived(s, n - 1) + if s.Real(n - 1) && s.types[n - 1].h.Derived? then 1 else 0
  }

  datatype Option<T> = None | Some(value: T)

  /** All basic (derived) members so far have the given type, if any is given. */
  ghost predicate OneType(s: Struct, n: nat, basic: bool, first: Option<Handle>)
    requires s.Valid() && n <= |s.lens|
  {
    first.Some? ==> forall k: nat | k < n && s.Real(k) && s.types[k].h.Basic? == basic :: s.types[k].h == first.value
  }

  /** Two basic (derived) members differ in type. */
  ghost predicate Differ(s: Struct, n: nat, basic: bool)
    requires s.Valid() && n <= |s.lens|
  {
    exists j: nat, k: nat | j < n && k < n ::
      s.Real(j) && s.Real(k) && s.types[j].h.Basic? == s.types[k].h.Basic? == basic && s.types[j] != s.types[k]
  }

  /** Member pos is the first one with data. */
  ghost predicate FirstReal(s: Struct, pos: nat)
    requires s.Valid()
  {
    pos < |s.lens| && s.Real(pos) && forall k: nat | k < pos :: !s.Real(k)
  }

  lemma {:induction false} NoneOf(s: Struct, n: nat, k: nat)
    requires s.Valid() && k < n <= |s.lens| && s.Real(k)
    ensures s.types[k].h.Basic? ==> NrBasics(s, n) >= 1
    ensures s.types[k].h.Derived? ==> NrDerived(s, n) >= 1
    decreases n
  {
    if k < n - 1 {
      NoneOf(s, n - 1, k);
    }
  }

  ghost predicate HasType(s: Struct, n: nat, h: Handle)
    requires s.Valid() && n <= |s.lens|
  {
    exists k: nat | k < n :: s.Real(k) && s.types[k].h == h
  }

  /** What browsing found out about the first n members. */
  ghost predicate Browsed(s: Struct, n: nat, nrBasics: nat, nrDerived: nat,
                          firstBasic: Option<Handle>, firstDerived: Option<Handle>, pos: nat)
    requires s.Valid() && n <= |s.lens|
  {
    && nrBasics == NrBasics(s, n) && nrDerived == NrDerived(s, n)
    && OneType(s, n, true, firstBasic) && OneType(s, n, false, firstDerived)
    && (firstBasic.Some? ==> firstBasic.value.Basic?) && (firstDerived.Some? ==> firstDerived.value.Derived?)
    && (nrBasics >= 1 && firstBasic.None? ==> Differ(s, n, true))
    && (nrDerived >= 1 && firstDerived.None? ==> Differ(s, n, false))
    && (firstBasic.Some? ==> HasType(s, n, firstBasic.value))
    && (firstDerived.Some? ==> HasType(s, n, firstDerived.value))
    && (nrBasics == 1 ==> firstBasic.Some?) && (nrDerived == 1 ==> firstDerived.Some?)
    && ((nrBasics == 0) != (nrDerived == 0) ==> FirstReal(s, pos) && pos < n)
  }

  method Browse(s: Struct)
    returns (nrBasics: nat, nrDerived: nat, firstBasic: Option<Handle>, firstDerived: Option<Handle>, pos: nat)
    requires s.Valid()
    ensures Browsed(s, |s.lens|, nrBasics, nrDerived, firstBasic, firstDerived, pos)
  {
    nrBasics, nrDerived, firstBasic, firstDerived, pos := 0, 0, None, None, 0;
    for i := 0 to |s.lens|
      invariant Browsed(s, i, nrBasics, nrDerived, firstBasic, firstDerived, pos)
    {
      if s.lens[i] == 0 {
        continue;
      }
      if s.types[i].Of? {
        var h := s.types[i].h;
        ghost var before := NrBasics(s, i) + NrDerived(s, i);
        forall k: nat | k < i && s.Real(k) ensures before >= 1 {
          NoneOf(s, i, k);
        }
        if h.Basic? {
          if nrBasics == 0 {
            NoBasics(s, i);
            firstBasic, pos := Some(h), i;
          } else if firstBasic != Some(h) {
            firstBasic := None;
          }
          nrBasics := nrBasics + 1;
        } else {
          if nrDerived == 0 {
            NoDerived(s, i);
            firstDerived, pos := Some(h), i;
          } else if firstDerived != Some(h) {
            firstDerived := None;
          }
          nrDerived := nrDerived + 1;
        }
      }
    }
  }

  lemma NoBasics(s: Struct, n: nat)
    requires s.Valid() && n <= |s.lens| && NrBasics(s, n) == 0
    ensures forall k: nat | k < n && s.Real(k) :: s.types[k].h.Derived?
  {
    forall k: nat | k < n && s.Real(k) ensures s.types[k].h.Derived? {
      NoneOf(s, n, k);
    }
  }

  lemma NoDerived(s: Struct, n: nat)
    requires s.Valid() && n <= |s.lens| && NrDerived(s, n) == 0
    ensures forall k: nat | k < n && s.Real(k) :: s.types[k].h.Basic?
  {
    forall k: nat | k < n && s.Real(k) ensures s.types[k].h.Basic? {
      NoneOf(s, n, k);
    }
  }

  lemma {:induction false} SingleMember(s: Struct, n: nat, pos: nat)
    requires s.Valid() && n <= |s.lens| && pos < |s.lens| && s.Real(pos)
    ensures NrBasics(s, n) + NrDerived(s, n) == 0 ==> StructBytes(s, n) == [] && n <= pos
    ensures NrBasics(s, n) + NrDerived(s, n) == 1 && pos < n ==> StructBytes(s, n) == MemberBytes(s, pos)
    decreases n
  {
    if n > 0 {
      SingleMember(s, n - 1, pos);
    }
  }

  lemma {:induction false} NoMembers(s: Struct, n: nat)
    requires s.Valid() && n <= |s.lens| && NrBasics(s, n) + NrDerived(s, n) == 0
    ensures StructBytes(s, n) == []
    decreases n
  {
    if n > 0 {
      NoMembers(s, n - 1);
    }
  }

  /* ---------- one type, several times ---------- */

  function SelectedLens(s: Struct, t: Member, from: nat, n: nat): (r: seq<nat>)
    requires s.Valid() && n <= |s.lens|
    ensures |r| == |SelectedDisps(s, t, from, n)|
  {
    if n <= from then []
    else SelectedLens(s, t, from, n - 1) + if s.types[n - 1] == t then [s.lens[n - 1]] else []
  }

  function SelectedDisps(s: Struct, t: Member, from: nat, n: nat): seq<int>
    requires s.Valid() && n <= |s.lens|
  {
    if n <= from then []
    else SelectedDisps(s, t, from, n - 1) + if s.types[n - 1] == t then [s.disps[n - 1]] else []
  }

  /** If all members with data have type t, the members of that type have all the data. */
  lemma {:induction false} SelectedBytes(s: Struct, t: Handle, from: nat, n: nat)
    requires s.Valid() && n <= |s.lens|
    requires forall k: nat | k < n && s.Real(k) :: from <= k && s.types[k].h == t
    ensures BlockCopies(t, 0, SelectedLens(s, Of(t), from, n), SelectedDisps(s, Of(t), from, n)) == StructBytes(s, n)
    decreases n
  {
    if n > 0 {
      SelectedBytes(s, t, from, n - 1);
      var l, d := SelectedLens(s, Of(t), from, n - 1), SelectedDisps(s, Of(t), from, n - 1);
      if n > from && s.types[n - 1] == Of(t) {
        BlockCopiesPush(t, l, d, s.lens[n - 1], s.disps[n - 1]);
      } else {
        assert l + [] == l && d + [] == d;
        assert StructBytes(s, n - 1) + [] == StructBytes(s, n - 1);
      }
    }
  }

  lemma {:induction false} SelectedFirst(s: Struct, t: Handle, from: nat, n: nat)
    requires s.Valid() && from < n <= |s.lens| && s.types[from] == Of(t) && s.lens[from] != 0
    ensures SelectedLens(s, Of(t), from, n) != [] && SelectedLens(s, Of(t), from, n)[0] != 0
    decreases n
  {
    if from < n - 1 {
      SelectedFirst(s, t, from, n - 1);
      assert SelectedLens(s, Of(t), from, n)[0] == SelectedLens(s, Of(t), from, n - 1)[0];
    } else {
      assert SelectedLens(s, Of(t), from, from) == [];
      assert [] + [s.lens[from]] == [s.lens[from]];
    }
  }

  /** DLOOP_Dataloop_create_unique_type_struct */
  method CreateUniqueType(s: Struct, pos: nat, allBytes: bool) returns (dlp: Loop)
    requires s.Valid() && FirstReal(s, pos)
    requires forall k: nat | k < |s.lens| && s.Real(k) :: s.types[k] == s.types[pos]
    ensures Bytes(dlp, 0) == StructBytes(s, |s.lens|) <==>
      IndexedExact(s.types[pos].h, SelectedLens(s, s.types[pos], pos, |s.lens|),
                   SelectedDisps(s, s.types[pos], pos, |s.lens|), true)
    ensures Carries(s.types[pos].h, dlp)
    ensures Over(s.types[pos].h, dlp, IndexedGrain(s.types[pos].h, SelectedLens(s, s.types[pos], pos, |s.lens|),
                                                   SelectedDisps(s, s.types[pos], pos, |s.lens|), true, allBytes))
  {
    hide Over, IndexedGrain;
    var tmpLens, tmpDisps, t := [], [], s.types[pos];
    for i := pos to |s.lens|
      invariant tmpLens == SelectedLens(s, t, pos, i) && tmpDisps == SelectedDisps(s, t, pos, i)
    {
      if s.types[i] == t {
        tmpLens := tmpLens + [s.lens[i]];
        tmpDisps := tmpDisps + [s.disps[i]];
      }
    }
    SelectedBytes(s, t.h, pos, |s.lens|);
    SelectedFirst(s, t.h, pos, |s.lens|);
    dlp := IndexedInBytes(tmpLens, tmpDisps, t.h, allBytes);
  }

  /** With a first block that is not empty the indexed constructor has no address error. */
  method IndexedInBytes(lens: seq<nat>, disps: seq<int>, h: Handle, allBytes: bool) returns (dlp: Loop)
    requires |lens| == |disps| && h.Sized() && lens != [] && lens[0] != 0
    ensures Bytes(dlp, 0) == BlockCopies(h, 0, lens, disps) <==> IndexedExact(h, lens, disps, true)
    ensures Carries(h, dlp) && Over(h, dlp, IndexedGrain(h, lens, disps, true, allBytes))
  {
    hide Over, IndexedGrain;
    dlp := CreateIndexed(lens, disps, true, h, allBytes);
    if HandsOn(h, lens, disps, true) {
      HandedRightlyWhen(h, lens, disps, true);
    }
  }

  /* ---------- basic types only ---------- */

  /** A basic type never makes a shortcut wrong. */
  lemma BasicExact(h: Handle, lens: seq<nat>, disps: seq<int>)
    requires |lens| == |disps| && h.Basic?
    ensures IndexedExact(h, lens, disps, true)
  {
  }

  function ByteLens(s: Struct, n: nat): (r: seq<nat>)
    requires s.Valid() && n <= |s.lens|
    ensures |r| == |RealDisps(s, n)|
  {
    if n == 0 then []
    else ByteLens(s, n - 1) + if s.Real(n - 1) then [s.types[n - 1].h.Size() * s.lens[n - 1]] else []
  }

  function RealDisps(s: Struct, n: nat): seq<int>
    requires s.Valid() && n <= |s.lens|
  {
    if n == 0 then []
    else RealDisps(s, n - 1) + if s.Real(n - 1) then [s.disps[n - 1]] else []
  }

  lemma {:induction false} ByteLensBytes(s: Struct, n: nat)
    requires s.Valid() && n <= |s.lens|
    requires forall k: nat | k < n && s.Real(k) :: s.types[k].h.Basic?
    ensures BlockCopies(MPI_BYTE, 0, ByteLens(s, n), RealDisps(s, n)) == StructBytes(s, n)
    decreases n
  {
    if n > 0 {
      ByteLensBytes(s, n - 1);
      if s.Real(n - 1) {
        var size, len := s.types[n - 1].h.Size(), s.lens[n - 1];
        BlockCopiesPush(MPI_BYTE, ByteLens(s, n - 1), RealDisps(s, n - 1), size * len, s.disps[n - 1]);
        ByteCopies(size, s.disps[n - 1], len);
        assert size * len == len * size;
      } else {
        assert ByteLens(s, n - 1) + [] == ByteLens(s, n - 1) && RealDisps(s, n - 1) + [] == RealDisps(s, n - 1);
        assert StructBytes(s, n - 1) + [] == StructBytes(s, n - 1);
      }
    }
  }

  lemma {:induction false} ByteLensPositive(s: Struct, n: nat)
    requires s.Valid() && n <= |s.lens|
    requires forall k: nat | k < n && s.Real(k) :: s.types[k].h.Size() >= 1
    ensures forall k: nat | k < |ByteLens(s, n)| :: ByteLens(s, n)[k] >= 1
    decreases n
  {
    if n > 0 {
      ByteLensPositive(s, n - 1);
      if s.Real(n - 1) {
        MulLe(1, s.types[n - 1].h.Size(), s.lens[n - 1]);
        ghost var x := s.types[n - 1].h.Size() * s.lens[n - 1];
        PushPositive(ByteLens(s, n - 1), x);
      } else {
        assert ByteLens(s, n - 1) + [] == ByteLens(s, n - 1);
      }
    }
  }

  lemma PushPositive(s: seq<nat>, x: nat)
    requires x >= 1 && forall k: nat | k < |s| :: s[k] >= 1
    ensures forall k: nat | k < |s + [x]| :: (s + [x])[k] >= 1
  {
  }

  /** Bytes stay bytes. */
  lemma BytesGrain(lens: seq<nat>, disps: seq<int>, allBytes: bool)
    requires |lens| == |disps|
    ensures IndexedGrain(MPI_BYTE, lens, disps, true, allBytes) == 1
  {
  }

  /** DLOOP_Dataloop_create_basic_all_bytes_struct */
  method CreateAllBytes(s: Struct, allBytes: bool) returns (dlp: Loop)
    requires s.Valid()
    requires forall k: nat | k < |s.lens| && s.Real(k) :: s.types[k].h.Basic? && s.types[k].h.bsize >= 1
    ensures Bytes(dlp, 0) == StructBytes(s, |s.lens|)
    ensures Carries(MPI_BYTE, dlp) && Over(MPI_BYTE, dlp, 1)
  {
    var tmpLens: seq<nat>, tmpDisps := [], [];
    for i := 0 to |s.lens|
      invariant tmpLens == ByteLens(s, i) && tmpDisps == RealDisps(s, i)
    {
      if s.types[i].Of? && s.lens[i] != 0 {
        tmpLens := tmpLens + [s.types[i].h.Size() * s.lens[i]];
        tmpDisps := tmpDisps + [s.disps[i]];
      }
    }
    ByteLensBytes(s, |s.lens|);
    ByteLensPositive(s, |s.lens|);
    BytesGrain(tmpLens, tmpDisps, allBytes);
    BasicExact(MPI_BYTE, tmpLens, tmpDisps);
    if tmpLens == [] {
      assert tmpDisps == [];
      NoBlocksOf(MPI_BYTE, 0);
      dlp := CreateIndexed(tmpLens, tmpDisps, true, MPI_BYTE, allBytes);
    } else {
      dlp := IndexedInBytes(tmpLens, tmpDisps, MPI_BYTE, allBytes);
    }
  }

  /* ---------- any types ---------- */

  /** What flattening with the engine relies on for a member's type: sizes recorded, and if there is data, no
      empty parts, no abutting neighbours and not too many levels. */
  ghost predicate Flattenable(h: Handle) {
    && h.Sized()
    && (h.Size() > 0 ==> Grounded(h) && Tidy(h))
    && (h.Basic? ==> h.bsize >= 1)
    && (h.Derived? && h.dsize > 0 ==> h.loop.Depth() + 1 < MAX_DATATYPE_DEPTH)
  }

  ghost predicate AllFlattenable(s: Struct)
    requires s.Valid()
  {
    forall k: nat | k < |s.lens| && s.Real(k) :: Flattenable(s.types[k].h)
  }

  /** Member k has data. */
  predicate HasData(s: Struct, k: nat)
    requires k < |s.lens| && |s.lens| == |s.types|
  {
    s.Real(k) && (s.types[k].h.Basic? || s.types[k].h.dsize > 0)
  }

  /** The entries that member k takes. */
  ghost function MemberEntries(s: Struct, k: nat): nat
    requires s.Valid() && k < |s.lens|
  {
    if HasData(s, k) then Runs(Copies(s.types[k].h, 0, s.lens[k])) else 0
  }

  ghost function Entries(s: Struct, n: nat): nat
    requires s.Valid() && n <= |s.lens|
  {
    if n == 0 then 0 else Entries(s, n - 1) + MemberEntries(s, n - 1)
  }

  lemma {:induction false} EntriesMonotone(s: Struct, n: nat, m: nat)
    requires s.Valid() && n <= m <= |s.lens|
    ensures Entries(s, n) <= Entries(s, m)
    decreases m
  {
    if n < m {
      EntriesMonotone(s, n, m - 1);
    }
  }

  lemma OneRunOnly(b: int, n: nat)
    requires n >= 1
    ensures Runs(Run(b, n)) == 1
  {
    RunsAppend([], b, n);
    assert [] + Run(b, n) == Run(b, n);
  }

  /** A basic member takes one entry. */
  lemma BasicEntries(size: nat, n: nat)
    requires size >= 1 && n >= 1
    ensures Runs(Copies(Basic(size), 0, n)) == 1
  {
    ByteCopies(size, 0, n);
    MulLe(1, n, size);
    OneRunOnly(0, n * size);
  }

  /** The first pass: one entry for a basic member, as many as its contiguous blocks for another. */
  method CountEntries(s: Struct) returns (nrBlks: nat)
    requires s.Valid() && AllFlattenable(s)
    ensures nrBlks == Entries(s, |s.lens|)
  {
    nrBlks := 0;
    for i := 0 to |s.lens|
      invariant nrBlks == Entries(s, i)
    {
      if s.lens[i] == 0 {
        continue;
      }
      if s.types[i].Of? {
        var h := s.types[i].h;
        assert s.Real(i);
        if h.Basic? {
          BasicEntries(h.bsize, s.lens[i]);
          nrBlks := nrBlks + 1;
        } else if h.dsize > 0 {
          var tmp := CountMember(h, s.lens[i]);
          nrBlks := nrBlks + tmp;
        }
      }
    }
  }

  lemma HasBytes(h: Handle, n: nat)
    requires h.Sized() && h.Size() > 0 && n >= 1
    ensures |Copies(h, 0, n)| > 0
  {
    CopiesLen(h, 0, n);
    MulLe(1, n, h.Size());
  }

  /** A segment over n instances of a member's type, ready to run over all their bytes. */
  method MemberSegment(h: Handle, n: nat, disp: int) returns (seg: Segment)
    requires Flattenable(h) && h.Size() > 0 && n >= 1
    ensures fresh(seg) && fresh(seg.stackelm) && seg.Valid() && seg.Parked() && seg.ptr == disp
    ensures seg.Runnable(0, IGNORE_LAST) && seg.StreamFor(0) == seg.stream == Copies(h, 0, n)
    ensures seg.TargetOf(IGNORE_LAST) == |seg.stream| > 0 && Separated(seg.root.LeafLoop())
  {
    InitWellFormed(h, n);
    seg := Init(disp, n, h);
    HasBytes(h, n);
    hide Segment.Valid, Copies, Separated, Flattenable, Bytes;
    seg.InitialStream(0);
    seg.WholeTarget();
  }

  method CountMember(h: Handle, n: nat) returns (count: nat)
    requires Flattenable(h) && h.Size() > 0 && n >= 1
    ensures count == Runs(Copies(h, 0, n))
  {
    hide Segment.Valid, Flattenable, Copies, Separated, Runs;
    var seg := MemberSegment(h, n, 0);
    count := CountContigBlocks(seg, 0);
    assert seg.stream[0..] == seg.stream;
  }

  /** One member flattened with its displacement as the buffer address. */
  method FlattenMember(h: Handle, n: nat, disp: int, disps: array<int>, lens: array<nat>, start: nat, room: nat)
    returns (length: nat)
    requires Flattenable(h) && h.Size() > 0 && n >= 1
    requires room >= 1 && room >= Runs(Copies(h, 0, n))
    requires start + room <= disps.Length && start + room <= lens.Length
    modifies disps, lens
    ensures length == Runs(Copies(h, 0, n))
    ensures disps[..start] == old(disps[..start]) && lens[..start] == old(lens[..start])
    ensures Flattened(disps[start..start + length], lens[start..start + length], Copies(h, 0, n), disp)
  {
    hide Segment.Valid, Flattenable, Copies, Separated, Runs, Flattened, FlattenStopped;
    var seg := MemberSegment(h, n, disp);
    ghost var all := seg.stream;
    var last;
    last, length := MpiFlatten(seg, 0, IGNORE_LAST, disps, lens, start, room);
    seg.WholeTarget();
    WholeFlattened(all, last, length, room, disps[start..start + length], lens[start..start + length], disp);
  }

  /** With room for all runs the whole stream is flattened. */
  lemma WholeFlattened(all: seq<int>, last: nat, length: nat, room: nat, d: seq<int>, l: seq<nat>, ptr: int)
    requires 0 < |all| && last <= |all| && FlattenStopped(all, 0, last, |all|, length, room) && Runs(all) <= room
    requires Flattened(d, l, all[0..last], ptr)
    ensures length == Runs(all) && Flattened(d, l, all, ptr)
  {
    hide Flattened, Runs, FlattenStopped;
    assert all[0..] == all && all[0..|all|] == all;
    CountIsRoom(all, 0, last, length, room);
  }

  /** The entries so far stand for the members so far. */
  ghost predicate Holding(s: Struct, n: nat, disps: seq<int>, lens: seq<nat>)
    requires s.Valid() && n <= |s.lens|
  {
    && |disps| == |lens| == Entries(s, n)
    && Expand(disps, lens) == StructBytes(s, n)
    && forall k: nat | k < |lens| :: lens[k] >= 1
  }

  lemma HoldingMore(s: Struct, n: nat, disps: seq<int>, lens: seq<nat>, d: seq<int>, l: seq<nat>)
    requires s.Valid() && n < |s.lens| && HasData(s, n) && Holding(s, n, disps, lens)
    requires Flattened(d, l, Copies(s.types[n].h, 0, s.lens[n]), s.disps[n])
    requires |d| == MemberEntries(s, n)
    ensures Holding(s, n + 1, disps + d, lens + l)
  {
    ExpandAppend(disps, lens, d, l);
    CopiesShift(s.types[n].h, s.disps[n], s.lens[n]);
  }

  lemma HoldingNext(s: Struct, n: nat, disps: seq<int>, lens: seq<nat>, first: nat, next: nat)
    requires s.Valid() && n < |s.lens| && HasData(s, n) && first <= next <= |disps| == |lens|
    requires Holding(s, n, disps[..first], lens[..first])
    requires Flattened(disps[first..next], lens[first..next], Copies(s.types[n].h, 0, s.lens[n]), s.disps[n])
    requires next - first == MemberEntries(s, n)
    ensures Holding(s, n + 1, disps[..next], lens[..next])
  {
    HoldingMore(s, n, disps[..first], lens[..first], disps[first..next], lens[first..next]);
    assert disps[..next] == disps[..first] + disps[first..next];
    assert lens[..next] == lens[..first] + lens[first..next];
  }

  lemma HoldingSame(s: Struct, n: nat, disps: seq<int>, lens: seq<nat>)
    requires s.Valid() && n < |s.lens| && !HasData(s, n) && Holding(s, n, disps, lens)
    ensures Holding(s, n + 1, disps, lens)
  {
    if s.Real(n) {
      CopiesLen(s.types[n].h, s.disps[n], s.lens[n]);
    }
    assert StructBytes(s, n) + [] == StructBytes(s, n);
  }

  /** The second pass stays inside arrays of the counted length and two more. */
  method FlattenMembers(s: Struct, nrBlks: nat) returns (disps: array<int>, lens: array<nat>, firstInd: nat)
    requires s.Valid() && AllFlattenable(s) && nrBlks == Entries(s, |s.lens|) + 2
    ensures firstInd <= disps.Length && firstInd <= lens.Length
    ensures Holding(s, |s.lens|, disps[..firstInd], lens[..firstInd])
  {
    hide Holding, Entries, AllFlattenable, MemberEntries, HasData, Struct.Valid, Struct.Real;
    NoneYet(s);
    lens, disps := new nat[nrBlks], new int[nrBlks];
    firstInd := 0;
    assert disps[..0] == [] && lens[..0] == [];
    for i := 0 to |s.lens|
      invariant firstInd == Entries(s, i) && firstInd + 2 <= nrBlks
      invariant Holding(s, i, disps[..firstInd], lens[..firstInd])
    {
      EntriesNext(s, i);
      EntriesMonotone(s, i + 1, |s.lens|);
      firstInd := FlattenStep(s, i, disps, lens, firstInd, nrBlks);
    }
  }

  method FlattenStep(s: Struct, i: nat, disps: array<int>, lens: array<nat>, firstInd: nat, nrBlks: nat)
    returns (next: nat)
    requires s.Valid() && AllFlattenable(s) && i < |s.lens|
    requires disps.Length == lens.Length == nrBlks && firstInd + MemberEntries(s, i) + 2 <= nrBlks
    requires Holding(s, i, disps[..firstInd], lens[..firstInd])
    modifies disps, lens
    ensures next == firstInd + MemberEntries(s, i)
    ensures Holding(s, i + 1, disps[..next], lens[..next])
  {
    if HasData(s, i) {
      next := FlattenNext(s, i, disps, lens, firstInd, nrBlks);
    } else {
      HoldingSame(s, i, disps[..firstInd], lens[..firstInd]);
      next := firstInd;
    }
  }

  lemma NoneYet(s: Struct)
    requires s.Valid()
    ensures |s.lens| == |s.disps| == |s.types| && Entries(s, 0) == 0 && Holding(s, 0, [], [])
  {
    assert Expand([], []) == StructBytes(s, 0);
  }

  lemma EntriesNext(s: Struct, i: nat)
    requires s.Valid() && i < |s.lens|
    ensures Entries(s, i + 1) == Entries(s, i) + MemberEntries(s, i) && (!HasData(s, i) ==> MemberEntries(s, i) == 0)
  {
  }

  lemma FlattenedMember(s: Struct, i: nat)
    requires s.Valid() && AllFlattenable(s) && i < |s.lens| && HasData(s, i)
    ensures s.types[i].Of? && Flattenable(s.types[i].h) && s.types[i].h.Size() > 0 && s.lens[i] >= 1
    ensures MemberEntries(s, i) == Runs(Copies(s.types[i].h, 0, s.lens[i]))
  {
  }

  method FlattenNext(s: Struct, i: nat, disps: array<int>, lens: array<nat>, firstInd: nat, nrBlks: nat)
    returns (next: nat)
    requires s.Valid() && AllFlattenable(s) && i < |s.lens| && HasData(s, i)
    requires disps.Length == lens.Length == nrBlks && firstInd + MemberEntries(s, i) + 2 <= nrBlks
    requires Holding(s, i, disps[..firstInd], lens[..firstInd])
    modifies disps, lens
    ensures next == firstInd + MemberEntries(s, i)
    ensures Holding(s, i + 1, disps[..next], lens[..next])
  {
    hide Holding, Flattenable, AllFlattenable, HasData, Flattened, Copies, Runs, MemberEntries;
    FlattenedMember(s, i);
    var h := s.types[i].h;
    var lastInd := FlattenMember(h, s.lens[i], s.disps[i], disps, lens, firstInd, nrBlks - firstInd);
    next := firstInd + lastInd;
    HoldingNext(s, i, disps[..], lens[..], firstInd, next);
  }

  /** DLOOP_Dataloop_create_flattened_struct */
  method CreateFlattened(s: Struct, allBytes: bool) returns (dlp: Loop)
    requires s.Valid() && AllFlattenable(s)
    ensures Bytes(dlp, 0) == StructBytes(s, |s.lens|)
    ensures Carries(MPI_BYTE, dlp) && Over(MPI_BYTE, dlp, 1)
  {
    var nrBlks := CountEntries(s);
    if nrBlks == 0 {
      NoEntries(s, |s.lens|);
      EmptyCarries(MPI_BYTE, allBytes, 1);
      return EmptyLoop(allBytes);
    }
    var tmpDisps, tmpLens, n := FlattenMembers(s, nrBlks + 2);
    ExpandIsBlocks(tmpDisps[..n], tmpLens[..n]);
    BasicExact(MPI_BYTE, tmpLens[..n], tmpDisps[..n]);
    BytesGrain(tmpLens[..n], tmpDisps[..n], allBytes);
    dlp := IndexedInBytes(tmpLens[..n], tmpDisps[..n], MPI_BYTE, allBytes);
  }

  lemma {:induction false} NoEntries(s: Struct, n: nat)
    requires s.Valid() && AllFlattenable(s) && n <= |s.lens| && Entries(s, n) == 0
    ensures StructBytes(s, n) == []
    decreases n
  {
    if n > 0 {
      NoEntries(s, n - 1);
      if HasData(s, n - 1) {
        HasBytes(s.types[n - 1].h, s.lens[n - 1]);
        SomeRuns(Copies(s.types[n - 1].h, 0, s.lens[n - 1]));
      } else if s.Real(n - 1) {
        CopiesLen(s.types[n - 1].h, s.disps[n - 1], s.lens[n - 1]);
      }
    }
  }

  lemma {:induction false} SomeRuns(s: seq<int>)
    requires s != []
    ensures Runs(s) >= 1
    decreases |s|
  {
    if |s| > 1 {
      SomeRuns(s[..|s| - 1]);
    }
  }

  /* ---------- the constructor ---------- */

  /** The member that decides: the first one with data. */
  function FirstWithData(s: Struct, n: nat): nat
    requires s.Valid() && n <= |s.lens|
  {
    if n == 0 then |s.lens|
    else if FirstWithData(s, n - 1) < |s.lens| then FirstWithData(s, n - 1)
    else if s.Real(n - 1) then n - 1 else |s.lens|
  }

  lemma {:induction false} FirstIs(s: Struct, n: nat, pos: nat)
    requires s.Valid() && FirstReal(s, pos) && pos < n <= |s.lens|
    ensures FirstWithData(s, n) == pos
    decreases n
  {
    if pos < n - 1 {
      FirstIs(s, n - 1, pos);
    } else {
      NotBefore(s, pos);
    }
  }

  lemma {:induction false} NotBefore(s: Struct, n: nat)
    requires s.Valid() && n <= |s.lens| && forall k: nat | k < n :: !s.Real(k)
    ensures FirstWithData(s, n) == |s.lens|
    decreases n
  {
    if n > 0 {
      NotBefore(s, n - 1);
    }
  }

  /** All members with data have the type of the first one. */
  predicate SameTypes(s: Struct)
    requires s.Valid()
  {
    var pos := FirstWithData(s, |s.lens|);
    forall k: nat | k < |s.lens| && s.Real(k) :: pos < |s.lens| && s.types[k] == s.types[pos]
  }

  /** Only members that are all of one type can meet the shortcuts that are not always right. */
  ghost predicate StructExact(s: Struct)
    requires s.Valid()
  {
    var n, pos := |s.lens|, FirstWithData(s, |s.lens|);
    if pos >= n || !s.types[pos].Of? then true
    else if NrBasics(s, n) + NrDerived(s, n) == 1 then
      BlockIndexedExact(s.types[pos].h, s.lens[pos], [s.disps[pos]], true)
    else if SameTypes(s) then
      IndexedExact(s.types[pos].h, SelectedLens(s, s.types[pos], pos, n), SelectedDisps(s, s.types[pos], pos, n), true)
    else true
  }

  /** Members of different types become bytes; of one type, what the constructor called makes of that. */
  ghost predicate StructOver(s: Struct, dlp: Loop, allBytes: bool)
    requires s.Valid()
  {
    var n, pos := |s.lens|, FirstWithData(s, |s.lens|);
    if pos >= n || !s.types[pos].Of? then Over(MPI_BYTE, dlp, 1)
    else if NrBasics(s, n) + NrDerived(s, n) == 1 then Over(s.types[pos].h, dlp, Grain(s.types[pos].h, allBytes))
    else if !SameTypes(s) then Over(MPI_BYTE, dlp, 1)
    else Over(s.types[pos].h, dlp, IndexedGrain(s.types[pos].h, SelectedLens(s, s.types[pos], pos, n),
                                                SelectedDisps(s, s.types[pos], pos, n), true, allBytes))
  }

  lemma SingleGrain(h: Handle, len: nat, disp: int, allBytes: bool)
    ensures BlockGrain(h, len, [disp], true, allBytes) == Grain(h, allBytes)
  {
  }

  lemma OneInstance(h: Handle, len: nat, disp: int)
    ensures BlockCopies(h, 0, Same(1, len), ByteDisps(h, [disp], true)) == Copies(h, disp, len)
  {
    SingleBlock(h, len, [disp]);
    assert 0 + disp == disp;
  }

  /** Two types mean two kinds, or one kind with no single type. */
  lemma NotSame(s: Struct, nrBasics: nat, nrDerived: nat, firstBasic: Option<Handle>,
                firstDerived: Option<Handle>, pos: nat)
    requires s.Valid() && Browsed(s, |s.lens|, nrBasics, nrDerived, firstBasic, firstDerived, pos)
    requires (nrDerived == 0 && firstBasic.Some?) || (nrBasics == 0 && firstDerived.Some?)
    requires nrBasics + nrDerived >= 1
    ensures FirstReal(s, pos) && FirstWithData(s, |s.lens|) == pos
    ensures forall k: nat | k < |s.lens| && s.Real(k) :: s.types[k] == s.types[pos]
  {
    FirstIs(s, |s.lens|, pos);
    if nrDerived == 0 {
      NoDerived(s, |s.lens|);
    } else {
      NoBasics(s, |s.lens|);
    }
  }

  lemma {:induction false} SomeMember(s: Struct, n: nat, basic: bool) returns (k: nat)
    requires s.Valid() && n <= |s.lens| && (if basic then NrBasics(s, n) else NrDerived(s, n)) >= 1
    ensures k < n && s.Real(k) && s.types[k].h.Basic? == basic
    decreases n
  {
    if s.Real(n - 1) && s.types[n - 1].h.Basic? == basic {
      k := n - 1;
    } else {
      k := SomeMember(s, n - 1, basic);
    }
  }

  /** When the types are not all the same. */
  lemma TypesDiffer(s: Struct, nrBasics: nat, nrDerived: nat, firstBasic: Option<Handle>,
                    firstDerived: Option<Handle>, pos: nat)
    requires s.Valid() && Browsed(s, |s.lens|, nrBasics, nrDerived, firstBasic, firstDerived, pos)
    requires nrBasics + nrDerived >= 1
    requires !(nrDerived == 0 && firstBasic.Some?) && !(nrBasics == 0 && firstDerived.Some?)
    ensures !SameTypes(s)
  {
    var n := |s.lens|;
    if nrBasics >= 1 && nrDerived >= 1 {
      var j := SomeMember(s, n, true);
      var k := SomeMember(s, n, false);
      assert s.types[j] != s.types[k];
    } else {
      assert Differ(s, n, nrDerived == 0);
    }
  }

  /** Every member's type could be run and counted by the engine. */
  ghost predicate AllSound(s: Struct)
    requires s.Valid()
  {
    forall k: nat | k < |s.lens| && s.Real(k) :: Grounded(s.types[k].h) && Tidy(s.types[k].h)
  }

  /** Dataloop_create_struct, with one representation for all types. Only members of different types are flattened. */
  method CreateStruct(s: Struct, allBytes: bool) returns (dlp: Loop)
    requires s.Valid() && (SameTypes(s) || AllFlattenable(s))
    ensures Bytes(dlp, 0) == StructBytes(s, |s.lens|) <==> StructExact(s)
    ensures AllSound(s) ==> Carries(MPI_BYTE, dlp)
    ensures StructOver(s, dlp, allBytes)
  {
    hide Over, Grain, BlockGrain, IndexedGrain, BlockIndexedExact, IndexedExact, BlockCopies, Copies;
    if |s.lens| == 0 {
      EmptyCarries(MPI_BYTE, allBytes, 1);
      return EmptyLoop(allBytes);
    }
    var nrBasics, nrDerived, firstBasic, firstDerived, pos := Browse(s);
    ghost var n := |s.lens|;
    if nrBasics == 0 && nrDerived == 0 {
      NoMembers(s, n);
      NoneFirst(s, n);
      EmptyCarries(MPI_BYTE, allBytes, 1);
      return EmptyLoop(allBytes);
    }
    if nrBasics + nrDerived == 1 {
      SingleMember(s, n, pos);
      FirstIs(s, n, pos);
      OneInstance(s.types[pos].h, s.lens[pos], s.disps[pos]);
      dlp := CreateBlockIndexed(s.lens[pos], [s.disps[pos]], true, s.types[pos].h, allBytes);
      SingleGrain(s.types[pos].h, s.lens[pos], s.disps[pos], allBytes);
    } else if (nrDerived == 0 && firstBasic.Some?) || (nrBasics == 0 && firstDerived.Some?) {
      NotSame(s, nrBasics, nrDerived, firstBasic, firstDerived, pos);
      dlp := CreateUniqueType(s, pos, allBytes);
    } else {
      TypesDiffer(s, nrBasics, nrDerived, firstBasic, firstDerived, pos);
      if nrDerived == 0 {
        NoDerived(s, n);
        dlp := CreateAllBytes(s, allBytes);
      } else {
        dlp := CreateFlattened(s, allBytes);
      }
    }
  }

  lemma {:induction false} NoneFirst(s: Struct, n: nat)
    requires s.Valid() && n <= |s.lens| && NrBasics(s, n) + NrDerived(s, n) == 0
    ensures FirstWithData(s, n) == |s.lens|
    decreases n
  {
    if n > 0 {
      NoneFirst(s, n - 1);
    }
  }
}
