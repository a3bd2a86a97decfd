/** The memory-to-memory piece functions: they move the bytes of a piece between the user buffer
    and the next bytes of the stream buffer. */
module M2m {
  import opened Dataloops
  import opened LeafBlocks
  import opened Memory

  class M2mParams {
    const user: array<byte>
    const origin: int            // index in `user` of offset zero of the user buffer
    const stream: array<byte>
    const toUser: bool           // direction
    const typed: set<nat>        // element sizes copied by assignments of that size, not by memcpy
    var streambuf: nat           // next index in `stream`

    ghost var emitted: seq<int>  // the user-buffer offsets handed over so far
    ghost var start: nat
    ghost var user0: seq<byte>
    ghost var stream0: seq<byte>

    ghost predicate Valid()
      reads this, user, stream
    {
      && user != stream
      && start + |emitted| == streambuf <= stream.Length
      && |user0| == user.Length && |stream0| == stream.Length
      && Inside(emitted, origin, user.Length)
      && (if toUser then
            && stream[..] == stream0
            && user[..] == Scatter(user0, origin, emitted, stream0[start..streambuf])
          else
            && user[..] == user0
            && stream[..] == stream0[..start] + Gather(user0, origin, emitted) + stream0[streambuf..])
    }

    constructor (user: array<byte>, origin: int, stream: array<byte>, pos: nat, toUser: bool, typed: set<nat>)
      requires user != stream && pos <= stream.Length
      ensures Valid()
      ensures this.user == user && this.origin == origin && this.stream == stream
      ensures this.toUser == toUser && this.typed == typed && start == pos && emitted == []
      ensures user0 == user[..] && stream0 == stream[..]
    {
      this.user, this.origin, this.stream, this.toUser, this.typed := user, origin, stream, toUser, typed;
      streambuf, start := pos, pos;
      emitted, user0, stream0 := [], user[..], stream[..];
    }

    /** The buffer that is written. */
    ghost function Dest(): set<object> {
      if toUser then {user} else {stream}
    }

    /** Unpacking blocks of several elements by typed assignments leaves the source where it was. */
    ghost predicate MovesAlong(leaf: Loop) {
      leaf.shape.BlockIndexed? && toUser && leaf.elSize in typed ==> leaf.shape.biblocksize == 1
    }

    ghost predicate Room(bytes: seq<int>)
      reads this
    {
      && streambuf + |bytes| <= stream.Length
      && Inside(bytes, origin, user.Length)
    }

    ghost predicate SameRun(start_: nat, user0_: seq<byte>, stream0_: seq<byte>)
      reads this
    {
      start == start_ && user0 == user0_ && stream0 == stream0_
    }

    method CopyByte(off: int)
      requires Valid() && Room([off])
      modifies this, Dest()
      ensures Valid() && emitted == old(emitted) + [off]
      ensures SameRun(old(start), old(user0), old(stream0))
    {
      ghost var done := stream0[start..streambuf];
      assert 0 <= origin + [off][0] < user.Length;
      if toUser {
        ScatterOne(user0, origin, emitted, done, off, stream0[streambuf]);
        assert done + [stream0[streambuf]] == stream0[start..streambuf + 1];
        user[origin + off] := stream[streambuf];
      } else {
        stream[streambuf] := user[origin + off];
        assert stream[..] == stream0[..start] + Gather(user0, origin, emitted + [off]) + stream0[streambuf + 1..];
      }
      streambuf := streambuf + 1;
      emitted := emitted + [off];
    }

    /** memcpy of n bytes, and the stream buffer moved past them. */
    method CopyRun(off: int, n: nat)
      requires Valid() && Room(Run(off, n))
      modifies this, Dest()
      ensures Valid() && emitted == old(emitted) + Run(off, n)
      ensures SameRun(old(start), old(user0), old(stream0))
    {
      assert forall k: nat | k < n :: Run(off, n)[k] == off + k;
      for i := 0 to n
        invariant Valid() && emitted == old(emitted) + Run(off, i)
        invariant SameRun(old(start), old(user0), old(stream0))
        invariant streambuf == old(streambuf) + i
      {
        assert Run(off, n)[i] == off + i;
        CopyByte(off + i);
        assert Run(off, i + 1) == Run(off, i) + [off + i];
      }
    }

    /** Room for two pieces is room for the first and then for the second. */
    lemma RoomSplit(a: seq<int>, b: seq<int>)
      requires Room(a + b)
      ensures Room(a) && streambuf + |a| + |b| <= stream.Length && Inside(b, origin, user.Length)
    {
      InsideAppend(a, b, origin, user.Length);
    }

    /** Segment_contig_m2m */
    method Contig(n: nat, elSize: nat, relOff: int)
      requires Valid() && Room(Run(relOff, n * elSize))
      modifies this, Dest()
      ensures Valid() && emitted == old(emitted) + Run(relOff, n * elSize)
      ensures SameRun(old(start), old(user0), old(stream0))
    {
      CopyRun(relOff, n * elSize);
    }

    /** The whole blocks of a block-structured piece, one copy each, then the part of a block. */
    method CopyBlock(off: int, n: nat, elSize: nat, ghost leaf: Loop, ghost b: int, ghost i: nat, ghost left: nat)
      requires Valid() && i < leaf.shape.Count() && Room(Taken(leaf, b, i, left))
      requires off == b + leaf.shape.Offset(i) && leaf.elSize == elSize
      requires n == if left < leaf.shape.BlockSize(i) then left else leaf.shape.BlockSize(i)
      modifies this, Dest()
      ensures Valid() && SameRun(old(start), old(user0), old(stream0))
      ensures Room(Taken(leaf, b, i + 1, left - n))
      ensures emitted + Taken(leaf, b, i + 1, left - n) == old(emitted) + Taken(leaf, b, i, left)
    {
      ghost var tail := Taken(leaf, b, i + 1, left - n);
      TakenBlock(leaf, b, i, left, n, off);
      hide Taken, BlocksLeft, Scatter, Gather, Inside;
      var size := Product(n, elSize);
      RoomSplit(Run(off, size), tail);
      CopyRun(off, size);
      Assoc(old(emitted), Run(off, size), tail);
    }

    /** Segment_vector_m2m */
    method Vector(n: nat, blksz: nat, stride: int, elSize: nat, relOff: int, ghost leaf: Loop)
      requires leaf.shape.Vector? && leaf.shape.vblocksize == blksz && leaf.shape.stride == stride
      requires leaf.elSize == elSize && blksz >= 1
      requires n <= BlocksLeft(leaf.shape, 0)
      requires Valid() && Room(Taken(leaf, relOff, 0, n))
      modifies this, Dest()
      ensures Valid() && emitted == old(emitted) + Taken(leaf, relOff, 0, n)
      ensures SameRun(old(start), old(user0), old(stream0))
    {
      DivMod(n, blksz);
      var wholeCount: nat, blocksLeft: nat := n / blksz, n % blksz;
      VectorBlocks(n, wholeCount, blocksLeft, blksz, stride, elSize, relOff, leaf);
    }

    method VectorBlocks(ghost n: nat, wholeCount: nat, blocksLeft: nat, blksz: nat, stride: int, elSize: nat,
                        relOff: int, ghost leaf: Loop)
      requires leaf.shape.Vector? && leaf.shape.vblocksize == blksz && leaf.shape.stride == stride
      requires leaf.elSize == elSize && blksz >= 1
      requires WholeAndPart(n, blksz, wholeCount, blocksLeft)
      requires n <= BlocksLeft(leaf.shape, 0)
      requires Valid() && Room(Taken(leaf, relOff, 0, n))
      modifies this, Dest()
      ensures Valid() && emitted == old(emitted) + Taken(leaf, relOff, 0, n)
      ensures SameRun(old(start), old(user0), old(stream0))
    {
      var cbuf := relOff;
      ghost var left: nat := n;
      OffsetZero(leaf.shape);
      for i := 0 to wholeCount
        invariant Valid() && SameRun(old(start), old(user0), old(stream0))
        invariant cbuf == relOff + leaf.shape.Offset(i)
        invariant WholeAndPart(left, blksz, wholeCount - i, blocksLeft)
        invariant left <= BlocksLeft(leaf.shape, i)
        invariant Room(Taken(leaf, relOff, i, left))
        invariant emitted + Taken(leaf, relOff, i, left) == old(emitted) + Taken(leaf, relOff, 0, n)
      {
        WholePart(left, blksz, wholeCount - i, blocksLeft);
        OffsetNext(leaf.shape, i);
        CopyBlock(cbuf, blksz, elSize, leaf, relOff, i, left);
        left := left - blksz;
        cbuf := cbuf + stride;
      }
      WholePart(left, blksz, 0, blocksLeft);
      TakenZero(leaf, relOff, wholeCount);
      TakenZero(leaf, relOff, wholeCount + 1);
      if blocksLeft != 0 {
        CopyBlock(cbuf, blocksLeft, elSize, leaf, relOff, wholeCount, left);
      }
    }

    /** Segment_blkidx_m2m, in all branches that move the stream buffer along (see TypedCopy for the
        others). */
    method BlkIdx(n: nat, blocklen: nat, offsetarray: seq<int>, elSize: nat, relOff: int, ghost leaf: Loop)
      requires leaf.shape == BlockIndexed(blocklen, offsetarray)
      requires leaf.elSize == elSize && blocklen >= 1 && MovesAlong(leaf)
      requires n <= BlocksLeft(leaf.shape, 0)
      requires Valid() && Room(Taken(leaf, relOff, 0, n))
      modifies this, Dest()
      ensures Valid() && emitted == old(emitted) + Taken(leaf, relOff, 0, n)
      ensures SameRun(old(start), old(user0), old(stream0))
    {
      var blocksLeft: nat := n;
      var i := 0;
      while blocksLeft > 0
        invariant Valid() && SameRun(old(start), old(user0), old(stream0))
        invariant blocksLeft <= BlocksLeft(leaf.shape, i)
        invariant Room(Taken(leaf, relOff, i, blocksLeft))
        invariant emitted + Taken(leaf, relOff, i, blocksLeft) == old(emitted) + Taken(leaf, relOff, 0, n)
      {
        var len := if blocklen > blocksLeft then blocksLeft else blocklen;
        CopyBlock(relOff + offsetarray[i], len, elSize, leaf, relOff, i, blocksLeft);
        blocksLeft := blocksLeft - len;
        i := i + 1;
      }
      TakenZero(leaf, relOff, i);
    }

    /** Segment_index_m2m */
    method Index(n: nat, blockarray: seq<nat>, offsetarray: seq<int>, elSize: nat, relOff: int, ghost leaf: Loop)
      requires leaf.shape.Indexed? && leaf.shape.blocksizes == blockarray && leaf.shape.offsets == offsetarray
      requires leaf.shape.Positive()
      requires leaf.elSize == elSize
      requires n <= BlocksLeft(leaf.shape, 0)
      requires Valid() && Room(Taken(leaf, relOff, 0, n))
      modifies this, Dest()
      ensures Valid() && emitted == old(emitted) + Taken(leaf, relOff, 0, n)
      ensures SameRun(old(start), old(user0), old(stream0))
    {
      var blocksLeft: nat := n;
      var curblock := 0;
      while blocksLeft > 0
        invariant Valid() && SameRun(old(start), old(user0), old(stream0))
        invariant blocksLeft <= BlocksLeft(leaf.shape, curblock)
        invariant Room(Taken(leaf, relOff, curblock, blocksLeft))
        invariant emitted + Taken(leaf, relOff, curblock, blocksLeft)
               == old(emitted) + Taken(leaf, relOff, 0, n)
      {
        assert leaf.shape.BlockSize(curblock) >= 1;
        var curBlockSz := blockarray[curblock];
        if curBlockSz > blocksLeft {
          curBlockSz := blocksLeft;
        }
        CopyBlock(relOff + offsetarray[curblock], curBlockSz, elSize, leaf, relOff, curblock, blocksLeft);
        blocksLeft := blocksLeft - curBlockSz;
        curblock := curblock + 1;
      }
      TakenZero(leaf, relOff, curblock);
    }
  }
}
