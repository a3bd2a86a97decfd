# Verified models of the sPIN datatype engine, packet reassembly and the inbound NIC engine

The project models, in Dafny, the parts of the repository in which order, position and memory matter:

- **Dataloops and segments** (`dataloop.dfy` to `segment.dfy`). A dataloop is a chain of contiguous, vector,
  blockindexed and indexed levels over a leaf of elements; it selects memory bytes in a fixed order, its byte map. A
  segment is the stack machine that hands any window of that stream, piece by piece, to the functions of a caller. It
  can stop anywhere between elements and go on later; a window that lies behind it makes it start over and replay
  silently. The model has the same stack fields, branches and piece functions as the code.
- **Resets and packets** (`displacement.dfy`, `history.dfy`, `position.dfy`, `paths.dfy`, `reach.dfy`, `windows.dfy`,
  `nic_handler.dfy`, `misdelivery.dfy`, `flows.dfy`, `flow_example.dfy`). A reset sets up level 0 only. These files say
  exactly when that is enough, for single windows, for histories of windows, for the packets that the NIC handler
  scatters to host memory, and for the part of host memory that belongs to a flow.
- **Packing and unpacking** (`m2m.dfy`, `typed_copy.dfy`, `round_trip.dfy`), **flattening and counting**
  (`flatten.dfy`, `segment_init.dfy`).
- **Type constructors** (`types.dfy`, `create_*.dfy`): the loops that contiguous, vector, blockindexed, indexed and
  struct types are turned into, with all shortcuts, against the byte maps of MPI-3.1, section 4.1.2
  (`block_disps.dfy` has the blocks at wrong displacements). `create_type.dfy` builds the loop of a nested type and
  connects it with the type map. The struct constructor flattens its members with the engine itself.
- **Footprints and distributed arrays** (`footprint.dfy`, `darray.dfy`).
- **Out-of-order reassembly** (`ranges.dfy`, `lazylist*.dfy`, `reassembly.dfy`): the list of byte ranges as one thread
  uses it, and as many threads do that search without locks and validate what they found.
- **The inbound NIC engine** (`ring.dfy`, `axi.dfy`, `axi_master.dfy`, `nic_queues.dfy`, `nic_memory.dfy`,
  `nic_inbound.dfy`): packet buffer, AXI bursts and write beats, the queues from arrival to feedback, and what the beats
  leave in memory.

`dafny verify dfyconfig.toml` checks all of it. Methods follow the loops and updates of the code; what they promise is
stated by functions and predicates on values, about which the lemmas speak.

## Where the code does not do what it is for

Each of these is stated exactly, with the condition under which the code is right.

- A reset leaves the block sizes of the levels below level 0 as they are, and a push does not set them for nodes
  (`segment.c` 283-293, 767-905). A segment that was stopped inside a block of another size then starts over with
  displaced blocks. Loops whose levels below the root have blocks of one size are safe; for all others that select no
  byte twice a message can be cut into packets that, in some order, leave host memory wrong
  (`Displacements.ResetExact`, `NicHandler.Deliver`, `Misdeliveries.ResettableIff`, `Misdeliveries.WrongDelivery`). A
  loop that meets this: two instances of an indexed type of blocks of one and two elements.
- So a message can be written outside its user buffer, also into the window of another flow. It stays inside, in any
  order of packets, if and only if the lowest and the highest byte of the loop lie in the space of a message; for
  resettable loops that is so when the user buffer of the type fits, and in stream order for all loops
  (`Reaches.ContainedIff`, `Flows.AnyOrderFlow`, `Flows.AnyPackets`, `Flows.Escape`, `Flows.FootprintFits`,
  `Flows.InOrderFlow`, `FlowExamples.LeavesWindow`).
- Unpacking blocks of several elements by typed assignments does not advance the source (`segment_packunpack.c`
  341-371): every block gets the same bytes. The result is right if and only if the data repeats
  (`RoundTrips.UnpackAll`, `RoundTrips.TypedLosesData`).
- A contiguous type over a contiguous type is merged into it also when the inner loop steps by another extent
  (`CreateVectors.CreateContiguous`, `CreateVectors.CoalescingLosesExtent`), and a vector over a contiguous type is made
  a vector of bytes also when that type is not one run of bytes (`CreateVectors.CreateVector`,
  `CreateVectors.FusionLosesOrder`). That branch rewrites the loop of the contiguous type in place, so that this type
  loses its bytes (`CreateVectors.OldTypeKept`). Where it does absorb a contiguous type of a larger type, windows can be
  cut only at the elements of that (`CreateVectors.FusionLosesOrder`, `CreateTypes.GrainKept`).
- The indexed constructor computes the address of a displacement as if displacements had 32 bits. With byte
  displacements and an empty block at the front, another displacement is handed on
  (`CreateIndexes.CreateIndexed`, `CreateIndexes.MisreadDisplacement`, `CreateIndexes.HandedRightlyWhen`).
- For a type with zero extent the indexed constructor counts more blocks than its copy writes, which its assertion
  would catch (`CreateIndexes.Counted`, `CreateIndexes.ZeroExtentMiscounts`).
- An insertion into the reassembly list that overlaps returns the same value as one that succeeds
  (`LazyLists.LazyList.Insert`). A pop validates its two nodes but not that the first one still is the first; only the
  check of the expected byte makes up for that (`ListRuns.PopElsewhere`, `ListRuns.StaleFront`). Bytes that come again
  after they were delivered block delivery for good: delivery goes on if and only if no range stored reaches below the
  next expected byte (`Reassembly.BlockedAfter`, `Reassembly.GoesOnIff`, `Reassembly.BlockedState`).
- A ring that wraps while it is empty never reclaims its slots (`Rings.FreeInAnyOrder`, `Rings.WrapWhileEmpty`), and an
  empty ring refuses packets that fit its buffer but neither side of the pointers (`Rings.Ring.RoomMeans`).
- In Fortran order, an undistributed dimension that is spread over several processes is held by all of them, in C order
  by one (`Darrays.OneRank`, `Darrays.TwoRanks`).
- `feedback_progress` reads the feedback address without looking at the valid bit; the model therefore lets the
  environment give any address that is not in the cluster, or a correct one.

## Model

| member | source | states |
|---|---|---|
| Segments.Segment.Manipulate | examples/datatypes/mpitypes/src/dataloop/segment.c:334-922 | for every loop without structs and every window that starts at an element: the piece functions are handed exactly the bytes of the window of the stream, in order and once each; a run ends at the last whole element before `last`, or earlier only where flattening has no entry left; the stream drawn on is the current one, or after going back the one that a reset gives; equal ends change nothing |
| Segments.Segment.ResetValues | examples/datatypes/mpitypes/src/dataloop/segment.c:283-293 | starting over sets up level 0 only: the stream is then what entering the root delivers with the block sizes that the levels below still hold |
| Segments.Segment.Push | examples/datatypes/mpitypes/src/dataloop/segment.c:767-905 | starting an element of a node puts its child on the stack, and the rest of the stream stays what it was |
| Segments.Segment.EndBlock | examples/datatypes/mpitypes/src/dataloop/segment.c:726-766 | at the end of a block the level goes on with the next block or is left, and the rest of the stream stays what it was |
| Segments.Segment.LeafStep | examples/datatypes/mpitypes/src/dataloop/segment.c:452-725 | one step at a leaf hands over the next bytes of the stream, cut at `last`, and moves the stack past exactly those; it stops only at the end of the window or where the piece function refused more |
| LeafCalls.ChoosePiece | examples/datatypes/mpitypes/src/dataloop/segment.c:452-520 | the function chosen fits where the leaf stands: a block function is asked for all that is left of the leaf and only at the start of a block (vector) or of the leaf (blockindexed, indexed), all others for the rest of the block |
| LeafSteps.WholeBlocks | examples/datatypes/mpitypes/src/dataloop/segment.c:621-718 | after a piece that finishes a block, the level has exactly the bytes behind that piece left; it is left only when there are none |
| SegmentInit.InitBytes | examples/datatypes/mpitypes/src/dataloop/segment.c:49-223 | whichever of the loops for a basic type, one instance, a coalesced or strided contiguous leaf, or any other type is set up, it selects `count` instances, one extent apart |
| SegmentInit.Init | examples/datatypes/mpitypes/src/dataloop/segment.c:49-223 | a new segment stands at the start of the stream of those instances, and its elements are those of the type, so that its windows may be cut wherever one of these ends |
| Displacements.ResetExact | examples/datatypes/mpitypes/src/dataloop/segment.c:283-293 | a reset gives back the byte map of the loop if and only if no level below level 0 holds the size of a block other than its first (or its elements lie on top of each other) |
| Displacements.WindowExact | examples/datatypes/mpitypes/src/dataloop/segment.c:390-441 | after a reset a window is handed over rightly if and only if the displacement of each of its bytes is zero; no other byte matters |
| Histories.ReplayExact | examples/datatypes/mpitypes/src/dataloop/segment.c:390-441 | a run that goes back draws on the byte map if and only if no left-over block size displaces a level |
| Histories.AlwaysExact | examples/datatypes/mpitypes/src/dataloop/segment.c:390-441 | for loops whose levels below level 0 have blocks of one size (or elements on top of each other), every run from anywhere draws on the byte map, whatever ran before |
| Histories.CompletedReplay | examples/datatypes/mpitypes/src/dataloop/segment.c:390-441 | at the end of the stream starting over is right for every loop |
| Histories.StandsAt | examples/datatypes/mpitypes/src/dataloop/segment.c:767-905 | a segment that stands before block i of the first instance of a level is in that block and carries its size |
| Histories.FailingHistory | examples/datatypes/mpitypes/src/dataloop/segment.c:283-293 | for every loop that is not resettable, a run that stops before a block of another size makes a run from the start draw on another stream than the byte map |
| Misdeliveries.ResettableIff | examples/datatypes/mpitypes/src/dataloop/segment.c:283-293 | a loop is resettable if and only if no block displaces a level below level 0 |
| Misdeliveries.NotAllResettable | examples/datatypes/mpitypes/src/dataloop/segment.c:283-293 | there is a loop that is not resettable although it selects no byte twice: two pairs of indexed blocks of one and two elements |
| Positions.SamePosition | examples/datatypes/mpitypes/src/dataloop/segment.c:334-922 | two segments of one loop that have passed as much of the stream are at the same block of every level with the same elements left there, whatever windows and piece functions brought them there |
| Positions.SameFields | examples/datatypes/mpitypes/src/dataloop/segment.c:334-922 | if no reset came between, all that a later run or reset reads is the same, also the block sizes that the levels carry and where each level lies |
| Positions.SameOnward | examples/datatypes/mpitypes/src/dataloop/segment.c:334-922 | so every later run, from wherever it starts, draws on the same stream from both |
| NicHandler.PayloadHandler | examples/datatypes/handlers/datatypes.c:140-196 | the bytes of a packet go to the places of its range in the stream that the segment draws on, and nothing else in host memory changes; an empty packet changes nothing |
| NicHandler.Deliver | examples/datatypes/handlers/datatypes.c:140-196 | for resettable loops that select no byte twice, packets of one message in any order, repeated or overlapping, put exactly the bytes that they carry in place; when all bytes have come, host memory is as after one unpack of the whole message |
| NicHandler.DeliverInOrder | examples/datatypes/handlers/datatypes.c:140-196 | for all loops, packets in stream order leave host memory as after an unpack of the part of the message that has come; after the whole message the flow is ready for the next one |
| Misdeliveries.OneOffStream | examples/datatypes/mpitypes/src/dataloop/segment.c:283-293 | if only one level holds the size of another block, starting over displaces exactly the first block of its first instance, by the difference of the two sizes in extents |
| Misdeliveries.FirstPacket | examples/datatypes/handlers/datatypes.c:140-196 | after a packet that ends inside a later block of a level the next packet from the start goes to the displaced places |
| Misdeliveries.WrongDelivery | examples/datatypes/handlers/datatypes.c:140-196 | for every loop that is not resettable and selects no byte twice a message can be cut into three packets, each byte in exactly one of them, and brought in an order such that host memory is not as after an unpack of the message, whatever it held before, or a packet is written outside host memory |
| Paths.SizeOnPath | examples/datatypes/mpitypes/src/dataloop/segment.c:767-905 | a segment that has run in order up to an element carries, at every node, the size of the block that this element is in |
| Paths.StreamOnPath | examples/datatypes/mpitypes/src/dataloop/segment.c:390-441 | what such a segment draws on when it starts over is determined by those block sizes |
| Paths.PathFor | examples/datatypes/mpitypes/src/dataloop/segment.c:767-905 | every choice of block sizes for the levels is that of some element |
| Reaches.ContainedIff | examples/datatypes/mpitypes/src/dataloop/segment.c:283-293 | all streams that a loop can give, whatever block sizes its levels hold, stay within given bounds if and only if two bytes computed from its blocks and extents do |
| Reaches.DrawnBetween | examples/datatypes/mpitypes/src/dataloop/segment.c:283-293 | no byte of such a stream lies beyond these two |
| Reaches.FarthestDrawn | examples/datatypes/mpitypes/src/dataloop/segment.c:283-293 | each of the two is a byte of such a stream |
| Reaches.DrawsBytes | examples/datatypes/mpitypes/src/dataloop/segment.c:283-293 | a resettable loop gives no other stream than its byte map |
| Flows.NewDrawn | examples/datatypes/mpitypes/src/dataloop/segment.c:49-223 | a new segment is on a stream that its loop can give |
| Flows.StreamDrawable | examples/datatypes/mpitypes/src/dataloop/segment.c:390-441 | from wherever the next run starts, a segment on such a stream draws on such a stream |
| Flows.AnyPackets | examples/datatypes/handlers/datatypes.c:140-196 | packets in any order, repeated or overlapping, for any loop, change no byte outside the bounds of its streams |
| Flows.DrawOn | examples/datatypes/handlers/datatypes.c:140-196 | conversely every such stream is drawn on: one packet takes a new segment to the blocks, the next one is delivered where their sizes say |
| Flows.Escape | examples/datatypes/handlers/datatypes.c:140-196 | for every loop that can give a stream outside given bounds there are two packets of one message after which a byte outside them has changed |
| Flows.FootprintFits | examples/datatypes/include/datatypes_host.h:62-63 | for a resettable loop that selects the instances of a type the bounds hold if the user buffer of the type fits the space of a message |
| Flows.AnyOrderFlow | examples/datatypes/handlers/datatypes.c:155-164 | packets in any order write only the window of their own flow if the lowest and the highest byte of the loop lie in the space of a message |
| Flows.InOrderFlow | examples/datatypes/handlers/datatypes.c:155-164 | packets in stream order do so for every loop of a type whose user buffer fits |
| Flows.FlowsApart | examples/datatypes/handlers/datatypes.c:155-164 | what is written in the window of one flow changes no byte in that of another |
| FlowExamples.LeavesWindow | examples/datatypes/handlers/datatypes.c:155-164 | a type with true lower bound 0 and a user buffer of 80 bytes, and two packets without common bytes, in windows of 80 bytes: the second one writes into the window of the flow before |
| Windows.UnpackDrawn | examples/datatypes/mpitypes/src/dataloop/segment_packunpack.c:554-573 | unpacking a window stores at its places the next bytes of the stream buffer, or, where typed assignments leave the source pointer behind, the bytes drawn again for every block; nothing else changes |
| Windows.PackWindow | examples/datatypes/mpitypes/src/dataloop/segment_packunpack.c:529-552 | packing a window fills the next bytes of the stream buffer with the selected bytes in stream order and changes nothing else |
| TypedCopy.TypedParams.BlkIdx | examples/datatypes/mpitypes/src/dataloop/segment_packunpack.c:341-371 | in blocks of several elements copied by typed assignments, every block is given the bytes at the same source position |
| TypedCopy.TypedParams.Contig | examples/datatypes/mpitypes/src/dataloop/segment_packunpack.c:82-129 | the part of an instance that a window begins with moves the source pointer along |
| M2m.M2mParams.Contig | examples/datatypes/mpitypes/src/dataloop/segment_packunpack.c:82-129 | a contiguous piece moves its bytes between the user buffer and the next bytes of the stream buffer, in either direction |
| M2m.M2mParams.Vector | examples/datatypes/mpitypes/src/dataloop/segment_packunpack.c:138-230 | a vector piece moves the bytes of its whole blocks and of the part of a block after them, in order |
| M2m.M2mParams.BlkIdx | examples/datatypes/mpitypes/src/dataloop/segment_packunpack.c:234-463 | a blockindexed piece moves the bytes of its blocks, the last one possibly in part, in order, in all branches that move the source pointer |
| M2m.M2mParams.Index | examples/datatypes/mpitypes/src/dataloop/segment_packunpack.c:467-527 | an indexed piece moves the bytes of its blocks, the last one possibly in part, in order |
| RoundTrips.PackAll | examples/datatypes/mpitypes/src/dataloop/segment_packunpack.c:529-552 | packing in windows cut anywhere between elements is one gather of the whole byte map |
| RoundTrips.UnpackAll | examples/datatypes/mpitypes/src/dataloop/segment_packunpack.c:554-573 | unpacking in any windows stores the right bytes if the pieces move along or the data of every window repeats its first block; for types that select no byte twice, only then |
| RoundTrips.PackUnpack | examples/datatypes/mpitypes/src/dataloop/segment_packunpack.c:529-573 | packing, then unpacking elsewhere, restores every selected byte and leaves all others alone, for any windows of both passes and also for bytes selected several times, under that condition; for types that select no byte twice, only under it |
| RoundTrips.UnpackPack | examples/datatypes/mpitypes/src/dataloop/segment_packunpack.c:529-573 | unpacking, then packing, gives back the stream if and only if that condition holds, for types that select no byte twice |
| RoundTrips.TypedLosesData | examples/datatypes/mpitypes/src/dataloop/segment_packunpack.c:341-371 | two blocks of two 4-byte elements with different data do not meet the condition |
| FlattenCount.FlattenParams.Contig | examples/datatypes/mpitypes/src/dataloop/segment_flatten.c:110-180 | a region is merged into the last entry, given an entry of its own, or refused when all entries are used and it does not abut |
| FlattenCount.FlattenParams.Vector | examples/datatypes/mpitypes/src/dataloop/segment_flatten.c:182-274 | the entries stand for the blocks taken, and no two neighbouring entries abut; fewer blocks are taken only where another entry would be needed |
| FlattenCount.FlattenParams.BlkIdx | examples/datatypes/mpitypes/src/dataloop/segment_flatten.c:276-356 | the same for blocks of one size |
| FlattenCount.FlattenParams.Index | examples/datatypes/mpitypes/src/dataloop/segment_flatten.c:358-437 | the same for blocks of any sizes |
| FlattenCount.CountParams.Vector | examples/datatypes/mpitypes/src/dataloop/segment_count.c:138-174 | the count goes up by the maximal runs that the blocks of the whole vector add |
| FlattenCount.CountParams.BlkIdx | examples/datatypes/mpitypes/src/dataloop/segment_count.c:176-216 | the same for a blockindexed leaf, with abutting blocks counted as one run |
| FlattenCount.CountParams.Index | examples/datatypes/mpitypes/src/dataloop/segment_count.c:218-263 | the same for an indexed leaf without abutting neighbours |
| FlattenCount.EntriesAreRuns | examples/datatypes/mpitypes/src/dataloop/segment_flatten.c:110-180 | entries of which no two neighbours abut are the maximal runs of the bytes that they stand for |
| SegmentInit.MpiFlatten | examples/datatypes/mpitypes/src/dataloop/segment_flatten.c:74-103 | the entries written stand for exactly the bytes from `first` to the returned `last`, moved by the buffer address, and are maximal; `last` is short of its target only if all entries are used and the next byte does not adjoin |
| SegmentInit.FlattenInParts | examples/datatypes/mpitypes/src/dataloop/segment_flatten.c:74-103 | flattening again and again from where it stopped, with however few entries, gives entries that together stand for the whole stream |
| SegmentInit.CountContigBlocks | examples/datatypes/mpitypes/src/dataloop/segment_count.c:56-89 | the count is the number of maximal runs of the rest of the stream |
| SegmentInit.RoomForAll | examples/datatypes/mpitypes/src/dataloop/segment_flatten.c:74-103 | flattening reaches its target if and only if there are as many entries as maximal runs |
| SegmentInit.CountIsRoom | examples/datatypes/mpitypes/src/dataloop/segment_count.c:56-89 | counting and flattening agree: an array of the counted length takes the whole stream, a shorter one does not |
| CreateVectors.CreateContiguous | examples/datatypes/mpitypes/src/dataloop/dataloop_create_contig.c:27-185 | the loop selects `count` instances one extent apart if and only if no contiguous node is absorbed whose elements, laid out one after the other, have another extent than the type; its elements are those of the type, or single bytes for a loop of bytes |
| CreateVectors.CreateVector | examples/datatypes/mpitypes/src/dataloop/dataloop_create_vector.c:29-243 | the loop selects the blocks of MPI_Type_vector if and only if the absorbed type, if any, is one run of bytes from its start, or the contiguous type that the blocks make up is right; its elements are those of the type, or the elements of the contiguous type that is absorbed |
| CreateVectors.CoalescingLosesExtent | examples/datatypes/mpitypes/src/dataloop/dataloop_create_contig.c:27-185 | an int resized to extent 12, twice, resized to extent 8: three of these are merged wrongly |
| CreateVectors.OldTypeKept | examples/datatypes/mpitypes/src/dataloop/dataloop_create_vector.c:137-159 | a vector over a contiguous type rewrites the loop of that type in place; the old type keeps its byte map if and only if this branch is not taken or it has no data |
| CreateVectors.FusionLosesOrder | examples/datatypes/mpitypes/src/dataloop/dataloop_create_vector.c:29-243 | fusing a contiguous type of a type whose blocks are out of order loses the order, and its elements are then of 8 bytes where those of the type are of 4 |
| CreateVectors.LeafContigIsRun | examples/datatypes/mpitypes/src/dataloop/dataloop_create_vector.c:29-243 | for contiguous leaves both shortcuts are always right |
| CreateBlocks.CreateBlockIndexed | examples/datatypes/mpitypes/src/dataloop/dataloop_create_blockindexed.c:34-244 | the loop selects the blocks of MPI_Type_create_hindexed_block if and only if the shortcut that is taken is right; its elements are those of what is made |
| CreateBlocks.BlockindexedCountContig | examples/datatypes/mpitypes/src/dataloop/dataloop_create_blockindexed.c:277-319 | the count is one more than the number of blocks that do not begin where the block before them ends |
| CreateIndexes.CreateIndexed | examples/datatypes/mpitypes/src/dataloop/dataloop_create_indexed.c:39-278 | the loop selects the blocks of MPI_Type_create_hindexed if and only if the shortcut that is taken is right; where displacements are handed on, if and only if they are the right ones, or the loop made for the wrong ones happens to select the right blocks |
| BlockDisps.WrongBlocksRight | examples/datatypes/mpitypes/src/dataloop/dataloop_create_indexed.c:39-278 | when the constructor is not exact for what it is handed, its merged or fused loop selects blocks elsewhere if and only if they are single instances at the merged extent, or the type is one run and the blocks lie at one stride |
| CreateIndexes.ShortcutMeans | examples/datatypes/mpitypes/src/dataloop/dataloop_create_indexed.c:39-278 | what a shortcut promises, in both directions, from what the constructor that it calls promises for the displacements handed on |
| CreateIndexes.HandedRightlyWhen | examples/datatypes/mpitypes/src/dataloop/dataloop_create_indexed.c:39-278 | displacements in elements, or byte displacements with no empty block at the front, are handed on rightly |
| CreateIndexes.MisreadDisplacement | examples/datatypes/mpitypes/src/dataloop/dataloop_create_indexed.c:39-278 | with byte displacements and an empty block at the front the address handed on is that of another displacement |
| CreateIndexes.IndexedCountContig | examples/datatypes/mpitypes/src/dataloop/dataloop_create_indexed.c:376-451 | the count is the number of blocks left when empty ones are dropped and abutting ones merged |
| CreateIndexes.IndexedArrayCopy | examples/datatypes/mpitypes/src/dataloop/dataloop_create_indexed.c:290-366 | the copy fills arrays of the counted length with exactly those blocks |
| CreateIndexes.MergeBytes | examples/datatypes/mpitypes/src/dataloop/dataloop_create_indexed.c:290-366 | dropping and merging keep the selected bytes and their order |
| CreateIndexes.MergedSeparated | examples/datatypes/mpitypes/src/dataloop/dataloop_create_indexed.c:290-366 | merging leaves no two neighbours that abut, which counting contiguous blocks relies on |
| CreateIndexes.Counted | examples/datatypes/mpitypes/src/dataloop/dataloop_create_indexed.c:39-278 | the two passes agree on the number of blocks if and only if blocks are not counted apart in elements of a zero extent |
| CreateIndexes.ZeroExtentMiscounts | examples/datatypes/mpitypes/src/dataloop/dataloop_create_indexed.c:376-451 | two blocks of a type with zero extent are counted as two and copied as one |
| CreateStructs.CreateStruct | examples/datatypes/mpitypes/src/dataloop/dataloop_create_struct.c:67-399 | the loop selects the bytes of all members in their order if and only if no wrong shortcut is taken for members of one type; members of different types, flattened or as bytes, are always right |
| CreateStructs.CreateUniqueType | examples/datatypes/mpitypes/src/dataloop/dataloop_create_struct.c:408-468 | the bytes of members of one type are kept if and only if the indexed constructor is exact for their blocks |
| CreateStructs.CreateAllBytes | examples/datatypes/mpitypes/src/dataloop/dataloop_create_struct.c:470-530 | basic members of any types make one indexed type of bytes that always selects their bytes |
| CreateStructs.CreateFlattened | examples/datatypes/mpitypes/src/dataloop/dataloop_create_struct.c:532-708 | members of any types are flattened by runs of the engine itself into one indexed type of bytes that selects what they select |
| CreateStructs.FlattenMembers | examples/datatypes/mpitypes/src/dataloop/dataloop_create_struct.c:532-708 | the second pass never leaves arrays that are two entries longer than what the first pass counted, and its entries stand for the members |
| CreateStructs.CountEntries | examples/datatypes/mpitypes/src/dataloop/dataloop_create_struct.c:532-708 | the first pass counts the maximal runs of every member with data |
| CreateTypes.LoopOver | examples/datatypes/mpitypes/src/dataloop/dataloop_create.c:22-340 | for every constructor the loop stored selects the instances of the inner type at the places that MPI gives them if and only if the constructor called is exact |
| CreateTypes.CreateType | examples/datatypes/mpitypes/src/dataloop/dataloop_create.c:22-340 | for nested types the loops of all types inside are created first; if no type inside has extent zero, creation succeeds |
| CreateTypes.LevelKept | examples/datatypes/mpitypes/src/dataloop/dataloop_create.c:22-340 | if the loop of the inner type selects what that type has, the loop of the type does if and only if its own constructor was exact |
| CreateTypes.TypeKept | examples/datatypes/mpitypes/src/dataloop/dataloop_create.c:22-340 | if every constructor was exact, the loop of a nested type selects exactly the bytes of its type map, in order |
| CreateTypes.SegmentFor | examples/datatypes/mpitypes/src/dataloop/segment.c:49-223 | and a segment for several instances stands at the start of the stream of their bytes; unless a level makes larger elements, these are those of the basic type, so windows may be cut at every multiple of its size; it is made whenever no inner type has extent zero and the stack is high enough |
| CreateTypes.BasicElements | examples/datatypes/mpitypes/src/dataloop/dataloop_create.c:22-340 | the elements of the loop of a nested type are those of the basic type inside, or single bytes for a loop of bytes, if no level makes larger ones |
| CreateTypes.GrainKept | examples/datatypes/mpitypes/src/dataloop/dataloop_create_vector.c:29-243 | a level makes larger elements only by absorbing a contiguous type whose elements are larger than those of its innermost leaf |
| Footprints.CalcFootprint | examples/datatypes/mpitypes/src/dataloop/typesize_support.c:140-406 | for nested types with strides and extents of either sign, the size is the number of bytes, the true bounds are exactly those of the outermost bytes, and the bounds those of the outermost instances |
| Footprints.VectorMacro | examples/datatypes/mpitypes/src/dataloop/typesize_support.c:76-107 | the four cases by the signs of stride and extent give the least and the greatest origin of a vector |
| Footprints.BlockMacro | examples/datatypes/mpitypes/src/dataloop/typesize_support.c:118-138 | the cases by the sign of the extent give the least and the greatest origin of a block |
| Footprints.InsideUserbuf | examples/datatypes/include/datatypes_host.h:62-63 | the user buffer has room for all bytes of `count` instances if the true lower bound and the extent are not negative |
| Darrays.Coords | examples/datatypes/mpitypes/src/dataloop/darray_support.c:41-48 | the coordinates computed for a rank are inside the grid and have that rank in row-major order |
| Darrays.OneProcess | examples/datatypes/mpitypes/src/dataloop/darray_support.c:41-48 | ranks and coordinates correspond one to one |
| Darrays.BlockAccepted | examples/datatypes/mpitypes/src/dataloop/darray_support.c:156-211 | whether a block argument is accepted does not depend on the process |
| Darrays.BlockOwner | examples/datatypes/mpitypes/src/dataloop/darray_support.c:156-211 | an accepted block distribution gives each index to exactly one process: index x to process x / b, where b is the size given, or else the least one that lets all processes together hold all indices |
| Darrays.BlockSizeIs | examples/datatypes/mpitypes/src/dataloop/darray_support.c:164-172 | there is exactly one such least size, and it is the one computed |
| Darrays.BlocksAddUp | examples/datatypes/mpitypes/src/dataloop/darray_support.c:156-211 | the local sizes of a block distribution add up to the global size |
| Darrays.SizeIsOwned | examples/datatypes/mpitypes/src/dataloop/darray_support.c:217-301 | the local size of a cyclic distribution is the number of indices that are dealt to the process |
| Darrays.SizesAddUp | examples/datatypes/mpitypes/src/dataloop/darray_support.c:217-301 | those sizes add up to the global size |
| Darrays.CyclicPositions | examples/datatypes/mpitypes/src/dataloop/darray_support.c:217-301 | local positions below the local size hold indices of the array that are the process's own, and no others do |
| Darrays.CyclicOnce | examples/datatypes/mpitypes/src/dataloop/darray_support.c:217-301 | no two local positions hold the same index |
| Darrays.CyclicOnto | examples/datatypes/mpitypes/src/dataloop/darray_support.c:217-301 | every index of the process is at some position |
| Darrays.OneCoordinate | examples/datatypes/mpitypes/src/dataloop/darray_support.c:22-150 | every index of a dimension has one owner, that of its block, or of the blocks dealt in turn, of one index each by default; except for an undistributed dimension over several processes in Fortran order, where all of them hold it |
| Darrays.OneRank | examples/datatypes/mpitypes/src/dataloop/darray_support.c:22-150 | every element of the array belongs to exactly one rank, that of the processes to which its indices are dealt, without that exception |
| Darrays.TwoRanks | examples/datatypes/mpitypes/src/dataloop/darray_support.c:22-150 | with it every element belongs to at least two ranks |
| LazyLists.LazyList.constructor | examples/ooorb/handlers/lazylist.h:50-84 | the new list is empty, with all nodes free but the sentinels |
| LazyLists.LazyList.FindPred | examples/ooorb/handlers/lazylist.h:158-187 | a range is refused if and only if it overlaps a stored one; otherwise the neighbours found have room for it |
| LazyLists.LazyList.Insert | examples/ooorb/handlers/lazylist.h:194-271 | exactly the bytes of the range are added, or none: none if it overlaps, which is not reported as an error, or if it touches no range and all nodes are in use, which is |
| LazyLists.LazyList.PopFront | examples/ooorb/handlers/lazylist.h:273-314 | exactly the first range is removed and returned, if its left end is the one asked for or any is |
| LazyLists.LazyList.FullWhen | examples/ooorb/handlers/lazylist.h:93-156 | nodes are neither lost nor gained: none is free if and only if there are as many ranges as nodes |
| Ranges.InsertedCovers | examples/ooorb/handlers/lazylist.h:194-271 | adding a range with its four ways of merging adds its bytes and no others |
| Ranges.InsertedMaximal | examples/ooorb/handlers/lazylist.h:194-271 | the list stays sorted, with a gap between any two ranges |
| Ranges.SameBytesSameList | examples/ooorb/handlers/lazylist.h:194-271 | such a list is determined by the bytes that it holds |
| ListThreads.ValidateSuffices | examples/ooorb/handlers/lazylist.h:189-192 | whatever was read while others changed the list, a validated pair of nodes are neighbours in it with room for the range between them |
| ListThreads.NeverRefused | examples/ooorb/handlers/lazylist.h:158-187 | no search for a range that overlaps no other is refused, however stale the nodes that it reads |
| ListCommits.CommitInsertKeeps | examples/ooorb/handlers/lazylist.h:194-271 | the locked section of an insertion keeps the invariant of all threads |
| ListCommits.CommitPopKeeps | examples/ooorb/handlers/lazylist.h:273-314 | the locked section of a pop of the expected byte keeps it |
| ListCommits.StoreKeeps | examples/ooorb/handlers/ooorb_handlers.c:48-57 | storing the next expected byte after a pop keeps it |
| ListCommits.FreeKeeps | examples/ooorb/handlers/lazylist.h:131-156 | freeing a node that no running operation knows of keeps it |
| ListEffects.InsertTakes | examples/ooorb/handlers/lazylist.h:216-258 | a validated insertion stores exactly its range if that touches a neighbour or a node is free, and otherwise leaves the list alone; one that is not validated searches again for the same range |
| ListEffects.PopTakes | examples/ooorb/handlers/lazylist.h:273-314 | a validated pop whose range still begins at the byte asked for takes exactly the first range, and its bytes count as popped; any other one begins again |
| ListRuns.EveryRunSafe | examples/ooorb/handlers/lazylist.h:158-314 | in every state of every interleaving of inserts, pops and frees by any number of threads the invariant holds |
| ListRuns.DeliveredOnce | examples/ooorb/handlers/lazylist.h:158-314 | in every such state the bytes popped are those from 0 up to some point, and a byte is accepted if and only if it is stored or popped, never both |
| ListRuns.StepsEnabled | examples/ooorb/handlers/lazylist.h:158-314 | no running operation is ever without a next step |
| ListRuns.FrontIsNext | examples/ooorb/handlers/lazylist.h:273-314 | when all operations are done, bytes accepted without a gap from 0 on are deliverable by one more pop |
| ListEffects.InsertAlone | examples/ooorb/handlers/lazylist.h:194-271 | in every reachable state an insertion that no other thread disturbs comes to its end, with its range stored, or the list as it was if the range touches none and no node is free |
| ListEffects.PopAlone | examples/ooorb/handlers/lazylist.h:273-314 | so does a pop: it delivers the first range if that begins at the next expected byte, and otherwise nothing |
| ListEffects.GapFreeDelivered | examples/ooorb/handlers/ooorb_handlers.c:36-59 | when all operations are done, one more pop by any thread delivers all bytes accepted without a gap |
| ListRuns.PopElsewhere | examples/ooorb/handlers/lazylist.h:273-314 | a pop that validated its two nodes drops all ranges before the one that it returns; the ranges left are those before without that one if and only if it is still the first one |
| ListRuns.StaleFront | examples/ooorb/handlers/lazylist.h:273-314 | two insertions while a pop is between reading and validating lead there: its nodes are valid, and another range is first |
| Reassembly.RbState.constructor | examples/ooorb/handlers/ooorb_handlers.c:27-34 | nothing is stored and byte 0 is expected |
| Reassembly.RbState.Packet | examples/ooorb/handlers/ooorb_handlers.c:36-59 | an insertion adds all bytes of its range or none; a pop delivers exactly the bytes from the expected one up to the next that is missing, and then expects that one; other packets change nothing |
| Reassembly.DeliveredPrefix | examples/ooorb/handlers/ooorb_handlers.c:48-57 | the bytes delivered are always those below the expected one, once each and in order |
| Reassembly.HandleAll | examples/ooorb/handlers/ooorb_handlers.c:36-59 | over any run of packets ranges and next expected byte are what the packets, one after the other, make of them |
| Reassembly.BlockedAfter | examples/ooorb/handlers/ooorb_handlers.c:48-57 | after a run bytes below the expected one are stored if and only if they were before or some packet stored a range that reached below the byte expected then; while they are, nothing is delivered |
| Reassembly.GoesOnIff | examples/ooorb/handlers/ooorb_handlers.c:48-57 | some later packets are delivered if and only if no such bytes are stored (and the next byte has a number that a range can have) |
| Reassembly.BlockedState | examples/ooorb/handlers/ooorb_handlers.c:36-59 | a new list gets there by bytes 0 to 9, a pop, and bytes 0 to 4 again |
| Rings.Ring.RoomMeans | hw/verilator_model/src/NICInbound.hpp:247-288 | with slots in use and a head that is not stuck there is room if and only if the place behind the last slot or the one at the start of the buffer overlaps no slot in use; with none in use only if the packet fits before or behind the pointers |
| Rings.Ring.AllocatePktSpace | hw/verilator_model/src/NICInbound.hpp:247-288 | a packet gets a slot of whole segments if and only if there is room, behind the last slot if that place is free and else at the start; the slot follows those in use; the head is stuck from the moment the ring wraps while it is empty |
| Rings.Ring.FreePktSpace | hw/verilator_model/src/NICInbound.hpp:290-317 | after a free, all freed slots at the front are reclaimed and no others, unless the head is stuck |
| Rings.Ring.SlotsApart | hw/verilator_model/src/NICInbound.hpp:247-288 | slots in use never overlap |
| Rings.Ring.SlotInside | hw/verilator_model/src/NICInbound.hpp:247-288 | slots in use are aligned and lie inside the buffer |
| Rings.FreeInAnyOrder | hw/verilator_model/src/NICInbound.hpp:290-317 | freeing all slots in whatever order empties the ring if and only if it did not wrap while it was empty |
| Rings.WrapWhileEmpty | hw/verilator_model/src/NICInbound.hpp:247-317 | two allocations with a free between them wrap an empty ring, and the slot freed after that stays in use |
| Axi.CreateAxBeats | hw/verilator_model/src/AXIDriver.hpp:164-244 | the bursts cover the transfer without gap or overlap, each inside one 4096-byte page with as many beats as lines touched, and break at page ends only (section A3.4.1 of IHI 0022) |
| Axi.Doubling | hw/verilator_model/src/AXIDriver.hpp:119-122 | the sizes of beats are the powers of two from 1 to the width of the bus |
| Axi.BeatSize | hw/verilator_model/src/AXIDriver.hpp:181-203 | a single beat is as large as the smallest aligned block of a power of two that holds its bytes |
| AxiMasters.MakeBurst | hw/verilator_model/src/AXIMaster.hpp:225-285 | the data and strobes of a burst put its bytes at their addresses, and exactly its last beat is marked |
| AxiMasters.AxiMaster.Write | hw/verilator_model/src/AXIMaster.hpp:225-285 | after all beats of a write every byte is at its address; no byte elsewhere changes, except behind the end in the container of a single last beat |
| NicInbounds.NicInbound.AddPacket | hw/verilator_model/src/NICInbound.hpp:167-180 | packets are kept in the order in which they come |
| NicInbounds.NicInbound.ProcessPacket | hw/verilator_model/src/NICInbound.hpp:319-335 | a packet is accepted if and only if there is room; its bytes are then written to a slot of its own and nowhere else |
| NicInbounds.OtherSlotsKept | hw/verilator_model/src/NICInbound.hpp:319-335 | writing a packet changes no byte of the slot of any other packet in flight |
| NicInbounds.NicInbound.ProgressIncomingPackets | hw/verilator_model/src/NICInbound.hpp:337-364 | the first packet that came is served if and only if it is due and there is room: it leaves the queue, its HER has its id and size and a slot of its own, and the beats added put its data there; otherwise queues and beats stay as they are |
| NicMemories.FilledWrite | hw/verilator_model/src/NICInbound.hpp:319-335 | writing a packet to a new slot keeps the data of every packet in flight in memory, and adds its own |
| NicInbounds.NicInbound.BPosedge | hw/verilator_model/src/AXIMaster.hpp:433-452 | an acknowledgement counts for the oldest burst that awaits one |
| NicInbounds.NicInbound.ProgressAxiWriteResponses | hw/verilator_model/src/NICInbound.hpp:513-527 | a packet becomes ready when the next response completes a write, and not before; the response is taken away either way, and the order of packets is kept |
| NicInbounds.NicInbound.ReadyIsWritten | hw/verilator_model/src/NICInbound.hpp:513-527 | all bursts of ready and sent packets are acknowledged |
| NicInbounds.NicInbound.HerProgressPosedge | hw/verilator_model/src/NICInbound.hpp:387-453 | the first ready packet is sent when the cluster takes it |
| NicInbounds.NicInbound.FeedbackProgress | hw/verilator_model/src/NICInbound.hpp:461-498 | feedback for a packet in the cluster takes it out and frees its slot, after which the ring has reclaimed the freed slots at its front and no others; any other feedback leaves the ring as it is |
| NicInbounds.NicInbound.Posedge | hw/verilator_model/src/NICInbound.hpp:366-377 | every clock cycle keeps the engine's invariant and does what its inputs ask for: the packet whose write is complete becomes ready, the first packet that came is served if it is due and fits, the first ready one is sent if the cluster takes it, and the one of the feedback is gone |
| NicInbounds.NicInbound.SentInOrder | hw/verilator_model/src/NICInbound.hpp:387-453 | what was sent is a prefix of what arrived, after all its bursts were acknowledged; nothing is left to send if and only if all of it was sent |
| NicInbounds.NicInbound.Run | hw/verilator_model/src/NICInbound.hpp:337-527 | over every run with any arrivals, acknowledgements and feedback in any order, what arrived is what the run brought, and that stays so; every packet in flight is in exactly one place, and after all beats issued its data is at the address that its HER names |
| NicInbounds.NicInbound.Drain | hw/verilator_model/src/NICInbound.hpp:366-453 | whatever feedback comes, all packets that got space are sent after at most as many cycles as there are bursts to be acknowledged, responses to be looked at and packets ready, if bursts are acknowledged and the cluster takes what is sent |

## Left out

- Misdeliveries.WrongDelivery: a packet that goes outside host memory is stopped there; what such a write does is not modelled.
- Flows.DrawOn: the places of both packets lie inside host memory; so does all that the loop can give in `Flows.Escape`.
- SegmentInit.Init: no segments over zero instances, whose loop has no elements, and at least one level fewer than the stack has.
- FlattenCount.CountParams.Index: indexed leaves without abutting neighbours, as the constructors make them.
- SegmentInit.CountContigBlocks: runs to the end of the stream only, and indexed leaves without abutting neighbours; the block functions count whole leaves whatever they are asked for, and the constructors merge such neighbours.
- CreateIndexes.CreateIndexed: nothing is said when blocks are counted apart in elements of a zero extent and no shortcut is taken, where the code asserts.
- CreateTypes.CreateType: size and extent of the types are those of the MPI library, modelled by its definition; struct, pair, subarray and distributed array types are not among the nested types, and the loop of a type inside is as it was when it was used, before a vector over it may rewrite it.
- CreateStructs.CreateFlattened: as for CreateStruct, members without empty parts and without abutting neighbours.
- CreateStructs.FlattenMembers: the same.
- CreateStructs.CountEntries: the same.
- CreateStructs.CreateStruct: members of different types need recorded sizes, no empty parts and no abutting neighbours, as loops made by these constructors have them, and a level to spare; the form that is flattened to bytes throughout (the all-bytes flavour) is not distinguished inside the flattening passes.
- Footprints.CalcFootprint: bounds of types without bytes are left open; struct and pair types, alignment and padding are not modelled.
- M2m.M2mParams.BlkIdx: the branch whose source pointer stays is in `TypedCopy.TypedParams.BlkIdx`; which element sizes are copied by assignments is a parameter, so the tests of pointer alignment that may choose between assignments and memcpy at run time are not modelled.
- Rings.Ring.AllocatePktSpace: packets have at least one byte.
- NicInbounds.NicInbound.Posedge: feedback for a packet has the size that was sent with it.
- ListRuns.EveryRunSafe: a removed node is freed only when the operations that ran at its removal have ended; the immediate reuse of freed nodes, the inner workings of the locks, the memory model and fairness are not modelled.
- LazyLists.LazyList.GetFreeNode: of the two forms of the test for an empty free chain only the one of the variant with load-reserved and store-conditional is modelled.
- Struct loops inside the engine, reloading below them (`may_require_reloading`), size functions and heterogeneous stream sizes.
- Loops with a level without elements, inside the engine; the constructors store none in a type that has data, as their contracts say.
- Windows that do not start at an element, which the code refuses by an assertion when it repositions.
- The specialised NIC engine `spin_segment_manipulate_fp` and its `ddt_*` helpers, which the handler does not call.
- Integer widths and overflow of counts, offsets and packet sizes; addresses are unbounded.
- The asynchrony of DMA on the NIC: a transfer is done when it is issued.
- Memory management of loops: loops are values here; which old loop the code rewrites in place is stated in `CreateVectors.OldTypeKept`, and that one instance shares the old loop in `CreateVectors.CreateContiguous`.
- The assembly of multi-dimensional distributed array types from their dimensions; subarray and pair type constructors.
- The completion handlers, message acknowledgements and host-side setup of the datatypes example; the completion handler of the reassembly example.
- The wait cycles between packets beyond whether one is due, signal-level AXI handshakes, the AXI read side, limits of the AXI response queue, latency statistics, and empty packets.
- The outbound NIC engine, the PCIe models, the hardware scheduler and the runtime.
