# A verified model of fsyncer

fsyncer replicates a file system. A server broadcasts every call to its clients, writes calls to a journal
in a ring file, and folds journals into compact snapshots. This project models five parts of it in Dafny and
proves what they promise; where the code does not keep a promise, the exact condition under which it does is
proved instead.

* **Snapshot store** (`FreeLists`, `Extents`, `EncodeWrite`, `Truncate`, `Compact`, `FileTable`, `SnapshotSpec`,
  `Snapshots`, `SnapshotExamples`). The free list is a map from the start of an extent to its size; its meaning is a set of bytes.
  A file's extent map means a partial map from offsets to bytes. `Snapshot.MergeFrom` refines the obvious
  semantics of the calls (`SnapshotSpec.Run`: last writer wins) and keeps all extents of all files disjoint and,
  with the free extents, tiling the space.
* **Journal ring** (`Octets`, `RingLayout`, `Journals`, `JournalIterators`, `JournalRecovery`). The ghost field
  `log` of `Journal` holds every record ever written. Both iterators and the recovery scan are proved against it.
* **Replication protocol** (`Replication`, `Acknowledgements`, `ReplicaOrder`, `ReplicationInvariant`,
  `ReplicationTheorems`, `ReplicationProgress`). A machine of atomic steps: file system threads, control threads, the cork lock, one
  first-in-first-out channel per client, clients with one thread or several, and one slot for replies per client
  and thread. One invariant is kept by every step of every run; the guarantees follow from it,
  and so does that the protocol never gets stuck while the clients that are waited for stay connected.
* **Bidirectional log and delta writes** (`FileTree`, `Bilog`, `XorBuffers`, `Checksums`, `DeltaWrites`,
  `BilogWrite`). One record both redoes and undoes its call, for whole logs in either direction; the conditions are
  stated for any checksum and then settled for CRC-32, the one the program uses.
* **Rate limiter** (`RateLimit`). A bucket of tokens with a bound over every run of calls.

I/O is abstracted: a file is a sequence of bytes, the clock and the inner writer of the rate limiter are
parameters, serialisation is any lawful `Codec`, and checksums are arbitrary functions except in `Checksums` and where it is
used. 64-bit limits are explicit:
`USIZE_MAX` for sizes (a sum beyond it is the outcome `Overflow`) and `OFF_MAX`, the largest file offset (a write
beyond it is the outcome `TooLarge`).

Where the code departs from what it is for, the model follows the code:

* An empty write that no block absorbs stores a block of size 0; between two blocks of more than a mebibyte it
  replaces the right one by it (`fsyncd/src/snapshot/forward.rs:366-382`): `EncodeWrite.EncodeWrite` says exactly
  when, `EmptyWriteLoses` is a run that loses bytes.
* `compact` drops the last run of a file when that run starts at offset 0 (`:731`): `Snapshots.PlanFor` gives the
  files that lose their front from the free list and the table before the call, `CompactionLoses` is a run in which
  one does.
* `create` over an entry that holds blocks leaks them (`:551`); `link` shares blocks between two entries (`:523`).
* After `open` the free list starts again at the table, with the full 64-bit size (`:205`). Space that was free below is
  lost, and a sum overflows (`:273`) exactly when a call would leave everything free from the byte before the table on:
  `OverflowIff`, `WriteOverflowIff`. Every tiled snapshot with data has a file that cannot be unlinked then
  (`UnlinkOverflows`, `FinalizeThenOpen`); `UnlinkFails` and `WriteFails` are runs in which an unlink and a write fail.
* `diff_write` is stored as its raw difference (`:639-642`), as if that were the data; the specification of the
  snapshot does the same, and so departs from what the call means to a replica (`DeltaWrites.Replayed`).
* When an entry ends exactly at the end of a full ring, the next one overwrites the oldest block without evicting
  it, and no block is ever evicted again (`fsyncd/src/journal/store.rs:372-387`): `Journals.Journal.WriteInner`,
  `WriteAll`, `FullRingOverwritten`.
* The forward iterator does not look at checksums (`:136-163`): `ChecksumIgnored`.
* No header is written when an entry ends exactly on a block boundary (`:372`). After a crash the scan then stops after
  the first entry of the next block (`:312`) and loses those after it, even on the first lap of a new file: `EntryLost`;
  `OpenAfterCrash` has the exact condition.
* A client with several threads acknowledges a cork when it has read what it was sent and before it has executed it
  (`fsyncd/src/client/mod.rs:260-287`), and after a timeout a thread takes the late reply to its previous call
  for the reply to the present one (`fsyncd/src/server/client.rs:58-73`): `PoolEscapesCork`, `LateReply`.
* `mkdir` does not bring back set-id bits; `create` of a file that exists is undone, and done again, by deleting it:
  `UndoRmdir`, `UndoDeletesFile`, `RedoDeletesFile`.
* A record is written before its call runs, so that failed calls are recorded too. Such a record is never replayed as
  nothing: it is refused or changes the tree (`fsyncd/src/server/mod.rs:178-195`): `FailedCall`, `FailedReplay`, `RetracedIff`.
* CRC-32 is affine, so that the checksum guard of a record of a mode or an owner never refuses, whatever became of the
  node since: `NeverRefused`. The record of a write hashes a length of zero (`fsyncd/src/journal/bilog.rs:1164`), so
  that in a file of less than 4 GiB its guard refuses to do a write again unless the file stays empty, and to undo
  every write inside the file (`WriteRefused`); for a write past the end the guard compares two checksums that do not
  depend on the data written (`UndoGuardCrc32`).
* With delta writes on, a write of nothing but zeroes past the end of the file is lost, a write that changes
  nothing panics, and the server writes the difference instead of the data to its own file
  (`fsyncd/src/fuse_hl/write_unix.rs:263-294`): `DeltaWrites.DoWrite`, `OwnFileIntact`.
* Waits of the rate limiter are rounded down, so that small writes are not limited: `SmallWritesEscape`.

## Model

| member | source | states |
|---|---|---|
| FreeLists.CanonicalUnique | fsyncd/src/snapshot/forward.rs:227-276 | two sorted, non-empty, fully coalesced free lists with the same free bytes are equal |
| FreeLists.Choose | fsyncd/src/snapshot/forward.rs:227-243 | a hinted allocation lands on the hint iff that extent exists and is large enough; otherwise on the first extent that fits |
| FreeLists.Allocate | fsyncd/src/snapshot/forward.rs:227-254 | fails iff no extent is large enough; otherwise exactly the block's bytes, all free before, stop being free, and the list stays canonical; which list that is |
| FreeLists.Deallocate | fsyncd/src/snapshot/forward.rs:255-276 | exactly the block's bytes become free and the list stays fully coalesced; a sum overflows iff the block ends past 64 bits or the block with the two extents it touches does not fit in 64 bits |
| FreeLists.CheckedNotWide | fsyncd/src/snapshot/forward.rs:255-276 | when a set of bytes was given back block by block without overflow, no stretch of free bytes that contains one of them is too wide for 64 bits |
| FreeLists.OverflowStretch | fsyncd/src/snapshot/forward.rs:255-276 | and a block that overflows is part of such a stretch |
| FreeLists.WideAfterOpen | fsyncd/src/snapshot/forward.rs:205-205 | with the free tail that `open` makes, bytes below it can be given back iff the one just below the tail is not among them |
| FreeLists.WideIff | fsyncd/src/snapshot/forward.rs:255-276 | in a region that ends a word after the place where it was opened, giving bytes back overflows iff everything from the byte before that place on is free then |
| Extents.WriteAt | fsyncd/src/snapshot/forward.rs:338-338 | length and every byte of a file after a positional write, holes read as zero |
| Extents.SetLen | fsyncd/src/client/dispatch_unix.rs:94-112 | length and every byte of a file after its length is set |
| Extents.LocateIs | fsyncd/src/snapshot/forward.rs:317-323 | in an ordered extent map every offset has at most one covering block |
| Extents.ReplaceContent | fsyncd/src/snapshot/forward.rs:302-436 | content after some extents of a file are replaced, as an overlay of the old content |
| EncodeWrite.MoveFileRange | fsyncd/src/snapshot/forward.rs:277-292 | the chunked copy equals one copy of the range, whatever the bytes are, iff the target is not above the source, does not overlap it, or 16 KiB suffice; otherwise which byte is wrong, and its value; fails only past the end of the file or the largest offset, and then always when the target is not above |
| EncodeWrite.WriteInPlace | fsyncd/src/snapshot/forward.rs:325-339 | a write inside one extent gives the overlay of the content and changes no extent |
| EncodeWrite.TryAppend | fsyncd/src/snapshot/forward.rs:340-363 | either the extent grows and the content is the overlay, or the speculative allocation is undone exactly; no space, too large and overflow are functions of the free list and the block |
| EncodeWrite.AppendNeverOverflows | fsyncd/src/snapshot/forward.rs:340-363 | undoing the allocation never overflows when all extents fit in 64 bits |
| EncodeWrite.GiveBack | fsyncd/src/snapshot/forward.rs:359-361 | deallocating what was just allocated restores the very same free list; it overflows iff the block ends, or the extent it came from is, past 64 bits |
| EncodeWrite.WriteFresh | fsyncd/src/snapshot/forward.rs:377-383 | a fresh block gives the overlay, is the first free extent that fits, and keeps neighbours unfragmented; it cannot fail with room |
| EncodeWrite.Splice | fsyncd/src/snapshot/forward.rs:403-423 | the new block holds the front of the first overlap, the buffer, and the back of the last overlap |
| EncodeWrite.ReleaseAll | fsyncd/src/snapshot/forward.rs:424-431 | all overlaps are removed and exactly their bytes become free; overflows iff that makes a free stretch too wide for 64 bits |
| EncodeWrite.Defragment | fsyncd/src/snapshot/forward.rs:385-436 | copy-and-free of all overlaps: overlay of the content, no byte gained or lost, disjointness kept; fails iff no place is found below the largest offset, overflows iff the blocks given back then make too wide a stretch |
| EncodeWrite.MergedPacked | fsyncd/src/snapshot/forward.rs:365-433 | after a merge, of any two adjacent extents one is still larger than the merge limit |
| EncodeWrite.RoomToAllocate | fsyncd/src/snapshot/forward.rs:227-254 | with room below the largest offset an allocation always succeeds, and below that offset |
| EncodeWrite.WriteMerged | fsyncd/src/snapshot/forward.rs:365-436 | the branches after the single-overlap cases: overlay, conservation, fragmentation; the blocks that touch the write, but for blocks of more than 1 MiB that only border on it, become one, in the first free extent that holds it, and no other block changes; exact effect of an empty write on extents, free list and content; exact outcome |
| EncodeWrite.WriteSingle | fsyncd/src/snapshot/forward.rs:325-363 | the branches for a single overlap: in place, appended, or left to the merge with nothing changed; the extents after it; exact outcome |
| EncodeWrite.EncodeWrite | fsyncd/src/snapshot/forward.rs:302-436 | content becomes the overlay, extents stay disjoint, free plus owned bytes are conserved, fragmentation guarantee kept; the extents after it are in place, appended, or the union of the write with the blocks it merges, from the free list and extents before; the outcome is a function of the free list and the extents before, in any region; with room it is done or overflows, and it never overflows in a region of 64 bits; an empty write keeps the invariant iff a block covers or ends at its offset and it does not lie between two large blocks, and changes the content iff it does |
| EncodeWrite.MergeableIs | fsyncd/src/snapshot/forward.rs:365-376 | the blocks merged are exactly those that overlap or border on the write, but for blocks of more than 1 MiB that only border on it |
| EncodeWrite.LargeLeftAlone | fsyncd/src/snapshot/forward.rs:365-376 | so a block of more than 1 MiB that only borders on the write, on either side, is left as it is unless the write is appended to it |
| EncodeWrite.OthersLeftAlone | fsyncd/src/snapshot/forward.rs:302-436 | and so is every block that does not touch the write |
| EncodeWrite.WriteOverflowIff | fsyncd/src/snapshot/forward.rs:302-436 | a write overflows iff it merges blocks and, with the merged block in place, giving them back leaves everything free from the byte before the place where the snapshot was opened |
| EncodeWrite.FirstWriteAfterOpen | fsyncd/src/snapshot/forward.rs:302-436 | so the first write after `open` never does |
| EncodeWrite.ByteHeld | fsyncd/src/snapshot/forward.rs:302-436 | nor does a write while another file holds that byte |
| EncodeWrite.ContentAbsorbs | fsyncd/src/snapshot/forward.rs:302-436 | a recorded byte next to the offset and a gap within the merge limit suffice for a write to keep the invariant, whatever the blocks are |
| Truncate.CutLast | fsyncd/src/snapshot/forward.rs:596-614 | the last extent is cut at the size and its tail given back, no byte gained or lost; overflows iff the bytes given back make a free stretch too wide for 64 bits |
| Truncate.TruncateFile | fsyncd/src/snapshot/forward.rs:582-616 | the content is clipped to the size, every block below it stays or is cut there, exactly the bytes beyond become free; overflows iff they make a free stretch too wide for 64 bits |
| Compact.MoveBlock | fsyncd/src/snapshot/forward.rs:695-729 | a block moves iff the place chosen for it is below it, and to that place; content and conservation kept; otherwise the free list is restored exactly; overflows iff a sum of the two list operations does |
| Compact.CompactBlocks | fsyncd/src/snapshot/forward.rs:686-730 | the loop over a file's blocks: runs and recorded blocks together have the content of the file, never higher than before; free list and last run are those computed from the free list and extents before |
| Compact.CompactFile | fsyncd/src/snapshot/forward.rs:686-735 | content, conservation and "no block moves up" hold iff the last run, computed from the free list and extents before, does not start at offset 0; otherwise exactly a front part of the content is lost and its bytes leak; blocks at or below the threshold stay, moved blocks that follow each other are one, the run is lost iff it is the only block that moved and starts at offset 0, and as many bytes are free as before; overflow and the new free list are functions of the state before as well |
| Compact.FrontMoves | fsyncd/src/snapshot/forward.rs:695-733 | a file loses its front only if it has a block at offset 0 that lies above the threshold and fits below itself |
| Compact.FrontAlone | fsyncd/src/snapshot/forward.rs:695-733 | and does so if its other blocks lie at or below the threshold |
| Compact.FitsBelowIff | fsyncd/src/snapshot/forward.rs:695-706 | a block that is not hinted fits below itself iff some free extent at or below it is large enough |
| Compact.BlockTurn | fsyncd/src/snapshot/forward.rs:695-729 | when a block moves and where to, what becomes of the free list, and when it joins the run before it |
| Compact.OneOutline | fsyncd/src/snapshot/forward.rs:695-729 | a block that alone lies above the threshold, and that a free extent below it can hold, moves to the first such extent |
| Compact.MoveTogether | fsyncd/src/snapshot/forward.rs:695-729 | two such blocks that follow each other in the file become one block, if the extent holds both |
| Compact.FrontDropped | fsyncd/src/snapshot/forward.rs:731-733 | what is lost when the run at offset 0 is dropped, and that the invariant still holds |
| Compact.TotalBound | fsyncd/src/snapshot/forward.rs:678-695 | the free extents together are no larger than the region |
| Compact.TotalBytes | fsyncd/src/snapshot/forward.rs:678-683 | they are as large together as the number of free bytes |
| Compact.WastedBytes | fsyncd/src/snapshot/forward.rs:678-685 | the wasted space is the number of free bytes below the end of data |
| Compact.ThresholdIs | fsyncd/src/snapshot/forward.rs:685-695 | the threshold is the number of bytes in use |
| Compact.WastedBelowEnd | fsyncd/src/snapshot/forward.rs:678-695 | the wasted space never exceeds the end of data, so the threshold is never negative |
| FileTable.LiftViews | fsyncd/src/snapshot/forward.rs:302-436 | replacing the extents of one file changes no other file's content |
| FileTable.LiftTiles | fsyncd/src/snapshot/forward.rs:302-436 | free and owned extents tile the space afterwards iff they did before |
| FileTable.SharedEntry | fsyncd/src/snapshot/forward.rs:518-544 | two entries with the same extents keep the invariant iff there are none |
| FileTable.ForgetEntry | fsyncd/src/snapshot/forward.rs:545-561 | replacing an entry's extents by none keeps the tiling iff it had none |
| FileTable.LastFreeAboveExtents | fsyncd/src/snapshot/forward.rs:738-760 | every extent ends at or below the start of the last free extent |
| FileTable.FinalImage | fsyncd/src/snapshot/forward.rs:738-781 | an image that agrees below the last free extent has the same contents and is sound when reopened |
| FileTable.ReopenedSound | fsyncd/src/snapshot/forward.rs:195-215 | with the free list that `open` makes the invariant holds iff the extents of the table are in order, disjoint and below the table |
| FileTable.ReopenedTiles | fsyncd/src/snapshot/forward.rs:195-215 | and nothing has leaked iff nothing had before and nothing below the table was free |
| SnapshotSpec.OnlyNamedPaths | fsyncd/src/snapshot/forward.rs:437-672 | a call changes no path it does not name |
| SnapshotSpec.EnoughLeft | fsyncd/src/snapshot/forward.rs:437-672 | room for a run of calls, less what the first call used, is room for the rest |
| Snapshots.Snapshot.New | fsyncd/src/snapshot/forward.rs:178-194 | an empty snapshot satisfies the invariant and tiles the space |
| Snapshots.Snapshot.Write | fsyncd/src/snapshot/forward.rs:639-642 | last-writer-wins on this path, nothing else changes, tiling and fragmentation guarantee kept, the extents after it as in `EncodeWrite`, unless the write is empty and no block absorbs it: then the extents are out of order, free list and other paths unchanged, and the content kept iff the offset is not between two large blocks; panics iff the entry cannot hold data; otherwise its outcome is a function of the free list and the extents before, done or overflow with room |
| Snapshots.Snapshot.Truncate | fsyncd/src/snapshot/forward.rs:582-616 | clips this path's content, blocks below the size stay or are cut there, exactly the bytes beyond become free, nothing else changes; overflows iff the bytes given back make a free stretch too wide for 64 bits, never on a snapshot that was not reopened |
| Snapshots.Snapshot.FreeBlocks | fsyncd/src/snapshot/forward.rs:451-461 | exactly the blocks of the entry become free, no other entry changes; overflows iff they make a free stretch too wide |
| Snapshots.Snapshot.Unlink | fsyncd/src/snapshot/forward.rs:562-569 | the path disappears, exactly its bytes become free, nothing else changes; overflows iff they make a free stretch too wide |
| Snapshots.Snapshot.Rename | fsyncd/src/snapshot/forward.rs:443-462 | the entry moves to the new path, exactly the bytes that path held become free; overflows iff that makes a free stretch too wide |
| Snapshots.Snapshot.Insert | fsyncd/src/snapshot/forward.rs:463-517 | a new entry; panics iff the path is known |
| Snapshots.Snapshot.Open | fsyncd/src/snapshot/forward.rs:216-226 | an unknown path is opened without changing any content |
| Snapshots.Snapshot.Create | fsyncd/src/snapshot/forward.rs:545-561 | the content becomes empty; bytes leak iff the entry held any |
| Snapshots.Snapshot.Link | fsyncd/src/snapshot/forward.rs:518-544 | the new path has the extents and the content of the old; panics iff the new path is known or the old cannot hold data; the invariant survives iff there are no extents |
| Snapshots.Snapshot.ApplyWrite | fsyncd/src/snapshot/forward.rs:639-642 | a write of a run: specified effect, panics iff the specification says so, exact outcome otherwise, done or overflow when all files end at or below an offset that fits after the snapshot file |
| Snapshots.Snapshot.ApplyEntry | fsyncd/src/snapshot/forward.rs:463-561 | a call that only touches the table: specified effect, panics iff the specification says so, free list and bytes unchanged |
| Snapshots.Snapshot.Apply | fsyncd/src/snapshot/forward.rs:437-672 | every call has its specified effect on the contents, panics iff the specification says so, has otherwise exactly the outcome computed from the free list and the table before, tiles iff it leaks nothing, and touches no file it does not name |
| Snapshots.Snapshot.OverflowIff | fsyncd/src/snapshot/forward.rs:437-672 | a call other than a write overflows iff it would leave everything free from the byte before the place where the snapshot was opened |
| Snapshots.Snapshot.HeldOpen | fsyncd/src/snapshot/forward.rs:437-672 | no call overflows while a file it does not name holds that byte |
| Snapshots.Snapshot.MergeFrom | fsyncd/src/snapshot/forward.rs:437-672 | over any run of calls the contents are those of the specification, the invariant holds and the space is tiled iff no call leaks; when it stops early, at which call, with what storage before it, and that this call panics or has exactly the outcome computed from that storage; no sum overflows on a new snapshot, nor on a reopened one whose last byte is held by a file that no call names; with room for the writes it completes, panics iff the specification does, or overflows |
| Snapshots.Snapshot.CompactEntry | fsyncd/src/snapshot/forward.rs:674-735 | one file of `compact`: its content survives iff the last run computed from the state before does not start at offset 0; as many bytes are free as before, so the threshold does not move |
| Snapshots.Snapshot.TailPresent | fsyncd/src/snapshot/forward.rs:678-681 | there is always a last free extent; end of data, waste and threshold in bytes |
| Snapshots.Snapshot.Compact | fsyncd/src/snapshot/forward.rs:673-737 | overflow, the free list and the files that lose their front are functions of the free list and the table before; contents and tiling survive iff there is no such file, every other file keeps its content, and none of its blocks moves up; a block at or below the number of bytes in use stays where it is; nothing changes while the free bytes below the end of data are less than 5% of it |
| Snapshots.WasteIsUsed | fsyncd/src/snapshot/forward.rs:673-737 | from 5% on, a block that alone lies above the number of bytes in use, and that a free extent below it can hold, moves to the first such extent, and is lost iff it is at offset 0 |
| Snapshots.LostHasFront | fsyncd/src/snapshot/forward.rs:673-737 | only a file with a block at offset 0 can lose its front |
| Snapshots.Snapshot.Finalize | fsyncd/src/snapshot/forward.rs:738-781 | header and file table overlap no extent, the table starts at the end of the data, both decode to what was written, the header to the position of the table and the checksum of all that follows the header, and the image read back is sound; overflows iff the compaction does, never before a reopen, and otherwise succeeds iff end of data plus table stay below the largest offset; what `open` will find is tiled iff the snapshot was, no file lost its front and no space is free below the table |
| Snapshots.Snapshot.OpenFile | fsyncd/src/snapshot/forward.rs:195-215 | succeeds iff header and table decode; valid iff the extents of the table are in order, disjoint and between header and table |
| Snapshots.FinalizeThenOpen | fsyncd/src/snapshot/forward.rs:195-215 | a snapshot that was finalized is opened again with the same table and contents, which are those before iff no file lost its front, and with the checksum of what follows the header in it, and with a free list that starts at the end of the data; if nothing had leaked and there is data, some file cannot be unlinked then |
| Snapshots.UnlinkOverflows | fsyncd/src/snapshot/forward.rs:195-215 | every tiled snapshot with data has, once reopened, a file whose unlink overflows |
| SnapshotExamples.CompactionLoses | fsyncd/src/snapshot/forward.rs:673-737 | write, write, unlink, compact from a new snapshot: a file loses its bytes |
| SnapshotExamples.EmptyWriteLoses | fsyncd/src/snapshot/forward.rs:366-382 | write, write before it, empty write between them: the file loses bytes |
| SnapshotExamples.UnlinkFails | fsyncd/src/snapshot/forward.rs:562-569 | two writes, finalize, open, unlink of the second file: overflow |
| SnapshotExamples.WriteFails | fsyncd/src/snapshot/forward.rs:385-436 | two writes, finalize, open, unlink of the first file, a longer write to the second: overflow |
| Octets.U32RoundTrip | fsyncd/src/journal/store.rs:346-415 | decoding an encoded word gives the word; its lowest byte comes first |
| RingLayout.EncodeParts | fsyncd/src/journal/store.rs:346-370 | size, transaction id, body and checksum sit where the readers look for them; the size is never zero |
| RingLayout.Contiguous | fsyncd/src/journal/store.rs:456-459 | an entry inside one block is contiguous in the ring |
| RingLayout.RingApart | fsyncd/src/journal/store.rs:456-459 | logical ranges less than a ring apart do not overlap physically |
| RingLayout.WriteKeeps | fsyncd/src/journal/store.rs:390-408 | a write leaves alone what is stored less than a ring behind it |
| RingLayout.PlaceInBlock | fsyncd/src/journal/store.rs:369-389 | an entry is placed at the tail iff it fits in the block of the tail, and otherwise at the start of the next block |
| RingLayout.BlockStart | fsyncd/src/journal/store.rs:369-389 | every block below the tail starts with an entry |
| Journals.RoomForEntry | fsyncd/src/journal/store.rs:372-389 | after eviction the entry fits between head and tail |
| Journals.AppendInv | fsyncd/src/journal/store.rs:346-415 | after a write every retained record and end marker is stored intact |
| Journals.WrittenOnly | fsyncd/src/journal/store.rs:390-408 | a write changes no byte but those of the entry and of the end marker |
| Journals.WrittenOverHead | fsyncd/src/journal/store.rs:372-387 | in a full ring the entry lands on the head, which stays where it was |
| Journals.Appended | fsyncd/src/journal/store.rs:346-415 | the invariant survives a write iff the ring was not full; when it was, the entry lands on the head, which never moves again |
| Journals.DiskKept | fsyncd/src/journal/store.rs:372-389 | the header on disk describes the journal after every change of block, and stays right in between |
| Journals.Put | fsyncd/src/journal/store.rs:369-408 | head, tail and bytes after an entry was put |
| Journals.Journal.New | fsyncd/src/journal/store.rs:259-277 | a ring with any bytes in it satisfies the invariant of an empty journal; when the header on disk is right and the ring unwritten |
| Journals.Journal.WriteInner | fsyncd/src/journal/store.rs:346-415 | refused iff the entry is too large; otherwise the record is appended with the next id; a valid journal stays valid iff the ring was not full, and an overrun one is never valid again; the header on disk is written at a change of block and only then |
| Journals.Journal.WriteAll | fsyncd/src/journal/store.rs:346-444 | any sequence of writes with any number of wraps: all bodies are in the log in order, and the journal stays valid iff no entry is written to a full ring |
| JournalIterators.ForwardStep | fsyncd/src/journal/store.rs:111-165 | on a ring with any bytes in it: the end iff head and tail meet; otherwise the entry that the ring shows where the iterator looks, after a short rest or an end marker, and no other; a size below 12 or past the end of the file is an error, and which |
| JournalIterators.ForwardIterator.Next | fsyncd/src/journal/store.rs:111-165 | the same for any journal; in a valid one the next record of the log without an error, or the end |
| JournalIterators.ReadForward | fsyncd/src/journal/store.rs:474-482 | yields exactly the retained entries in order, none of them an error |
| JournalIterators.RecentRetained | fsyncd/src/journal/store.rs:372-387 | no more than needed is evicted: every entry of the last lap but one block is still read |
| JournalIterators.ConsecutiveIds | fsyncd/src/journal/store.rs:346-370 | neighbouring entries have consecutive transaction ids |
| JournalIterators.FirstAfterOverwrite | fsyncd/src/journal/store.rs:372-387 | after a write to a full ring the first entry read is the newest one |
| JournalIterators.FillRing | fsyncd/src/journal/store.rs:369-389 | two entries of half a block fill a new ring of one block exactly |
| JournalIterators.FullRingOverwritten | fsyncd/src/journal/store.rs:372-387 | the third is then written over the first |
| JournalIterators.BlockEnd | fsyncd/src/journal/store.rs:372-387 | after the last entry of a block there is an end marker or no room for one |
| JournalIterators.DecodeOne | fsyncd/src/journal/store.rs:189-243 | one turn of that loop: it ends, yields the entry that the ring holds, or says why there is none |
| JournalIterators.LoadBlock | fsyncd/src/journal/store.rs:182-243 | on a ring with any bytes in it: without an error iff the block holds exactly these entries with their checksums, one after the other, and then an end marker or no room for one; otherwise the entries before the first that is too large, ends past the tail, has a wrong checksum or is too short, and which of these it is |
| JournalIterators.ReadsOnce | fsyncd/src/journal/store.rs:182-243 | entries and error of a block are determined by its bytes |
| JournalIterators.BlockDecodes | fsyncd/src/journal/store.rs:182-243 | in a valid journal a block is decoded into exactly its entries, without an error |
| JournalIterators.ChecksumIgnored | fsyncd/src/journal/store.rs:142-160 | an entry whose checksum is wrong is yielded by the forward iterator and refused by the reverse one |
| JournalIterators.ReverseIterator.Next | fsyncd/src/journal/store.rs:167-256 | yields the last entry in the buffer, or fills it from the block before and then does; after an error the buffer holds the entries before it; in a valid journal the previous record of the log without an error, or the end |
| JournalIterators.ReadReverse | fsyncd/src/journal/store.rs:483-491 | yields exactly the reverse of what forward iteration yields |
| JournalRecovery.Scan | fsyncd/src/journal/store.rs:309-339 | on a ring with any bytes in it the loop computes the scan from the header on disk |
| JournalRecovery.ScanResult | fsyncd/src/journal/store.rs:309-339 | that scan finds the tail and the counter of the crashed journal iff it is recoverable: the tail is in the block that the header on disk names, or at its end, and the bytes after it stop the scan, or it is in the next block and the last entry is the first there; when the tail is not past that end the answer is what a scan of the leftover bytes from the true tail gives, otherwise the end of the entry on the block boundary and the number after it |
| JournalRecovery.ScanReaches | fsyncd/src/journal/store.rs:309-339 | from any record on the scan reaches the tail, or ends behind the record that crosses the limit |
| JournalRecovery.ScanStays | fsyncd/src/journal/store.rs:312-324 | at the tail it stays iff the bytes there stop it |
| JournalRecovery.FirstLapStops | fsyncd/src/journal/store.rs:309-339 | on the first lap of a file of zeroes the bytes after the tail stop the scan |
| JournalRecovery.FirstLapIff | fsyncd/src/journal/store.rs:309-339 | on that lap the journal is recovered iff it is empty or its last entry does not start past the block after the one that the header on disk names |
| JournalRecovery.NoBoundary | fsyncd/src/journal/store.rs:309-339 | when no entry ends on a block boundary the tail is in the block that the header names, and recovery succeeds iff the bytes after it stop the scan |
| JournalRecovery.OpenAfterCrash | fsyncd/src/journal/store.rs:278-344 | after a crash between two writes `open` restores head, tail and counter exactly iff the journal is recoverable, and otherwise what it finds instead; on the first lap iff the last entry was not left behind, and always when no entry ends on a block boundary; refuses iff the type read back differs |
| JournalRecovery.WriteThenCrash | fsyncd/src/journal/store.rs:278-444 | the same for every run of writes to a new file of zeroes that has not wrapped |
| JournalRecovery.EntryLost | fsyncd/src/journal/store.rs:309-389 | two entries of half a block and two empty ones in a new ring of two blocks: the last is lost |
| Acknowledgements.ReceivedOwed | fsyncd/src/client/mod.rs:246-288 | reading a message conserves every acknowledgement owed |
| Acknowledgements.ExecutedOwed | fsyncd/src/client/mod.rs:256-283 | executing a call conserves every acknowledgement owed |
| Acknowledgements.SlotEmpty | fsyncd/src/server/client.rs:200-225 | a reply that arrives finds its slot empty |
| Acknowledgements.DeliveredOwed | fsyncd/src/server/client.rs:200-225 | delivering a reply conserves every acknowledgement owed |
| ReplicaOrder.CorkReached | fsyncd/src/client/mod.rs:284-287 | a client that reads a cork has read all that was sent before it, and executed it if it has one thread |
| ReplicaOrder.ReceivedKept | fsyncd/src/client/mod.rs:246-288 | reading loses and repeats no call, also with several threads |
| ReplicaOrder.ExecutedKept | fsyncd/src/client/mod.rs:256-283 | nor does executing one |
| ReplicaOrder.ReceivedOk | fsyncd/src/client/mod.rs:246-288 | reading a message keeps what replies mean and the order of execution |
| ReplicaOrder.ExecutedOk | fsyncd/src/client/mod.rs:256-283 | executing a call keeps them |
| ReplicaOrder.SentOk | fsyncd/src/server/mod.rs:134-161 | sending a call that is newer than all before keeps them |
| ReplicationInvariant.ReplyAwaited | fsyncd/src/server/client.rs:51-78 | whatever is in a thread's slot is what the thread waits for |
| ReplicationInvariant.SendKeeps | fsyncd/src/server/mod.rs:134-161 | sending to the next client keeps the invariant |
| ReplicationInvariant.ConsumeKeeps | fsyncd/src/server/mod.rs:212-231 | consuming a reply keeps the invariant, also of a client that is gone |
| ReplicationInvariant.CorkAckedKeeps | fsyncd/src/server/client.rs:170-184 | so does the acknowledgement of a cork |
| ReplicationInvariant.UncorkKeeps | fsyncd/src/server/mod.rs:104-116 | so does the uncork |
| ReplicationInvariant.HarvestKeeps | fsyncd/src/server/mod.rs:70-89 | so does removing a dead client |
| ReplicationInvariant.StepKeeps | fsyncd/src/server/mod.rs:70-231 | every step of every thread and client keeps the invariant |
| ReplicationInvariant.RunKeeps | fsyncd/src/server/mod.rs:70-231 | the invariant holds in every state of every run |
| ReplicationTheorems.SameOrder | fsyncd/src/server/mod.rs:123-166 | every live data client has been sent exactly the non-fsync calls of one total order since it joined, up to the call being sent |
| ReplicationTheorems.SentIff | fsyncd/src/server/mod.rs:134-161 | a data client is sent every call that is no fsync, a synchronous or flush-synchronous one also the fsyncs, a control connection nothing |
| ReplicationTheorems.ExecutedOnce | fsyncd/src/client/mod.rs:246-288 | a client, with however many threads, executes nothing it was not sent and nothing twice |
| ReplicationTheorems.ReplicasAgree | fsyncd/src/client/mod.rs:246-288 | of two live clients with one thread, what one has executed is a prefix of what the other has |
| ReplicationTheorems.ReplyMatches | fsyncd/src/server/mod.rs:212-231 | a reply belongs to the current call; it is early iff the client is semi-synchronous, and then the client has read the call; any other reply means the call was executed |
| ReplicationTheorems.SlotFree | fsyncd/src/server/client.rs:310-322 | when a thread sends, its slot is empty and nothing is on the way to it from that client |
| ReplicationTheorems.SynchronousCall | fsyncd/src/server/mod.rs:147-166 | when a call has returned, every live synchronous client connected before it has executed it |
| ReplicationTheorems.SemiSynchronousCall | fsyncd/src/server/mod.rs:147-166 | when a call that is no fsync has returned, every live semi-synchronous client connected before it has read it: it is executed or about to be, and not in the channel |
| ReplicationTheorems.EarlyReply | fsyncd/src/client/mod.rs:246-288 | a semi-synchronous client that has read a call has replied, executed or not |
| ReplicationTheorems.NeverAwaited | fsyncd/src/server/mod.rs:147-166 | no call waits for an asynchronous client or a control connection, none but an fsync for a flush-synchronous client, no fsync for a semi-synchronous one |
| ReplicationTheorems.FlushBarrier | fsyncd/src/server/mod.rs:147-155 | once a flush-synchronous client has replied to an fsync it has executed every earlier call, by whatever thread |
| ReplicationTheorems.CorkBarrier | fsyncd/src/server/mod.rs:91-102 | when a cork is complete, every live client has been sent and has read exactly all calls meant for it, and has executed them if it has one thread |
| ReplicationTheorems.CorkHolds | fsyncd/src/server/mod.rs:104-131 | until the uncork no call is ordered or sent and those clients stay up to date |
| ReplicationTheorems.CorkAvoidsControl | fsyncd/src/server/mod.rs:91-102 | a cork never waits for a control connection |
| ReplicationTheorems.PoolEscapesCork | fsyncd/src/client/mod.rs:260-287 | a run in which a client with several threads has acknowledged the cork with a call not executed |
| ReplicationTheorems.LateReply | fsyncd/src/server/client.rs:58-73 | a timeout after which a thread finds the reply to its previous call |
| ReplicationProgress.Drain | fsyncd/src/client/mod.rs:246-288 | a connected client can read, execute and acknowledge all it was sent |
| ReplicationProgress.WaitEnds | fsyncd/src/server/mod.rs:212-231 | a thread whose clients are connected or gone can get all its replies |
| ReplicationProgress.SendEnds | fsyncd/src/server/mod.rs:123-166 | a thread that sends can reach every client, give up the lock and return |
| ReplicationProgress.CorkEnds | fsyncd/src/server/mod.rs:91-102 | a cork can be completed |
| ReplicationProgress.ComesToRest | fsyncd/src/server/mod.rs:91-231 | from every reachable state in which the clients waited for are connected or gone, the system can reach one in which all threads are idle, a call can begin on each, clients can join and be removed, and every connected client has executed each call meant for it once, in order if it has one thread |
| ReplicationProgress.BeginIff | fsyncd/src/server/mod.rs:104-131 | a call begins iff its thread is idle, no thread sends and the server is not corked; so it can right after an uncork |
| ReplicationProgress.UncorkTells | fsyncd/src/server/mod.rs:104-116 | an uncork is told to every connected client and changes nothing else of it |
| FileTree.DispatchKeeps | fsyncd/src/client/dispatch_unix.rs:7-82 | every call keeps the tree a tree and its nodes well-formed |
| FileTree.MakeFails | fsyncd/src/client/dispatch_unix.rs:7-82 | a call that makes a node fails iff something is there, the directory is missing, or the type cannot be made |
| FileTree.UseFails | fsyncd/src/client/dispatch_unix.rs:7-82 | a call on a node fails iff the node is of the wrong kind, the directory not empty, or the file to be made |
| FileTree.OnlyPath | fsyncd/src/client/dispatch_unix.rs:7-82 | a call changes nothing but the node at its path |
| FileTree.DispatchLeaves | fsyncd/src/client/dispatch_unix.rs:7-82 | type, permissions, owner and content of the node it leaves there |
| Bilog.Redo | fsyncd/src/journal/bilog.rs:346-380 | where it was recorded, a record does the call again iff the call was not an open of a file that was there |
| Bilog.RedoDeletesFile | fsyncd/src/journal/bilog.rs:1011-1027 | doing such an open again deletes the file |
| Bilog.UndoChmod | fsyncd/src/journal/bilog.rs:392-442 | a change of mode is undone exactly or refused, and refused iff the checksums differ |
| Bilog.UndoChown | fsyncd/src/journal/bilog.rs:451-510 | a change of owner is undone exactly or refused, and refused iff the checksums differ |
| Bilog.NeverRefused | fsyncd/src/journal/bilog.rs:416-427 | with CRC-32 a record of a mode or an owner is refused in no state |
| Bilog.DigestValues | fsyncd/src/journal/bilog.rs:98-108 | the checksums of one mode and of one owner and group |
| Bilog.Crc32Reversible | fsyncd/src/journal/bilog.rs:346-380 | so that every call is undone but the removal of a directory with set-id bits and the open of a file that was there |
| Bilog.UndoMake | fsyncd/src/journal/bilog.rs:110-262 | mkdir, mknod, symlink and create are undone |
| Bilog.UndoRmdir | fsyncd/src/journal/bilog.rs:644-717 | a removed directory comes back without its set-id bits |
| Bilog.DirectoryRestored | fsyncd/src/journal/bilog.rs:671-686 | so exactly as it was iff it had none |
| Bilog.UndoUnlink | fsyncd/src/journal/bilog.rs:147-191 | a removed symbolic link, special node or empty file comes back exactly |
| Bilog.UndoDeletesFile | fsyncd/src/journal/bilog.rs:1011-1027 | undoing the creation of a file that existed deletes it |
| Bilog.Undo | fsyncd/src/journal/bilog.rs:346-380 | in the state after a call its record undoes it iff the call was reversible: checksums that agree, no set-id bits on a removed directory, no open of a file that was there |
| Bilog.FailedCall | fsyncd/src/server/mod.rs:178-195 | the record of a call that failed is refused or changes the tree |
| Bilog.FailedReplay | fsyncd/src/journal/bilog.rs:346-380 | the tree after its replay: the record of a call that was to make a node removes what is at the path, that of a removal of a directory that is not there makes one, of mode 0 and owned by root, and every other is refused |
| Bilog.RecordedIff | fsyncd/src/journal/bilog.rs:110-262 | every call that succeeds has a two-way record but the removal of a name of a file with data or other names |
| Bilog.BothWaysIff | fsyncd/src/journal/bilog.rs:346-380 | a record leads from the state before its call to the state after it and back iff the call succeeded and was reversible |
| Bilog.RetracedIff | fsyncd/src/journal/viewer.rs:77-119 | the log of attempted calls retraces its states in both directions iff every call succeeded and was reversible |
| Bilog.ForwardReplay | fsyncd/src/journal/viewer.rs:77-119 | forward replay from any state of a log that retraces its states reaches its end |
| Bilog.ReverseReplay | fsyncd/src/journal/viewer.rs:77-119 | reverse replay from any of its states reaches its start |
| Bilog.LogReversible | fsyncd/src/journal/viewer.rs:77-119 | a log of reversible calls that succeeded is replayed in both directions and no record is refused |
| Bilog.ReplayedIff | fsyncd/src/journal/viewer.rs:77-119 | a log is replayed iff each of its records is, one after the other: nothing follows a record that is refused |
| Bilog.Replay | fsyncd/src/journal/viewer.rs:101-119 | the loop of the viewer computes that replay |
| XorBuffers.XoredTwice | fsyncd/src/common/mod.rs:533-538 | combining a buffer twice gives it back |
| XorBuffers.XorBuf | fsyncd/src/common/mod.rs:533-538 | the loop in place computes the combined buffer |
| XorBuffers.Overlap | fsyncd/src/fuse_hl/write_unix.rs:249-252 | a read returns exactly the part of the range that lies in the file |
| Checksums.Crc32Affine | fsyncd/src/journal/bilog.rs:98-108 | the checksum of the exclusive or of three inputs of one length is the exclusive or of their checksums |
| Checksums.CheckValues | fsyncd/src/journal/bilog.rs:98-108 | the checksum is that of the IEEE 802.3 polynomial: the catalogued value of the digits 1 to 9, and a word hashed lowest byte first |
| Checksums.FoldWord | fsyncd/src/journal/bilog.rs:98-108 | feeding a word byte by byte divides it as a whole |
| Checksums.LengthTold | fsyncd/src/journal/bilog.rs:98-108 | below 2^32 no length but zero, hashed last, has the checksum of the length zero |
| DeltaWrites.TrimmedMeans | fsyncd/src/fuse_hl/write_unix.rs:263-281 | a difference trimmed of unchanged bytes, put back by a replica with the same file, is the plain write |
| DeltaWrites.LeadingZeroes | fsyncd/src/fuse_hl/write_unix.rs:265-266 | the longest run of zeroes at the front |
| DeltaWrites.TrailingZeroes | fsyncd/src/fuse_hl/write_unix.rs:267-271 | the longest run of zeroes at the back |
| DeltaWrites.DoWrite | fsyncd/src/fuse_hl/write_unix.rs:235-295 | the call sent is the difference without the zeroes at its ends, but with all that lie past the end of the file, at the place where they start; it means the plain write iff the difference has a nonzero byte; it panics iff nothing changes and the overlap is full |
| DeltaWrites.OwnFileIntact | fsyncd/src/fuse_hl/write_unix.rs:263-294 | the server's own file gets the data asked for iff the range held zeroes |
| DeltaWrites.DispatchDiff | fsyncd/src/client/dispatch_windows.rs:78-106 | the replica's loop writes the difference combined with what the range holds |
| BilogWrite.RedoWrite | fsyncd/src/journal/bilog.rs:1158-1221 | the record of a write, on the old file, constructs the plain write again; its guard passes iff the checksum does not depend on the length |
| BilogWrite.UndoWrite | fsyncd/src/journal/bilog.rs:1188-1250 | on the new file it constructs the call that restores the old one, length included; it cuts the file iff the write had made it longer |
| BilogWrite.UndoGuard | fsyncd/src/journal/bilog.rs:1188-1201 | the exact checksum condition under which the guard lets the undo pass |
| BilogWrite.WriteRefused | fsyncd/src/journal/bilog.rs:1158-1201 | with CRC-32 and a file of less than 4 GiB the guard refuses to do a write again iff the file is not left empty, and refuses to undo every write inside the file |
| BilogWrite.UndoGuardCrc32 | fsyncd/src/journal/bilog.rs:1188-1201 | with CRC-32 the guard of an undo passes iff the checksum of the old bytes with the exclusive or of the two lengths is that of the old state: it does not depend on the data |
| BilogWrite.UndoIgnoresData | fsyncd/src/journal/bilog.rs:1188-1201 | so writes of one place and length are all undone or all refused |
| RateLimit.CallBound | iolimit/src/lib.rs:48-99 | one call spends at most the bucket, what time has earned, and one millisecond's worth for a wait |
| RateLimit.RateBound | iolimit/src/lib.rs:48-99 | the same over every run of calls |
| RateLimit.Refill | iolimit/src/lib.rs:67-93 | a call that reads the clock earns a rate of a thousandth of the limit for every whole millisecond, up to what it needs or one second's worth: it passes if that covers the buffer, otherwise the bucket holds exactly what there was and what was earned, and a blocking writer waits for the whole milliseconds that the rest takes |
| RateLimit.NoRefill | iolimit/src/lib.rs:52-65 | a call that does not read the clock passes all of the buffer or what the bucket holds |
| RateLimit.TokensSpent | iolimit/src/lib.rs:96-99 | tokens are spent for the bytes written and for nothing else |
| RateLimit.WaitsBound | iolimit/src/lib.rs:48-99 | over every run of calls a writer waits no longer than the bytes offered take at the rate of the limit |
| RateLimit.SlowRatePanics | iolimit/src/lib.rs:81-86 | below 1000 bytes a second a blocking writer divides by zero exactly when its bucket does not cover the buffer |
| RateLimit.SmallWritesEscape | iolimit/src/lib.rs:83-86 | any number of single bytes passes in as many nanoseconds |
| RateLimit.SleepUntil | iolimit/src/lib.rs:35-45 | gives the first reading of the clock past the instant |
| RateLimit.LimitWriter.constructor | iolimit/src/lib.rs:16-25 | a full bucket |
| RateLimit.LimitWriter.Acquire | iolimit/src/lib.rs:49-94 | refines the decision and refill of the specification, waits included; `Refill` and `NoRefill` say in bytes and milliseconds what those are |
| RateLimit.LimitWriter.Write | iolimit/src/lib.rs:48-100 | refines the specification of one call: the bucket after it, the prefix of the buffer written, and every outcome; `TokensSpent` says what is paid |

## Left out

- Snapshots.Snapshot.MergeFrom: requires that no file with data is linked and that an empty write has a recorded byte next to it and no more than the merge limit on one side, because other such calls may break the invariant; `Snapshot.Write` and `Snapshot.Link` say exactly when. The room it asks for is that of one full copy per write, and on a reopened snapshot it may still overflow.
- Snapshots.Snapshot.Write: says nothing of the state when there is no room, when the file would pass the largest offset, or when a sum overflows; the program fails or panics there.
- Snapshots.Snapshot.Compact: the order in which the files are visited is a parameter; the claims hold for every order, that of the sorted table of the source included. The test for 5% waste is exact instead of in floating point.
- EncodeWrite.MoveFileRange: of a target above a source that it overlaps, for more than 16 KiB, it gives one wrong byte and not all of them; no caller does that.
- ReplicationProgress.ComesToRest: assumes that the clients that a thread waits for stay connected, or have been removed; it says that the threads and clients can finish, not that a scheduler lets them. The timeout of a wait is not a step.
- Acknowledgements.DeliveredOwed: requires that at most one reply is owed to the thread, which `RunKeeps` provides.
- ReplicationTheorems.ReplyMatches: excludes timeouts and calls that skip `post_op` because the filestore took them over; `LateReply` shows why.
- BilogWrite.UndoWrite: speaks of the call constructed past the guard, because the guard as written refuses it. For writes past the end of the file `UndoGuardCrc32` has the condition, a comparison of two checksums of inputs of different length.
- JournalRecovery.OpenAfterCrash: requires that the header on disk is that of the journal, which holds from its first change of block on, and from the start in a file of zeroes.
- RateLimit.RateBound: counts the waits, because each of them is too short by less than a millisecond.
- Snapshot entries' metadata, `fallocate`, and the replay of a snapshot as calls (`SnapshotApply`): they do not touch extents, or the replay is not equivalent to the contents.
- Time entries between journal records, the file store, and recovery after the ring has wrapped beyond what `Scan` states.
- Messages to control connections other than corks, compression and flushing of channels, the initial hash check and rsync.
- Uncorking is one step: the uncork messages have no effect on clients. Taking the cork lock and read-locking the client list in `pre_op` is one step as well.
- Bidirectional records of rename, link, truncate, xattr, utimens and of files with data: not two-way in the source, or times that other calls change.
- Calls on symbolic links, which the system follows, the clearing of set-id bits by `chown`, inherited groups of new directories, and a umask other than zero.
- JournalIterators.LoadBlock: an entry that ends past the tail, or whose size is below 4, makes a subtraction of the source underflow; the model stops there with an error, as a build with overflow checks does.
- Short reads, I/O errors and interrupted system calls: a read or write is complete or fails.
- Transaction counters wrap around, as in a build without overflow checks.
- Overflow of instants in the rate limiter's wait.
- The FUSE and Dokan bindings, security descriptors, sockets, command line and compressors.
