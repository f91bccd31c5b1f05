# Pique segment engine: a verified model

Pique keeps an index beside a data set as immutable *segments*: sorted key-value
tables made of prefix-compressed blocks, a membership filter, a directory over the
blocks and a footer. Segments are read whole from memory or through tail and range
reads of a stored object, stacked in layers with deletions, merged, partitioned by
key range and used as secondary indexes. This project models that engine in Dafny
and proves that each fast path answers exactly what a plain ordered list would.

Check it with `dafny verify dfyconfig.toml`.

## How the model is organised

Loops and objects of the source are methods with loops and classes. Each is proved
against a pure function of its inputs, or of the entries added so far, and the
theorems are about those functions, so they compose from a single varint up to a
stack of merged segments.

| file | contents |
|---|---|
| `ByteStrings.dfy`, `Results.dfy`, `Entries.dfy` | bytes, lexicographic order, little-endian integers; options and results; ascending key-value lists, lookup, ordered maps |
| `Varint.dfy`, `BlockFormat.dfy` | LEB128 integers; the bytes of a block as a function of its entries |
| `Aborts.dfy`, `Damage.dfy` | on foreign bytes: exactly when the readers stop; what they refuse, and what holds of what they return |
| `BlockBuilder.dfy`, `BlockReader.dfy`, `BlockLookups.dfy` | the builder classes; the reader, total on all bytes; block lookup refines list lookup |
| `Libraries.dfy`, `LawfulLibraries.dfy` | what is assumed of the checksum, transducer and filter libraries; the assumptions can be met |
| `Footer.dfy`, `SegmentFormat.dfy` | the footer; block boundaries, directory and layout |
| `SegmentWriter.dfy`, `SegmentReader.dfy`, `Segments.dfy` | writer and reader; the whole-segment theorems |
| `Layered.dfy` | layer stacks, merging, every run of pushes and background merges |
| `Secondary.dfy`, `LocationSets.dfy` | the secondary index and its value codec |
| `Partitioned.dfy`, `Adjacency.dfy`, `Stats.dfy` | key-range routing; the graph value codec; range pruning, exact and where it keeps too much |

## Conventions

- Keys, values and files are sequences of bytes. A strictly ascending list of
  key-value pairs (`Ascending`) is the meaning of a segment; on such a list lookup is
  membership and two lists with equal lookups are equal. The standard library's
  `BTreeMap` is held as such a list, its `HashMap` as a map.
- CRC32, the finite-state transducer and the XOR filter are arbitrary functions in a
  record `Libs`. `Lawful` is all that is assumed of them: a transducer built from an
  ascending directory parses back to it, and a filter never rejects a key it was
  built from. Nothing is assumed of the checksum. `LawfulLibrariesExist` shows the
  laws are consistent. UTF-8 validity is an arbitrary predicate, so the codec and
  routing results hold whatever bytes count as text.
- `as u16` and `as u32` casts keep the low bits, so the encoders are defined for
  inputs of every length; the round-trip theorems say which ones survive. The `|` of
  the varint decoder combines disjoint bits and is written as a sum; the bits a
  fifth byte shifts past 32 are dropped as in the source.
- Where the Rust program would stop on an out-of-range slice, an arithmetic
  underflow or a failed debug assertion the model returns `Panicked` or `Aborted`, so
  readers need no precondition on the bytes they are given. Overflow checks are taken
  to be on; whether debug assertions are is the field `debug` of `Libs`, and every
  theorem holds either way.
- `Writable` collects what a segment can hold: ascending keys, lengths and a key
  count below 2^32, and a total size below 2^64.

## Where code and documentation differ

- `src/block.rs:112` describes the block size limit as covering data, restarts and
  trailer, `src/block.rs:94-96` as approximate. The check allows 5 bytes for three
  varints and nothing for a new restart, and exempts the first entry. A later entry
  the check accepts keeps the limit exactly when the overhead not counted is at most
  the room the check left (`LimitIsKeptIff`), and keeps every limit that accepts it
  exactly when its overhead is at most 5 bytes plus its shared prefix
  (`EveryLimitIsKeptIff`). It ends at most 10 bytes above (`RoomBoundsSize`), which
  is reached (`SizeBoundIsTight`).
- `tests/corruption.rs:3` says corrupt segment data never makes the program panic.
  Bytes with correct checksums do, in seven places whose exact conditions are in
  `Aborts.dfy`: an in-memory open when an empty directory is said to start beyond the
  data; a tail open when the tail holds the filter's start but not the directory's; a
  block slice when the directory ends the block before its start or beyond the data; a
  remote range read when the directory ends the block before its start, as the local
  store subtracts the ends of the range; a block open when more restarts are counted
  than fit; a lookup in a block without restarts; and, with debug assertions, a search
  that meets a restart entry whose shared length is not 0. `OpensCanAbort`,
  `LookupsCanAbort`, `BlocksCanAbort` and `SharingRestartAborts` give the bytes.
  `GetStopsIff`, `RemoteGetStopsIff` and `ScanStopsIff` say exactly when a whole lookup
  or scan of an opened segment stops. Iteration of a block never does
  (`IterationNeverAborts`), a lookup in a block with sound restarts never does
  (`SoundRestartsNeverAbort`), and neither does a slice under a directory whose offsets
  rise inside the data (`RisingOffsetsNeverAbort`).
- The layered module's header (`src/layered.rs:28`) calls a value whose first byte is
  0xFF a tombstone; the code, followed here, requires the value to be exactly that one
  byte. The two hide the same keys exactly when no newest value starts with 0xFF and
  goes on (`HiddenAsWordedIff`); `OnlyTheMarkerAloneHides` gives one that does.
- A zero-entry block opens but refuses every lookup as corrupted
  (`BlockGetIsLookup`); the segment writer never writes one (`BlocksShape`).
- `src/partitioned.rs:75` says the search finds the partition that should contain a
  key. It compares strings: a key that is not UTF-8 is routed as the empty string, and
  last keys that are not UTF-8 are listed after a lossy conversion, which can make two
  maxima equal (`MaximaCanCollide`) or fall (`MaximaCanFall`). So listed keys can be
  lost: one that is not UTF-8 under UTF-8 maxima (`KeyCanBeLost`), and a UTF-8 key
  under maxima that rise but are not UTF-8 as the chunks hold them
  (`Utf8KeyCanBeLost`). `RoutingRefinesLookup` gives the exact condition for chunks of
  any keys and any manifest, `RoutesRightIff` and `RoutingIsRightIff` put it in
  comparisons of the key with the listed maxima, and `Utf8RoutingRefinesLookup` is the
  case of UTF-8 last keys. A key the list lacks is never found.
- A merge that does not reach the base drops tombstones that still hide older values
  (`MergeAboveBaseCanResurrect`); `MergeRunKeepsKey` gives the exact case.

## Model

| member | source | states |
|---|---|---|
| Varint.Encode | src/block.rs:41-52 | appends the LEB128 code of any u32 and returns its length |
| Varint.Decode | src/block.rs:56-70 | decodes the first code of any byte string, with both errors and the five-byte limit |
| Varint.RoundTrip | src/block.rs:41-70 | whatever bytes follow, decoding an encoded u32 returns it and exactly its length, 1 to 5 |
| Varint.DecodedExactly | src/block.rs:56-70 | on any bytes: the low seven bits of each byte up to the first that ends a code, as a u32, when that is among the first five; otherwise exactly one of the two errors |
| BlockFormat.SharedPrefix | src/block.rs:492-494 | a common prefix that cannot be extended |
| BlockFormat.RestartInvariant | src/block.rs:144-166 | n entries have n / r restarts rounded up; restart i is the offset of entry i * r, stored there with its whole key |
| BlockFormat.LayoutOfThree | src/block.rs:6-30 | the documented layout byte by byte, with a shared prefix and two restarts |
| BlockFormat.RoomBoundsSize | src/block.rs:134-142 | an entry that passed the size check leaves the block at most 10 bytes above the limit and its restart array within 32 bits |
| BlockFormat.RoomIff | src/block.rs:138-142 | a limit accepts an entry exactly when it is at or above a bound given by the size of the block with it, so raising a limit refuses nothing more |
| BlockFormat.RefusedWouldOverfill | src/block.rs:138-142 | a refused entry would take the block above the limit, counting its shared prefix and two bytes more |
| BlockFormat.LimitIsKeptIff | src/block.rs:134-142 | an accepted entry keeps the block within the limit exactly when the overhead the check did not count is at most the room it left; first entries included |
| BlockFormat.EveryLimitIsKeptIff | src/block.rs:134-142 | a later entry keeps every limit that accepts it exactly when its varints and new restart take at most 5 bytes plus its shared prefix |
| BlockBuilders.SizeBoundIsTight | src/block.rs:134-142 | the 10 bytes are reached |
| BlockBuilders.BlockBuilder.Add | src/block.rs:134-173 | takes the entry exactly when the check passes, a refusal changes nothing; buffer and restart array stay those of the entries, no counter overflows, no offset is truncated |
| BlockBuilders.BlockBuilder.Finish | src/block.rs:178-192 | the finished block of the entries, exactly the estimated size, at most 10 bytes above the limit with two or more entries |
| BlockBuilders.TrackedBlockBuilder.Add | src/block.rs:243-252 | as the inner builder, keeping first and last key |
| BlockBuilders.TrackedBlockBuilder.Finish | src/block.rs:255-262 | the finished block with the keys at its ends |
| BlockReaders.Open | src/block.rs:290-326 | on any bytes: the restart array and the end of the entries, or the first of the refusals |
| BlockLookups.OpenedIff | src/block.rs:290-326 | any bytes open to a reader exactly when they are its entry section sealed with its restarts, their count and the checksum |
| Damage.OpenRefusesIff | src/block.rs:290-302 | under eight bytes are too small, and more are refused for their checksum exactly when the last four are not that of the rest |
| BlockReaders.ReadEntry | src/block.rs:348-369 | reads one entry, rebuilding its key by truncate and extend; on damage, where it stopped |
| BlockReaders.DecodeKeyAtRestart | src/block.rs:413-436 | the key at a restart point or the first error in source order; with debug assertions it stops on a shared length other than 0 |
| BlockLookups.RestartsShareNothing | src/block.rs:421 | in a finished block no restart entry reads as sharing anything, so the debug assertion holds |
| Damage.CutEntryIsCorrupted | tests/corruption.rs:17 | an entry that runs past the section is refused as corrupted |
| Damage.RestartKeyIsEntryKey | src/block.rs:413-436 | on any opened block, the search reads the key the scan would rebuild there, and where it fails the scan fails with the same error |
| BlockReaders.FindRestartForKey | src/block.rs:393-410 | the binary search over restart keys |
| BlockReaders.Get | src/block.rs:332-379 | on any opened block: the scan of the interval the search picks, up to the first key at or above the target |
| BlockReaders.BlockIterator.Next | src/block.rs:450-483 | one entry or error per call, with the exact state it leaves, also after an error |
| BlockReaders.ReadAll | src/reader.rs:222-225 | an iterator run to its end or first error |
| BlockLookups.FinishedBlockOpens | src/block.rs:178-192 | a finished block opens to its own entry section and restart array |
| BlockLookups.StepReadsEntry | src/block.rs:348-369 | at the offset of entry i, with the previous key in hand or at a restart point, the reader gets entry i and stands at entry i + 1 |
| BlockLookups.IterationIsLossless | src/block.rs:447-484 | iterating a finished block returns exactly the entries added, in order, and ends with the entry section |
| Damage.FoundIsStored | src/block.rs:332-379 | on any opened block, a value found is one some entry holds for the key |
| Damage.ListedAreStored | src/block.rs:447-484 | on any opened block, so is every entry listed |
| BlockLookups.SearchFindsInterval | src/block.rs:393-410 | the search picks the interval that starts at or below the target while the next one starts above it |
| BlockLookups.BlockGetIsLookup | src/block.rs:332-379 | lookup in a finished block is lookup in the list, for every target; only a block without entries is refused |
| Footers.ToBytes | src/format.rs:62-81 | fills the 64 bytes field by field, reserved bytes zero |
| Footers.FieldsAt | src/format.rs:31-46 | each field lies where the documented layout puts it |
| Footers.DecodesIff | src/format.rs:84-104 | 64 bytes decode exactly with the magic "S3IX", version 1 and a correct checksum; which error comes first |
| Footers.DecodedIff | src/format.rs:84-116 | bytes with zeros in the reserved place decode to a footer exactly when they are its encoding |
| Footers.RoundTrip | src/format.rs:84-116 | an encoded footer reads back, with its checksum, when it is of the current version; any other version is refused by name |
| SegmentFormat.BlocksShape | src/writer.rs:126-133 | wherever boundaries fall, the blocks hold the entries in order, none empty, each within its restart array |
| SegmentFormat.BlocksFillUp | src/writer.rs:126-133 | no block is flushed early or late: each took its entries while it had room and had none for the first entry of the next, with the sizes that follow |
| SegmentFormat.DirectoryInvariant | src/writer.rs:227-245 | directory offsets start at 0 and rise; keys rise; every key of a block is above the previous block's last key and at or below its own |
| SegmentFormat.DirectoryAscends | src/writer.rs:248-262 | the directory build's ordering check passes |
| SegmentWriters.SegmentWriter.Add | src/writer.rs:103-137 | refuses a key at or below the last one, changing nothing; otherwise the writer's bytes, directory and counters are those of the longer list |
| SegmentWriters.SegmentWriter.AddToBlocks | src/writer.rs:126-133 | into the current block, or into a fresh one after a flush, which never refuses |
| SegmentWriters.SegmentWriter.FlushBlock | src/writer.rs:227-245 | the block's bytes are appended and its last key recorded with the offset where it starts |
| SegmentWriters.SegmentWriter.BuildFst | src/writer.rs:248-262 | succeeds exactly on ascending keys |
| SegmentWriters.SegmentWriter.FinishImpl | src/writer.rs:167-224 | never fails, and returns the segment of the added entries with its metadata |
| SegmentWriters.SegmentWriter.Finish | src/writer.rs:144-149 | refuses exactly the empty segment |
| SegmentWriters.SegmentWriter.FinishAllowEmpty | src/writer.rs:161-163 | also writes the segment without keys |
| SegmentWriters.AcceptedAreRecords | src/writer.rs:103-111 | over every run of adds, one is taken exactly when its key is above all earlier attempts |
| SegmentWriters.RefusalIff | src/writer.rs:105-110 | over every run of adds, a key is out of order exactly when a higher one was attempted, a duplicate exactly when it repeats the highest attempted |
| SegmentWriters.AcceptedKeepsHighest | src/writer.rs:103-119 | what a run of adds leaves is ascending and ends with the highest key attempted |
| SegmentWriters.MetaBracketsKeys | src/writer.rs:214-221 | the metadata's two keys are in the segment and bracket all others; size and count are right |
| Segments.WrittenMetadata | src/writer.rs:174-191 | a written segment opens with the filter of its keys when one was asked for and there are any, the directory of its blocks and its key count |
| Segments.WrittenBlocks | src/writer.rs:82-101 | its blocks keep the block size asked for, none closed while the next entry had room, with one restart per interval asked for, 0 taken for 1 |
| SegmentReaders.FindBlockEnd | src/reader.rs:549-561 | one pass finds the offset after the given one, or the end of the data |
| SegmentReaders.ReadBlock | src/reader.rs:230-238 | the bytes from an offset to its block's end, refusing an offset behind the data |
| SegmentReaders.Get | src/reader.rs:173-193 | on any opened segment: nothing when the filter rejects or every block ends below the key, else the answer of the one block searched, or its error |
| SegmentReaders.Iter | src/reader.rs:212-228 | the entries of all blocks in directory order, or the first error and nothing else |
| SegmentReaders.RemoteOpen | src/reader.rs:359-417 | one tail read, or a second of the exact size asked for, counted |
| SegmentReaders.RemoteGet | src/reader.rs:422-452 | exactly one range read when the filter passes and the directory names a block, otherwise none; a range that ends before its start aborts, one that ends beyond the object is an error of the store |
| Segments.RequestIff | src/reader.rs:419-441 | on a written segment a lookup makes its one request exactly when the filter passes the key and the key is at or below the highest one added |
| Segments.RejectedKeyIsAbsent | src/reader.rs:419-426 | a key the written filter rejects is answered without looking into a block, and was not added |
| Segments.WholeOpens | src/reader.rs:57-96 | the in-memory open of a written layout returns its footer, filter and directory |
| Segments.TailOpens | src/reader.rs:103-170 | any tail that reaches back to the filter opens to the same metadata |
| Segments.ShortTailAsksForExactSize | src/reader.rs:126-132 | a shorter tail is refused with exactly the number of bytes that suffices |
| Segments.RemoteOpenAgrees | src/reader.rs:386-410 | remote open succeeds exactly when the budget covers the footer, after one tail read or exactly two |
| Segments.DefaultBudgetOpens | src/reader.rs:30-36 | without a budget every written segment opens, in one tail read exactly when filter, directory and footer take at most 256 KiB, else in two |
| Segments.EmptyMetadataIsEmptySegment | src/reader.rs:268-291 | the metadata of a zero-byte object is that of a segment written without keys, but for the checksum |
| Damage.OpensIff | src/reader.rs:57-96 | any bytes open to a reader exactly when the footer decodes, its sections end before it and the directory parses to what the reader holds |
| Damage.OpenErrorIff | tests/corruption.rs:11-14 | which error the in-memory open returns: the footer's, an offset, or the directory's |
| Damage.TailAgreesIff | src/reader.rs:103-170 | on any bytes, the tail open succeeds exactly when the in-memory open does and the tail reaches filter, directory and footer, and then with the same metadata |
| Damage.TailAsksForFilter | src/reader.rs:126-132 | on any bytes, a tail is too small exactly when it starts behind the filter, and asks for all from there |
| Damage.TailErrorIff | src/reader.rs:134-162 | which other error the tail open returns: the footer's, an offset, or the directory's |
| Damage.RemoteOpenIff | src/reader.rs:386-410 | on any object and budget that hold a footer, the remote open returns what the in-memory open does, exactly when the last tail read reaches |
| Damage.RemoteLookupAgrees | src/reader.rs:422-452 | on any bytes under any metadata, the remote lookup answers as the in-memory one, errors included, but where a block ends beyond the object |
| Damage.GotIsStored | src/reader.rs:173-193 | whatever segment is opened, a value found is held by an entry of the block the directory names, whose checksum is right |
| Damage.WrongChecksumIsRefused | tests/corruption.rs:10 | lookup and listing refuse a block whose checksum is wrong |
| Aborts.OpenAbortsIff | src/reader.rs:482-538 | on any bytes, the offset checks keep every slice of an in-memory open in range except a zero-length directory that starts beyond the data |
| Aborts.TailOpenAbortsIff | src/reader.rs:117-162 | on any bytes, a tail open aborts exactly when the stated size is too small or the tail reaches the filter but not the directory |
| Aborts.OpensCanAbort | src/reader.rs:85-87 | 64 bytes with a correct checksum that make each open abort |
| Aborts.GetStopsIff | src/reader.rs:173-193 | on any opened segment, an in-memory lookup stops exactly when filter and directory lead it to a block whose slicing, opening or searching stops |
| Aborts.RemoteGetStopsIff | src/reader.rs:422-452 | a remote lookup stops exactly when it is led to a range that ends before its start, or to a stored block whose opening or searching stops |
| Aborts.ScanStopsIff | src/reader.rs:212-228 | a scan stops exactly when, after blocks that list without an error, it meets one whose slicing or opening stops |
| Aborts.RisingOffsetsNeverAbort | src/reader.rs:230-238 | a directory whose offsets rise inside the data section never aborts a slice, whatever offset is asked for |
| Aborts.LookupsCanAbort | src/reader.rs:237 | a segment that opens and aborts a lookup, in memory by its slice and remote by its range |
| Aborts.StepAbortsIff | src/block.rs:348-353 | reading an entry aborts exactly from a position beyond the data |
| Aborts.BlockOpenAbortsIff | src/block.rs:303-319 | a block open aborts exactly when the trailer counts more restarts than fit |
| Aborts.IterationNeverAborts | src/block.rs:450-483 | iteration of an opened block never aborts, whatever it holds |
| Aborts.SearchAbortsIff | src/block.rs:393-436 | the restart search aborts exactly when a restart it reads fails the debug assertion |
| Aborts.SearchPicksReadKey | src/block.rs:393-410 | a restart the search picks is one whose key it read |
| Aborts.LookupAbortsIff | src/block.rs:332-379 | a lookup aborts exactly in a block without restarts, or when the search meets a restart that fails the debug assertion |
| Aborts.SoundRestartsNeverAbort | src/block.rs:332-379 | without debug assertions, or where no restart entry reads as sharing anything, a block with a restart never aborts a lookup |
| Aborts.MiddleRestartStopsAll | src/block.rs:397-399 | when the middle restart fails the assertion, every lookup aborts |
| Aborts.BlocksCanAbort | src/block.rs:290-342 | eight bytes that make a block open, or every lookup in it, abort |
| Aborts.SharingRestartAborts | src/block.rs:421 | a block with a correct checksum that aborts every lookup with debug assertions and finds its key without |
| Segments.ZeroByteObjectIsEmpty | src/reader.rs:378-384 | a zero-byte object opens without a request and holds nothing |
| Segments.RangesTile | src/reader.rs:549-561 | block ranges start at 0, each ends where the next begins, the last with the data section |
| Segments.BlockSlices | src/reader.rs:305-312 | both readers slice exactly the bytes of the block |
| Segments.LookupInBlock | src/reader.rs:543-546 | the first block whose last key is at or above the key is the only one that can hold it |
| Segments.FilterKeepsAddedKeys | src/writer.rs:174-179 | the filter never hides an added key |
| Segments.SegmentRefinesMap | src/reader.rs:173-193 | for every writable list, any block size and restart interval, filter on or off: the written bytes open and every lookup, in memory or remote, is lookup in the list |
| Segments.ScanRoundTrip | src/reader.rs:212-228 | scanning a written segment returns exactly the added entries |
| Segments.RemoteAgreesWithInMemory | src/reader.rs:422-452 | for every tail budget and key, metadata and lookups of the remote reader are those of the in-memory reader, in at most two tail reads |
| Layered.LayeredGet | src/layered.rs:82-98 | over any segments, newest first: the first value found, hidden when a tombstone, or the first error met before it |
| Layered.FirstAnswerDecides | src/layered.rs:86-97 | over any segments, the first whose filter and lookup do not miss decides, by its error or by its value |
| Layered.LayeredGetIsVisible | src/layered.rs:82-98 | over written segments it returns the newest value, or nothing when that is a tombstone |
| Layered.HiddenAsWordedIff | src/layered.rs:28-31 | the header's wording and the code hide the same keys exactly when no newest value starts with the marker and goes on |
| Layered.OnlyTheMarkerAloneHides | src/layered.rs:58-60 | 0xFF alone hides its key and with a second byte is a value, whatever lies below |
| Layered.MergeSegments | src/layered.rs:215-254 | on any segments: the first read error, or the segment of the gathered map, refused exactly when that is empty |
| Layered.GatheringFailsIff | src/layered.rs:223-225 | a merge fails in reading exactly when some segment does not list, with the error of the oldest that does not |
| Layered.MergedIsShaped | src/layered.rs:236-241 | the merged segment carries the filter of its keys, in blocks of 64 KiB with a restart every 16 entries |
| Layered.AppliedAscends | src/layered.rs:221-234 | the ordered map stays ordered whatever a segment lists |
| Layered.WrittenStackGathers | src/layered.rs:224-234 | over written segments the gathered map is the merged list, without an error |
| Layered.AppliedIsOverlay | src/layered.rs:224-234 | applying a layer overlays it on the map and leaves no tombstone |
| Layered.MergedIsVisible | src/layered.rs:221-234 | the merged list is the visible map of the stack |
| Layered.MergedKeyCount | src/layered.rs:243-251 | one key for each live key; nothing to write exactly when no key is visible |
| Layered.MergePreservesIndex | src/layered.rs:215-254 | the merged segment opens, answers every key as the stack did, scans without tombstones and counts its live keys |
| Layered.MergeRunKeepsKey | src/layered.rs:226-229 | merging a middle run keeps a key's visible value in all but one exactly stated case |
| Layered.MergeToBaseKeepsKey | src/layered.rs:13-17 | merging down to the base keeps every key |
| Layered.MergeIsCanonical | src/layered.rs:243-253 | stacks with the same visible map merge to the same list |
| Layered.MergeInStagesIsMerge | src/layered.rs:13-17 | merging the bottom of a stack first and the rest later writes what one merge would |
| Layered.MergeAboveBaseCanResurrect | src/layered.rs:226-229 | a concrete stack where a merge above the base brings a deleted key back |
| Layered.StepIsConsistent | src/layered.rs:13-17 | every push, merge start, commit and abandonment keeps the merge input at the bottom of the stack and changes the visible map only by a pushed delta |
| Layered.RunsShowPushedDeltas | src/layered.rs:13-17 | in every run the stack shows the pushed deltas over the base, so merges are invisible and deltas landing meanwhile are kept |
| Layered.BottomCanBeMerged | src/layered.rs:13-17 | from any state a run reaches without a merge, the bottom at any depth that shows a key can be merged while a delta lands, and leaves the layers above it alone |
| Layered.MergedIsWritten | src/layered.rs:236-253 | the opened output of a merge is a written segment of the merged layers |
| Layered.SegmentStepHolds | src/layered.rs:13-17 | a step on segments, a commit putting the merge's own output in place, is a step on the layers they hold |
| Layered.SegmentEnabledIff | src/layered.rs:13-17 | an action is open to the segments exactly when it is to the layers they hold and, for a commit, the merged layers fit a segment |
| Layered.SegmentRunHolds | src/layered.rs:13-17 | every run over segments is a run over the layers they hold, with the same pushes |
| Layered.RunsReadBack | src/layered.rs:82-98 | in every run over segments, every lookup shows the pushed deltas over the base |
| LocationSets.Encode | src/values/location_set.rs:66-77 | the loop writes the truncated count, then every location in order |
| LocationSets.Decode | src/values/location_set.rs:80-118 | on any bytes: as many locations as the count says, or the first error |
| LocationSets.LocationReadsBack | src/values/location_set.rs:89-115 | a location reads back exactly when its file key fits 16 bits |
| LocationSets.RoundTrip | src/values/location_set.rs:66-118 | whatever follows, decoding returns the locations in order exactly when count and file keys fit |
| LocationSets.DecodedIff | src/values/location_set.rs:80-118 | any bytes decode to a list exactly when it is encodable and its encoding stands at their front |
| LocationSets.CutIsTooShort | src/values/location_set.rs:81-97 | an encoding cut anywhere is too short |
| LocationSets.InvalidUtf8Iff | src/values/location_set.rs:98-100 | locations that fit are refused as text exactly when a file key is not UTF-8 |
| LocationSets.LayoutOfOne | src/values/location_set.rs:6-17 | the documented layout byte by byte |
| Secondary.SecondaryIndexWriter.AddLocation | src/secondary.rs:85-87 | the groups stay those of the calls made |
| Secondary.SecondaryIndexWriter.TotalLocations | src/secondary.rs:95-97 | the number of calls made |
| Secondary.SecondaryIndexWriter.Finish | src/secondary.rs:103-120 | the segment of the encoded groups; refuses exactly when no call was made |
| Secondary.SecondaryIndexWriter.KeyCount | src/secondary.rs:90-92 | the number of distinct keys named by the calls |
| Secondary.GroupsHoldLocations | src/secondary.rs:85-87 | whatever the interleaving, each key holds its locations in call order, keys ascending |
| Secondary.LaterLocationsFollow | src/secondary.rs:86 | call order: what later calls add stands behind what earlier ones did |
| Secondary.OrderOfKeysDoesNotMatter | src/secondary.rs:84 | two call lists leave the same groups, hence the same segment, exactly when they agree on each key by itself |
| Secondary.TotalIsCallCount | src/secondary.rs:95-97 | no location is lost or duplicated |
| Secondary.IndexRoundTrip | src/secondary.rs:103-120 | a key's lookup on the finished segment decodes to exactly its locations in call order when their file keys fit; unknown keys are not found |
| Partitioned.FindPartition | src/partitioned.rs:81-97 | on any manifest the search ends at a match or between its neighbours; on maxima that rise, at the first one at or above the key |
| Partitioned.RisingStopsOnce | src/partitioned.rs:75-82 | on maxima that rise the search can end in one place only, the first at or above the key |
| Partitioned.OrderedStopsOnlyAt | src/partitioned.rs:84-97 | on ordered maxima, equal ones included, exactly when the search is bound to end at a given partition |
| Partitioned.PartitionCount | src/partitioned.rs:132-135 | as few partitions as hold all keys, at least one |
| Partitioned.AcceptedIffAscending | src/partitioned.rs:167-169 | a partition's entries are all accepted exactly when ascending |
| Partitioned.BuiltIff | src/partitioned.rs:157-183 | a chunk is built exactly when it is ascending and not empty, and refused as empty exactly when it is |
| Partitioned.FirstRefusal | src/partitioned.rs:167-169 | otherwise the refusal is that of the first entry that does not rise, a duplicate when it repeats the key before |
| Partitioned.BuildPartition | src/partitioned.rs:157-183 | the built partition, or the first refusal, or the refusal of an empty chunk |
| Partitioned.ChunksBuild | src/partitioned.rs:157-183 | every chunk of a sorted list builds, with the maximum key the manifest lists |
| Partitioned.PartitionIsShaped | src/partitioned.rs:161-165 | a partition carries the filter of its keys, in blocks of the size asked for with a restart every 16 entries |
| Partitioned.LastKeysRise | src/partitioned.rs:54-56 | the last keys of contiguous chunks rise |
| Partitioned.MaxKeysRise | src/partitioned.rs:172-175 | UTF-8 last keys are listed unchanged, so the manifest's maximum keys rise |
| Partitioned.MaximaCanCollide | src/partitioned.rs:172-175 | two last keys the lossy conversion makes equal, so that the manifest does not rise |
| Partitioned.MaximaCanFall | src/partitioned.rs:172-175 | two last keys the lossy conversion puts out of order |
| Partitioned.KeyIsInOneChunk | src/partitioned.rs:75-82 | the chunk that holds a key is the first whose last key is at or above it |
| Partitioned.PartitionAnswers | src/partitioned.rs:81-97 | whatever partition a lookup is sent to: a missing key is not found, a listed one exactly in the first chunk whose last key is at or above it |
| Partitioned.RoutingRefinesLookup | src/partitioned.rs:81-97 | for chunks of any keys under any manifest, every partition the search may name answers as the uncut list exactly when the key is missing or the search is bound to end at its chunk |
| Partitioned.RoutesRightIff | src/partitioned.rs:83-97 | under ordered maxima that is a comparison of the key with the maxima of its chunk and its neighbours |
| Partitioned.RoutingIsRightIff | src/partitioned.rs:81-97 | under maxima that rise: a missing key is never found, a listed UTF-8 key exactly when it is between the maxima of its chunk, any other exactly when it is in the first chunk |
| Partitioned.Utf8RoutingRefinesLookup | src/partitioned.rs:81-97 | with UTF-8 last keys: routed lookup agrees exactly when the key is missing, UTF-8 or at or below the first partition's maximum |
| Partitioned.IndexIsRightIff | src/partitioned.rs:81-97 | for chunks of any keys, the index answers every key as the uncut list exactly when the search for each listed key is bound to end at its chunk |
| Partitioned.Utf8IndexIsRightIff | src/partitioned.rs:81-97 | with UTF-8 last keys, exactly when each listed key above the first maximum is UTF-8 |
| Partitioned.KeyCanBeLost | src/partitioned.rs:83 | under UTF-8 maxima, a listed key in the second of two partitions that routed lookup does not find |
| Partitioned.Utf8KeyCanBeLost | src/partitioned.rs:172-175 | under maxima that rise, a listed UTF-8 key that routed lookup does not find |
| Adjacency.Encode | src/values/adjacency.rs:111-125 | the loops write both truncated counts, then all outgoing and all incoming edges in order |
| Adjacency.Decode | src/values/adjacency.rs:128-150 | on any bytes: as many edges of each list as the counts say, or the first error |
| Adjacency.EncodeEdge | src/values/adjacency.rs:158-170 | id, kind byte and, for a custom kind, its name |
| Adjacency.KindReadsBack | src/values/adjacency.rs:74-106 | every kind reads back from its byte, a custom one with its name when that is UTF-8 and fits 16 bits |
| Adjacency.EdgeReadsBack | src/values/adjacency.rs:172-203 | an edge reads back exactly when its strings fit 16 bits, using exactly the bytes its encoding wrote |
| Adjacency.RoundTrip | src/values/adjacency.rs:111-150 | whatever follows, decoding returns both edge lists exactly when counts and strings fit 16 bits |
| Adjacency.DecodedIff | src/values/adjacency.rs:128-150 | any bytes decode to an adjacency list exactly when it is encodable and its encoding stands at their front |
| Adjacency.CutIsTooShort | src/values/adjacency.rs:128-203 | an encoding cut anywhere is too short |
| Adjacency.InvalidUtf8Iff | src/values/adjacency.rs:172-203 | lists that fit are refused as text exactly when an id or a kind's name is not UTF-8 |
| Adjacency.UnknownKindIsRefused | src/values/adjacency.rs:104 | a kind byte outside the dictionary is an invalid format |
| Adjacency.Dictionary | src/values/adjacency.rs:22-26 | the documented kind bytes |
| Adjacency.LayoutOfTwo | src/values/adjacency.rs:6-20 | the documented layout byte by byte |
| Stats.StatsManifest.AddRowGroup | src/stats.rs:144-164 | the row group is appended to its file's and to no other's; a new file comes last |
| Stats.CollectedNames | src/stats.rs:150-153 | a column of the added row group has statistics exactly when some pair names it |
| Stats.CollectedHoldsLast | src/stats.rs:150-153 | they are those of the last pair that does |
| Stats.StatsManifest.QueryOverlap | src/stats.rs:183-218 | the surviving row groups in manifest order |
| Stats.StatsManifest.AllRowGroupRefs | src/stats.rs:236-247 | all row groups in manifest order |
| Stats.QueryNames | src/stats.rs:183-218 | a query names a file and a row group number exactly when the file has recorded one of that number whose statistics overlap every predicate |
| Stats.GroupsFollowManifest | src/stats.rs:189-190 | row group j of file i stands behind the groups of the files before |
| Stats.SurvivorsKeepOrder | src/stats.rs:189-213 | a result stands behind exactly the survivors of the groups before it |
| Stats.SurvivesIffOverlaps | src/stats.rs:192-214 | a group survives exactly when every predicate with statistics overlaps |
| Stats.PruningIsSound | src/stats.rs:169-171 | a group holding a satisfying row is never pruned |
| Stats.OverlapIsSharedValue | src/stats.rs:173-176 | the interval test passes exactly when some recordable value satisfies the predicate |
| Stats.PruningIsExact | src/stats.rs:169-179 | for every conjunction over any statistics: some row they allow satisfies all predicates exactly when the group survives, the ranges on each column pairwise meet and the recorded minima asked about are at or below their maxima |
| Stats.DisjointRangesCanSurvive | src/stats.rs:169-171 | a false positive: two ranges on one column that keep a group no row of which satisfies both |
| Stats.ConjunctionIsIntersection | src/stats.rs:178-179 | joining predicate lists is pruning by one and then the other |
| Stats.GroupsAreRecorded | src/stats.rs:189-213 | the groups queried are those recorded for their files |

## Left out

- Storage back ends, async execution and requests that fail: a store is an immutable byte string with a count of the reads made.
- What errors carry beyond their kind, such as the section and offsets of an invalid offset.
- Internals, false-positive rate and error detection of the checksum, filter and transducer libraries.
- SegmentWriters.SegmentWriter.Add: requires fewer than 2^32 - 1 keys so far, because the source's key counter would overflow.
- Layered.MergeSegments: requires that fewer than 2^32 keys survive, because the source's key counter would overflow.
- Layered.RunsShowPushedDeltas: at most one merge is under way at a time, and replacing the whole stack by a full reindex is not a step.
- Partitioned.FindPartition: on maxima that fall the standard library promises nothing of its search; what is stated there holds of the search as modelled.
- SegmentReaders.RemoteGet: the store answers as the local back end does; the S3 back end also underflows on a range that ends at 0 (`src/storage.rs:180`), and its answer to a range that ends before its start is not modelled.
- Running out of memory, as when a directory makes the local back end allocate a buffer for a range far beyond the object, and objects of 2^63 bytes or more.
- RemoteLayeredReader: its lookup is the in-memory one over remote segments; its `open` is a stub.
- `BlockBuilder::first_key`, a stub that always returns nothing, and capacity hints.
- `EntityLocation` and `PathEntries` as codecs of their own, easier copies of the ones here.
- JSON forms of the manifests, merge-size ratios, error classification, size getters and the segment path and generation set by callers.
