/** Written segments read back: the whole-segment theorems. */
module Segments {
  import opened ByteStrings
  import opened Results
  import opened Entries
  import opened Libraries
  import opened SegmentFormat
  import opened SegmentReaders
  import BlockFormat
  import BlockLookups
  import BlockReaders
  import Footers

  /** What may be written: ascending keys, lengths and count within the format's
      integers, and a segment an address can reach the end of. */
  ghost predicate Writable(libs: Libs, o: Options, es: seq<Entry>) {
    && Ascending(es)
    && BlockFormat.LengthsFit(es)
    && |es| < U32_LIMIT
    && |SegmentOf(libs, o, es)| < U64_LIMIT
  }

  /** The sections of a segment: data blocks, filter and directory. */
  datatype Parts = Parts(data: Bytes, filter: Bytes, dir: Directory, keyCount: u32) {
    function FstOf(libs: Libs): Bytes {
      libs.fstBuild(dir)
    }

    function Whole(libs: Libs): Bytes {
      Layout(libs.crc, data, filter, FstOf(libs), keyCount)
    }

    function Footer(libs: Libs): Footers.Footer {
      var f := FooterFor(|data|, |filter|, |FstOf(libs)|, keyCount);
      f.(checksum := libs.crc(Footers.Head(f)))
    }

    function Meta(libs: Libs): Metadata {
      Metadata(Footer(libs), dir, filter)
    }

    ghost predicate Valid(libs: Libs) {
      libs.Lawful() && Ascending(dir) && OffsetsFit(dir) && |Whole(libs)| < U64_LIMIT
    }
  }

  function PartsOf(libs: Libs, o: Options, es: seq<Entry>): (p: Parts)
    ensures p.Whole(libs) == SegmentOf(libs, o, es)
  {
    var blocks := BlocksOf(o, es);
    Parts(BlockBytes(libs.crc, o.Interval(), blocks), FilterBytes(libs, o, es),
          DirectoryOf(libs.crc, o.Interval(), blocks), AsU32(|es|))
  }

  // ---------------------------------------------------------------------
  // Opening
  // ---------------------------------------------------------------------

  /** Where the sections of a layout lie. */
  lemma SectionsAt(libs: Libs, p: Parts)
    ensures var all, fst := p.Whole(libs), p.FstOf(libs);
            && |all| == |p.data| + |p.filter| + |fst| + Footers.FOOTER_SIZE
            && At(all, 0, p.data) && At(all, |p.data|, p.filter) && At(all, |p.data| + |p.filter|, fst)
            && At(all, |all| - Footers.FOOTER_SIZE,
                  Footers.Encoded(libs.crc, FooterFor(|p.data|, |p.filter|, |fst|, p.keyCount)))
  {
    hide Footers.Encoded, At;
    var all, fst := p.Whole(libs), p.FstOf(libs);
    WholeIsAt(all);
    var footer := Footers.Encoded(libs.crc, FooterFor(|p.data|, |p.filter|, |fst|, p.keyCount));
    AtSplits(all, 0, p.data + p.filter + fst, footer);
    AtSplits(all, 0, p.data + p.filter, fst);
    AtSplits(all, 0, p.data, p.filter);
  }

  /** The footer parses from any tail that holds it, and its offsets check out. */
  lemma FooterParses(libs: Libs, p: Parts, start: nat)
    requires p.Valid(libs)
    requires start + Footers.FOOTER_SIZE <= |p.Whole(libs)|
    ensures ParseFooter(libs, p.Whole(libs)[start..]) == Ok(p.Footer(libs))
    ensures var f := p.Footer(libs);
            && f.dataBlocksLength == f.bloomOffset == |p.data| && f.bloomLength == |p.filter|
            && f.fstOffset == |p.data| + |p.filter| && f.fstLength == |p.FstOf(libs)|
    ensures OffsetsCheck(p.Footer(libs), |p.Whole(libs)| - Footers.FOOTER_SIZE) == Ok(())
  {
    hide Footers.Encoded, Footers.Decoded, Footers.Head, Layout;
    SectionsAt(libs, p);
    var all, f := p.Whole(libs), FooterFor(|p.data|, |p.filter|, |p.FstOf(libs)|, p.keyCount);
    var tail := all[start..];
    AtInSuffix(all, start, |all| - Footers.FOOTER_SIZE, Footers.Encoded(libs.crc, f));
    assert tail[|tail| - Footers.FOOTER_SIZE..] == tail[|tail| - Footers.FOOTER_SIZE..|tail|];
    Footers.RoundTrip(libs.crc, f);
  }

  /** The in-memory open of a layout gets its three sections back. */
  lemma WholeOpens(libs: Libs, p: Parts)
    requires p.Valid(libs)
    ensures Opened(libs, p.Whole(libs)) == Ok(Segment(p.Whole(libs), p.Meta(libs)))
  {
    hide Footers.Encoded, Footers.Decoded, Footers.Head, Layout, ParseFooter, OffsetsCheck, FooterFor;
    SectionsAt(libs, p);
    FooterParses(libs, p, 0);
    assert p.Whole(libs)[0..] == p.Whole(libs);
  }

  /** A tail that reaches back to the filter opens to the same metadata. */
  lemma TailOpens(libs: Libs, p: Parts, start: nat)
    requires p.Valid(libs) && start <= |p.data|
    ensures OpenedFromTail(libs, p.Whole(libs)[start..], |p.Whole(libs)|) == Ok(p.Meta(libs))
  {
    hide Footers.Encoded, Footers.Decoded, Footers.Head, Layout, ParseFooter, OffsetsCheck, FooterFor;
    SectionsAt(libs, p);
    FooterParses(libs, p, start);
    AtInSuffix(p.Whole(libs), start, |p.data|, p.filter);
    AtInSuffix(p.Whole(libs), start, |p.data| + |p.filter|, p.FstOf(libs));
  }

  /** A shorter one is refused with the exact number of bytes that would do. */
  lemma ShortTailAsksForExactSize(libs: Libs, p: Parts, start: nat)
    requires p.Valid(libs)
    requires |p.data| < start && start + Footers.FOOTER_SIZE <= |p.Whole(libs)|
    ensures OpenedFromTail(libs, p.Whole(libs)[start..], |p.Whole(libs)|) ==
            Err(TailTooSmall(|p.Whole(libs)| - |p.data|, |p.Whole(libs)| - start))
  {
    hide Footers.Encoded, Footers.Decoded, Footers.Head, Layout, ParseFooter, OffsetsCheck, FooterFor;
    SectionsAt(libs, p);
    FooterParses(libs, p, start);
  }

  /** Remote open of a layout: it succeeds exactly when the budget covers the
      footer, with the metadata of the in-memory open, after one tail read or,
      when the budget does not reach the filter, exactly two. */
  lemma RemoteOpenAgrees(libs: Libs, p: Parts, budget: nat)
    requires p.Valid(libs)
    ensures var opening := RemoteOpened(libs, p.Whole(libs), budget);
            && (opening.outcome.Ok? <==> budget >= Footers.FOOTER_SIZE)
            && (opening.outcome.Ok? ==> opening.outcome.value == p.Meta(libs))
            && (opening.outcome.Err? ==> opening.outcome.error == Format(Footers.TooSmall(budget)))
            && opening.tailReads == if Footers.FOOTER_SIZE <= budget < |p.Whole(libs)| - |p.data| then 2 else 1
  {
    hide OpenedFromTail, Layout;
    SectionsAt(libs, p);
    var all := p.Whole(libs);
    var start := |all| - Min(budget, |all|);
    if budget < Footers.FOOTER_SIZE {
      TinyTailIsRefused(libs, all[start..], |all|);
    } else if start <= |p.data| {
      TailOpens(libs, p, start);
    } else {
      ShortTailAsksForExactSize(libs, p, start);
      TailOpens(libs, p, |p.data|);
    }
  }

  lemma TinyTailIsRefused(libs: Libs, tail: Bytes, size: nat)
    requires |tail| < Footers.FOOTER_SIZE
    ensures OpenedFromTail(libs, tail, size) == Err(Format(Footers.TooSmall(|tail|)))
  {
  }

  /** The writer's parts are valid for every writable list. */
  lemma PartsAreValid(libs: Libs, o: Options, es: seq<Entry>)
    requires libs.Lawful() && Writable(libs, o, es)
    ensures PartsOf(libs, o, es).Valid(libs)
  {
    hide BlocksOf, BlockBytes, DirectoryOf, Flatten, Layout;
    var p, r, blocks := PartsOf(libs, o, es), o.Interval(), BlocksOf(o, es);
    SectionsAt(libs, p);
    BlocksShape(o, es);
    DirectoryAscends(libs.crc, r, blocks);
    DirectoryFits(libs.crc, r, blocks);
  }

  // ---------------------------------------------------------------------
  // Finding and slicing a block
  // ---------------------------------------------------------------------

  lemma {:induction false} BlockEndAt(fst: Directory, i: nat, dataEnd: nat)
    requires i < |fst|
    requires forall j :: 0 <= j < i ==> fst[j].value != fst[i].value
    ensures BlockEnd(fst, fst[i].value, dataEnd) == if i + 1 < |fst| then fst[i + 1].value else dataEnd
    decreases |fst|
  {
    if i > 0 {
      BlockEndAt(fst[1..], i - 1, dataEnd);
    }
  }

  lemma {:induction false} BlockForKeyFinds(fst: Directory, key: Bytes) returns (i: nat)
    ensures i <= |fst| && forall j :: 0 <= j < i ==> !AtMost(key, fst[j].key)
    ensures i == |fst| ==> BlockForKey(fst, key) == None
    ensures i < |fst| ==> AtMost(key, fst[i].key) && BlockForKey(fst, key) == Some(fst[i].value)
  {
    hide AtMost;
    if fst == [] || AtMost(key, fst[0].key) {
      i := 0;
    } else {
      i := BlockForKeyFinds(fst[1..], key);
      i := i + 1;
    }
  }

  /** The block ranges tile the data section: each starts where the one before it
      ends, the first at 0 and the last ending with the section. */
  lemma RangesTile(libs: Libs, r: nat, blocks: Blocks, i: nat)
    requires r >= 1 && i < |blocks|
    ensures var d, data := DirectoryOf(libs.crc, r, blocks), BlockBytes(libs.crc, r, blocks);
            && d[i].value == BlockOffset(libs.crc, r, blocks, i) < |data|
            && BlockEnd(d, d[i].value, |data|) == BlockOffset(libs.crc, r, blocks, i + 1) <= |data|
            && At(data, d[i].value, BlockFormat.Finished(libs.crc, r, blocks[i]))
            && BlockOffset(libs.crc, r, blocks, i + 1)
               == d[i].value + |BlockFormat.Finished(libs.crc, r, blocks[i])|
            && BlockOffset(libs.crc, r, blocks, 0) == 0
            && BlockOffset(libs.crc, r, blocks, |blocks|) == |data|
  {
    hide BlockFormat.Finished, DirectoryOf, BlockEnd, At;
    var d, data := DirectoryOf(libs.crc, r, blocks), BlockBytes(libs.crc, r, blocks);
    assert blocks[..|blocks|] == blocks;
    forall j | 0 <= j < i
      ensures d[j].value != d[i].value
    {
      DirectoryAt(libs.crc, r, blocks, j);
      DirectoryAt(libs.crc, r, blocks, i);
      BlockOffsetsRise(libs.crc, r, blocks, j, i);
    }
    DirectoryAt(libs.crc, r, blocks, i);
    BlockAt(libs.crc, r, blocks, i);
    BlockOffsetsRise(libs.crc, r, blocks, i, i + 1);
    BlockOffsetsRise(libs.crc, r, blocks, i + 1, i + 1);
    BlockEndAt(d, i, |data|);
    if i + 1 < |blocks| {
      DirectoryAt(libs.crc, r, blocks, i + 1);
    }
  }

  ghost predicate Holds(libs: Libs, r: nat, blocks: Blocks, p: Parts)
    requires r >= 1
  {
    && p.Valid(libs)
    && p.data == BlockBytes(libs.crc, r, blocks)
    && p.dir == DirectoryOf(libs.crc, r, blocks)
  }

  /** Both readers slice exactly the bytes of block i out of the segment. */
  lemma BlockSlices(libs: Libs, r: nat, blocks: Blocks, p: Parts, i: nat)
    requires r >= 1 && Holds(libs, r, blocks, p) && i < |blocks|
    ensures var all, offset, bytes := p.Whole(libs), p.dir[i].value, BlockFormat.Finished(libs.crc, r, blocks[i]);
            && BlockData(Segment(all, p.Meta(libs)), offset) == Ok(bytes)
            && BlockRange(p.Meta(libs), offset) == Some((offset, offset + |bytes|))
            && RangeOf(all, offset, offset + |bytes|) == Ok(bytes)
  {
    hide BlockFormat.Finished, DirectoryOf, BlockBytes, BlockEnd, Layout, FooterFor, OffsetsCheck, ParseFooter,
      Footers.Head, Footers.Encoded;
    RangesTile(libs, r, blocks, i);
    SectionsAt(libs, p);
    FooterParses(libs, p, 0);
    var all, offset, bytes := p.Whole(libs), p.dir[i].value, BlockFormat.Finished(libs.crc, r, blocks[i]);
    AtWithin(all, 0, p.data, offset, offset + |bytes|);
    assert p.data[offset..offset + |bytes|] == bytes;
  }

  // ---------------------------------------------------------------------
  // Point lookup
  // ---------------------------------------------------------------------

  /** The first block whose last key is at or above the key is the only one that
      can hold it. */
  lemma LookupInBlock(blocks: Blocks, i: nat, key: Bytes)
    requires Ascending(Flatten(blocks)) && i < |blocks|
    requires forall j :: 0 <= j < |blocks| ==> blocks[j] != []
    requires forall j :: 0 <= j < i ==> Below(LastKey(blocks[j]), key)
    requires AtMost(key, LastKey(blocks[i]))
    ensures Lookup(Flatten(blocks), key) == Lookup(blocks[i], key)
  {
    hide Flatten, Below, Ascending, Lookup;
    BlockIsAscending(blocks, i);
    var found := Lookup(Flatten(blocks), key);
    if found.Some? {
      LookupIsMembership(Flatten(blocks), key, found.value);
      var e := Pair(key, found.value);
      var j := FlattenFinds(blocks, e);
      KeyIsInBlock(blocks, i, j, e);
      LookupIsMembership(blocks[i], key, found.value);
    } else {
      var inBlock := Lookup(blocks[i], key);
      if inBlock.Some? {
        LookupIsMembership(blocks[i], key, inBlock.value);
        FlattenHolds(blocks, i, Pair(key, inBlock.value));
        LookupIsMembership(Flatten(blocks), key, inBlock.value);
      }
    }
  }

  lemma KeyIsInBlock(blocks: Blocks, i: nat, j: nat, e: Entry)
    requires Ascending(Flatten(blocks)) && i < |blocks| && j < |blocks| && e in blocks[j]
    requires blocks[i] != []
    requires forall k :: 0 <= k < i ==> Below(LastKey(blocks[k]), e.key)
    requires AtMost(e.key, LastKey(blocks[i]))
    ensures j == i
  {
    hide Flatten, Below, Ascending;
    if j < i {
      BlockIsAscending(blocks, j);
      AtMostLastKey(blocks[j], e);
      AtMostBelow(e.key, LastKey(blocks[j]), e.key);
      BelowIsIrreflexive(e.key);
    } else if i < j {
      BlocksAreOrdered(blocks, i, j, Last(blocks[i]), e);
      AtMostBelow(e.key, LastKey(blocks[i]), e.key);
      BelowIsIrreflexive(e.key);
    }
  }

  lemma LookupBeyondBlocks(blocks: Blocks, key: Bytes)
    requires Ascending(Flatten(blocks))
    requires forall j :: 0 <= j < |blocks| ==> Below(LastKey(blocks[j]), key)
    ensures Lookup(Flatten(blocks), key) == None
  {
    hide Flatten, Below, Ascending, Lookup;
    var found := Lookup(Flatten(blocks), key);
    if found.Some? {
      LookupIsMembership(Flatten(blocks), key, found.value);
      var e := Pair(key, found.value);
      var j := FlattenFinds(blocks, e);
      BlockIsAscending(blocks, j);
      AtMostLastKey(blocks[j], e);
      AtMostBelow(key, LastKey(blocks[j]), key);
      BelowIsIrreflexive(key);
    }
  }

  /** Directory then block: the search that both readers make after the filter. */
  lemma DirectorySearch(libs: Libs, r: nat, blocks: Blocks, p: Parts, key: Bytes) returns (i: nat)
    requires r >= 1 && Holds(libs, r, blocks, p) && GoodBlocks(r, blocks)
    requires Ascending(Flatten(blocks)) && BlockFormat.LengthsFit(Flatten(blocks))
    ensures i <= |blocks|
    ensures i == |blocks| ==> BlockForKey(p.dir, key) == None && Lookup(Flatten(blocks), key) == None
    ensures i < |blocks| ==> BlockForKey(p.dir, key) == Some(p.dir[i].value)
    ensures i < |blocks| ==>
              SearchedBlock(libs, BlockFormat.Finished(libs.crc, r, blocks[i]), key) == Ok(Lookup(Flatten(blocks), key))
  {
    hide BlockFormat.Finished, DirectoryOf, BlockBytes, Flatten, Below, BlockForKey, BlockFormat.RestartsFit,
      BlockReaders.Opened, BlockReaders.Found, Ascending, Lookup;
    i := BlockForKeyFinds(p.dir, key);
    forall j | 0 <= j < |blocks|
      ensures p.dir[j].key == LastKey(blocks[j]) && blocks[j] != []
    {
      assert GoodBlock(r, blocks[j]);
      DirectoryAt(libs.crc, r, blocks, j);
    }
    forall j | 0 <= j < i
      ensures Below(LastKey(blocks[j]), key)
    {
      BelowIsTotal(LastKey(blocks[j]), key);
    }
    if i == |blocks| {
      LookupBeyondBlocks(blocks, key);
    } else {
      LookupInBlock(blocks, i, key);
      BlockIsAscending(blocks, i);
      BlockLengthsFit(blocks, i);
      assert GoodBlock(r, blocks[i]);
      BlockLookups.BlockGetIsLookup(libs.crc, libs.debug, r, blocks[i], key);
    }
  }

  lemma BlockLengthsFit(blocks: Blocks, i: nat)
    requires i < |blocks| && BlockFormat.LengthsFit(Flatten(blocks))
    ensures BlockFormat.LengthsFit(blocks[i])
  {
    hide Flatten;
    forall e | e in blocks[i]
      ensures |e.key| < U32_LIMIT && |e.value| < U32_LIMIT
    {
      FlattenHolds(blocks, i, e);
    }
  }

  /** The filter never hides a key that was added. */
  lemma FilterKeepsAddedKeys(libs: Libs, o: Options, es: seq<Entry>, key: Bytes)
    requires libs.Lawful() && Lookup(es, key).Some?
    ensures libs.MightContain(FilterBytes(libs, o, es), key)
  {
    var i := LookupFinds(es, key);
    assert Keys(es)[i] == key;
  }

  /** A segment refines a map. For every writable list, wherever the block
      boundaries fall and with the filter on or off, the written bytes open and
      lookup of any key returns what the list holds for it, nothing for a key that
      was never added. */
  lemma SegmentRefinesMap(libs: Libs, o: Options, es: seq<Entry>, key: Bytes)
    requires libs.Lawful() && Writable(libs, o, es)
    ensures Opened(libs, SegmentOf(libs, o, es)).Ok?
    ensures Got(libs, Opened(libs, SegmentOf(libs, o, es)).value, key) == Ok(Lookup(es, key))
    ensures RemoteGot(libs, SegmentOf(libs, o, es), PartsOf(libs, o, es).Meta(libs), key) == Ok(Lookup(es, key))
  {
    hide BlocksOf, DirectoryOf, BlockBytes, FilterBytes, SegmentOf, Opened, BlockForKey, BlockRange, BlockData,
      SearchedBlock, RangeOf, GoodBlocks, Flatten, Lookup, BlockFormat.Finished;
    var p, r, blocks := PartsOf(libs, o, es), o.Interval(), BlocksOf(o, es);
    PartsAreValid(libs, o, es);
    WholeOpens(libs, p);
    BlocksShape(o, es);
    var i := DirectorySearch(libs, r, blocks, p, key);
    if i < |blocks| {
      BlockSlices(libs, r, blocks, p, i);
    }
    if !libs.MightContain(p.filter, key) && Lookup(es, key).Some? {
      FilterKeepsAddedKeys(libs, o, es, key);
    }
  }

  /** What the opened segment caches: the filter of its keys when it was asked for and
      there are any, the directory of its blocks, the key count. */
  lemma WrittenMetadata(libs: Libs, o: Options, es: seq<Entry>)
    requires libs.Lawful() && Writable(libs, o, es)
    ensures Opened(libs, SegmentOf(libs, o, es)).Ok?
    ensures var meta := Opened(libs, SegmentOf(libs, o, es)).value.meta;
            && meta.filter == (if o.enableBloom && es != [] then libs.filterBuild(Keys(es)) else [])
            && meta.fst == DirectoryOf(libs.crc, o.Interval(), BlocksOf(o, es))
            && meta.footer.keyCount == |es| && meta.footer.dataBlocksOffset == 0
  {
    hide BlocksOf, DirectoryOf, BlockBytes, SegmentOf, Opened, Parts.Whole, Parts.Valid, Ascending, Footers.Head;
    PartsAreValid(libs, o, es);
    WholeOpens(libs, PartsOf(libs, o, es));
  }

  /** What its blocks are: none is above the block size by more than 10 bytes unless it
      holds a single entry, none is closed while the next entry had room, and each has
      one restart for every interval of its entries. */
  lemma WrittenBlocks(libs: Libs, o: Options, es: seq<Entry>, i: nat)
    requires libs.Lawful() && Writable(libs, o, es) && i < |BlocksOf(o, es)|
    ensures Opened(libs, SegmentOf(libs, o, es)).Ok?
    ensures var seg, blocks := Opened(libs, SegmentOf(libs, o, es)).value, BlocksOf(o, es);
            && Flatten(blocks) == es && i < |seg.meta.fst|
            && var data := BlockData(seg, seg.meta.fst[i].value);
            && data.Ok? && ShapedAs(libs, data.value, o.blockSize,
                                    if o.restartInterval == 0 then 1 else o.restartInterval, blocks[i],
                                    if i + 1 < |blocks| then blocks[i + 1] else [])
  {
    hide BlocksOf, DirectoryOf, BlockBytes, SegmentOf, Opened, Flatten, Ascending, BlockFormat.Finished, BlockData,
      BlockFormat.RestartsFit, Greedy;
    var p, r, blocks := PartsOf(libs, o, es), o.Interval(), BlocksOf(o, es);
    PartsAreValid(libs, o, es);
    WholeOpens(libs, p);
    BlocksShape(o, es);
    BlockSlices(libs, r, blocks, p, i);
    BlocksFillUp(libs.crc, o, es, i);
    assert GoodBlock(r, blocks[i]);
    BlockLengthsFit(blocks, i);
    BlockIsShaped(libs, o, blocks[i], if i + 1 < |blocks| then blocks[i + 1] else []);
  }

  /** The bytes of a block that holds these entries, the next block's behind it. */
  ghost predicate ShapedAs(libs: Libs, data: Bytes, blockSize: u32, r: nat, block: seq<Entry>, next: seq<Entry>) {
    && (|block| >= 2 ==> |data| <= blockSize + 10)
    && (next != [] ==> |data| + 5 + |next[0].key| + |next[0].value| > blockSize)
    && var rd := BlockReaders.Opened(libs.crc, libs.debug, data);
    && rd.Ok? && (|rd.value.restarts| - 1) * r < |block| <= |rd.value.restarts| * r
  }

  lemma BlockIsShaped(libs: Libs, o: Options, block: seq<Entry>, next: seq<Entry>)
    requires GoodBlock(o.Interval(), block) && BlockFormat.LengthsFit(block)
    requires var size := |BlockFormat.Finished(libs.crc, o.Interval(), block)|;
             && (|block| >= 2 ==> size <= o.blockSize + 10)
             && (next != [] ==> size + 5 + |next[0].key| + |next[0].value| > o.blockSize)
    ensures ShapedAs(libs, BlockFormat.Finished(libs.crc, o.Interval(), block), o.blockSize,
                     if o.restartInterval == 0 then 1 else o.restartInterval, block, next)
  {
    hide BlockFormat.Finished, BlockFormat.Restarts, BlockFormat.Encoded, BlockReaders.Opened;
    BlockLookups.FinishedBlockOpens(libs.crc, libs.debug, o.Interval(), block);
    BlockFormat.RestartCount(o.Interval(), block);
  }

  // ---------------------------------------------------------------------
  // Scanning
  // ---------------------------------------------------------------------

  lemma {:induction false} BlocksList(libs: Libs, r: nat, blocks: Blocks, p: Parts, n: nat)
    requires r >= 1 && Holds(libs, r, blocks, p) && GoodBlocks(r, blocks) && n <= |blocks|
    requires BlockFormat.LengthsFit(Flatten(blocks))
    ensures ListedBlocks(libs, Segment(p.Whole(libs), p.Meta(libs)), p.dir[..n]) == Ok(Flatten(blocks[..n]))
  {
    hide BlockFormat.Finished, DirectoryOf, BlockBytes, BlockData, BlockRange, RangeOf, Layout, FooterFor,
      BlockReaders.Opened, BlockReaders.EntriesFrom, BlockFormat.RestartsFit;
    if n > 0 {
      var dir, upto := p.dir[..n], blocks[..n];
      assert Front(dir) == p.dir[..n - 1] && Last(dir) == p.dir[n - 1];
      assert Front(upto) == blocks[..n - 1] && Last(upto) == blocks[n - 1];
      BlocksList(libs, r, blocks, p, n - 1);
      BlockSlices(libs, r, blocks, p, n - 1);
      BlockLengthsFit(blocks, n - 1);
      assert GoodBlock(r, blocks[n - 1]);
      BlockLookups.IterationIsLossless(libs.crc, libs.debug, r, blocks[n - 1]);
    }
  }

  /** Scanning a written segment returns exactly the added entries, in order. */
  lemma ScanRoundTrip(libs: Libs, o: Options, es: seq<Entry>)
    requires libs.Lawful() && Writable(libs, o, es)
    ensures Opened(libs, SegmentOf(libs, o, es)).Ok?
    ensures Listed(libs, Opened(libs, SegmentOf(libs, o, es)).value) == Ok(es)
  {
    hide BlocksOf, DirectoryOf, BlockBytes, FilterBytes, SegmentOf, Opened, ListedBlocks, GoodBlocks, Flatten;
    var p, r, blocks := PartsOf(libs, o, es), o.Interval(), BlocksOf(o, es);
    PartsAreValid(libs, o, es);
    WholeOpens(libs, p);
    BlocksShape(o, es);
    BlocksList(libs, r, blocks, p, |blocks|);
    assert p.dir[..|blocks|] == p.dir && blocks[..|blocks|] == blocks;
  }

  // ---------------------------------------------------------------------
  // Remote and in-memory reading agree
  // ---------------------------------------------------------------------

  /** For every written segment and tail budget, remote open succeeds exactly when
      the budget covers the footer, and then reads the same metadata as the
      in-memory open in at most two tail reads; lookups through it agree with the
      in-memory reader on every key. */
  lemma RemoteAgreesWithInMemory(libs: Libs, o: Options, es: seq<Entry>, budget: nat, key: Bytes)
    requires libs.Lawful() && Writable(libs, o, es)
    ensures var data := SegmentOf(libs, o, es);
            var opening := RemoteOpened(libs, data, budget);
            && Opened(libs, data).Ok?
            && (opening.outcome.Ok? <==> budget >= Footers.FOOTER_SIZE)
            && opening.tailReads <= 2
            && (opening.outcome.Ok? ==>
                  && opening.outcome.value == Opened(libs, data).value.meta
                  && RemoteGot(libs, data, opening.outcome.value, key) == Got(libs, Opened(libs, data).value, key))
  {
    hide BlocksOf, DirectoryOf, BlockBytes, FilterBytes, SegmentOf, Opened, RemoteOpened, RemoteGot, Got;
    var p := PartsOf(libs, o, es);
    PartsAreValid(libs, o, es);
    WholeOpens(libs, p);
    RemoteOpenAgrees(libs, p, budget);
    SegmentRefinesMap(libs, o, es, key);
  }

  /** An open that names no budget: it always succeeds, and in one tail read exactly
      when filter, directory and footer take at most 256 KiB. */
  lemma DefaultBudgetOpens(libs: Libs, o: Options, es: seq<Entry>)
    requires libs.Lawful() && Writable(libs, o, es)
    ensures var data, p := SegmentOf(libs, o, es), PartsOf(libs, o, es);
            var opening := RemoteOpened(libs, data, DEFAULT_TAIL_READ_BUDGET);
            && Opened(libs, data).Ok? && opening.outcome == Ok(Opened(libs, data).value.meta)
            && opening.tailReads ==
               if |p.filter| + |p.FstOf(libs)| + Footers.FOOTER_SIZE <= 0x4_0000 then 1 else 2
  {
    hide BlocksOf, DirectoryOf, BlockBytes, FilterBytes, SegmentOf, Opened, RemoteOpened;
    var p := PartsOf(libs, o, es);
    PartsAreValid(libs, o, es);
    WholeOpens(libs, p);
    SectionsAt(libs, p);
    RemoteOpenAgrees(libs, p, DEFAULT_TAIL_READ_BUDGET);
  }

  /** When a lookup through the written segment's metadata needs a request: exactly when
      the filter passes the key and the key is at or below the highest one added. */
  lemma RequestIff(libs: Libs, o: Options, es: seq<Entry>, key: Bytes)
    requires libs.Lawful() && Writable(libs, o, es)
    ensures Opened(libs, SegmentOf(libs, o, es)).Ok?
    ensures var meta := Opened(libs, SegmentOf(libs, o, es)).value.meta;
            Requests(libs, meta, key) <==>
            libs.MightContain(meta.filter, key) && es != [] && AtMost(key, Last(es).key)
  {
    hide BlocksOf, DirectoryOf, BlockBytes, FilterBytes, SegmentOf, Opened, BlockForKey, GoodBlocks, Flatten, AtMost,
      BlockFormat.Finished, BlockData, BlockEnd, Parts.Valid, Parts.Whole, Footers.Head, Ascending;
    var p, r, blocks := PartsOf(libs, o, es), o.Interval(), BlocksOf(o, es);
    PartsAreValid(libs, o, es);
    WholeOpens(libs, p);
    BlocksShape(o, es);
    var i := BlockForKeyFinds(p.dir, key);
    if i < |blocks| {
      BlockSlices(libs, r, blocks, p, i);
    }
    LastKeyCovers(libs, o, es, key, i);
  }

  lemma LastKeyCovers(libs: Libs, o: Options, es: seq<Entry>, key: Bytes, i: nat)
    requires Ascending(es)
    requires var d := DirectoryOf(libs.crc, o.Interval(), BlocksOf(o, es));
             && i <= |d| && (forall j :: 0 <= j < i ==> !AtMost(key, d[j].key)) && (i < |d| ==> AtMost(key, d[i].key))
    ensures i < |BlocksOf(o, es)| <==> es != [] && AtMost(key, Last(es).key)
  {
    hide BlocksOf, DirectoryOf, BlockBytes, BlockFormat.Finished, BlockFormat.RestartsFit, Below;
    var r, blocks := o.Interval(), BlocksOf(o, es);
    BlocksShape(o, es);
    if blocks != [] {
      var n := |blocks| - 1;
      assert GoodBlock(r, blocks[n]);
      DirectoryAt(libs.crc, r, blocks, n);
      if i < n {
        assert GoodBlock(r, blocks[i]);
        DirectoryAt(libs.crc, r, blocks, i);
        BlocksAreOrdered(blocks, i, n, Last(blocks[i]), Last(blocks[n]));
        AtMostBelow(key, LastKey(blocks[i]), LastKey(blocks[n]));
      }
    }
  }

  /** With the filter on, a key it rejects is answered without looking into a block. */
  lemma RejectedKeyIsAbsent(libs: Libs, o: Options, es: seq<Entry>, key: Bytes)
    requires libs.Lawful() && Writable(libs, o, es) && o.enableBloom && es != []
    requires libs.filterBuild(Keys(es)) != [] && !libs.filterTest(libs.filterBuild(Keys(es)), key)
    ensures var data := SegmentOf(libs, o, es);
            && Opened(libs, data).Ok?
            && !libs.MightContain(Opened(libs, data).value.meta.filter, key)
            && Got(libs, Opened(libs, data).value, key) == Ok(None) && Lookup(es, key) == None
  {
    hide SegmentOf, Opened, BlocksOf, DirectoryOf, Lookup;
    WrittenMetadata(libs, o, es);
    SegmentRefinesMap(libs, o, es, key);
  }

  /** The metadata made up for a zero-byte object is that of a segment written without
      keys, but for the checksum. */
  lemma EmptyMetadataIsEmptySegment(libs: Libs, o: Options)
    requires libs.Lawful() && Writable(libs, o, [])
    ensures Opened(libs, SegmentOf(libs, o, [])).Ok?
    ensures var meta := Opened(libs, SegmentOf(libs, o, [])).value.meta;
            EmptyMetadata(libs) == meta.(footer := meta.footer.(checksum := 0))
  {
    hide SegmentOf, Opened, Parts.Whole, Parts.Valid, Ascending, Footers.Head;
    var p := PartsOf(libs, o, []);
    PartsAreValid(libs, o, []);
    WholeOpens(libs, p);
  }

  /** A zero-byte object is a segment without keys: it opens without a request and
      every lookup finds nothing. */
  lemma ZeroByteObjectIsEmpty(libs: Libs, budget: nat, key: Bytes)
    ensures RemoteOpened(libs, [], budget) == Opening(Ok(EmptyMetadata(libs)), 0)
    ensures RemoteGot(libs, [], EmptyMetadata(libs), key) == Ok(None)
  {
  }
}
