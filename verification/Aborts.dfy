/** Exactly when the readers stop on foreign bytes instead of returning an error,
    with bytes that make them. */
module Aborts {
  import opened ByteStrings
  import opened Results
  import opened BlockReaders
  import opened Entries
  import opened Libraries
  import BlockFormat
  import BlockLookups
  import Footers
  import SegmentReaders
  import Segments
  import Varint

  // ---------------------------------------------------------------------
  // Blocks
  // ---------------------------------------------------------------------

  lemma {:induction false} VarintNeverAborts(data: Bytes, i: nat, acc: u32)
    requires i <= |data| && i <= 5 && acc < Varint.Weight(i)
    ensures Varint.DecodedFrom(data, i, acc) != Err(Panicked)
    decreases |data| - i
  {
    hide Varint.Weight, Varint.Accumulated;
    if i < |data| && i < 5 && data[i] >= 128 {
      VarintNeverAborts(data, i + 1, Varint.Accumulated(acc, data[i], i));
    }
  }

  lemma HeaderNeverAborts(data: Bytes, pos: nat)
    requires pos <= |data|
    ensures HeaderAt(data, pos).outcome != Err(Panicked)
  {
    hide Varint.DecodedFrom;
    forall p | 0 <= p <= |data|
      ensures Varint.Decoded(data[p..]) != Err(Panicked)
    {
      VarintNeverAborts(data[p..], 0, 0);
    }
  }

  /** Reading an entry aborts only from a position beyond the data. */
  lemma StepAbortsIff(rd: Reader, pos: nat, key: Bytes)
    requires rd.WellFormed()
    ensures StepAt(rd, pos, key).outcome == Err(Panicked) <==> pos > |rd.data|
  {
    hide HeaderAt;
    if pos <= |rd.data| {
      HeaderNeverAborts(rd.data, pos);
    }
  }

  /** The trailer's checksum is right and it counts more restarts than fit before it. */
  ghost predicate Overcounts(crc: BlockFormat.Checksum, data: Bytes) {
    && |data| >= 8 && U32At(data, |data| - 4) == crc(data[..|data| - 4])
    && 8 + 4 * U32At(data, |data| - 8) > |data|
  }

  /** Opening a block aborts exactly then. */
  lemma BlockOpenAbortsIff(crc: BlockFormat.Checksum, debug: bool, data: Bytes)
    ensures BlockReaders.Opened(crc, debug, data) == Err(Panicked) <==> Overcounts(crc, data)
  {
    hide FromLE, U32Array;
  }

  /** Iteration never aborts, whatever the opened block holds. */
  lemma {:induction false} IterationNeverAborts(rd: Reader, pos: nat, key: Bytes)
    requires rd.WellFormed()
    ensures EntriesFrom(rd, pos, key) != Err(Panicked)
    decreases rd.entriesEnd - pos
  {
    hide StepAt;
    if pos < rd.entriesEnd {
      StepAbortsIff(rd, pos, key);
      var s := StepAt(rd, pos, key);
      if s.outcome.Ok? {
        IterationNeverAborts(rd, s.pos, s.key);
      }
    }
  }

  /** Reading a restart key aborts exactly when the debug assertion fails there. */
  lemma KeyAbortsIff(rd: Reader, i: nat)
    requires rd.WellFormed() && i < |rd.restarts|
    ensures KeyAtRestart(rd, i) == Err(Panicked) <==> Trips(rd, i)
    ensures KeyAtRestart(rd, i).Ok? ==> rd.restarts[i] < rd.entriesEnd
  {
    hide HeaderAt, Trips;
    if rd.restarts[i] < rd.entriesEnd {
      HeaderNeverAborts(rd.data, rd.restarts[i]);
    }
    assert Trips(rd, i) ==> rd.restarts[i] < rd.entriesEnd by { TripsAtReadable(rd, i); }
  }

  lemma TripsAtReadable(rd: Reader, i: nat)
    requires rd.WellFormed() && i < |rd.restarts|
    ensures Trips(rd, i) ==> rd.debug && rd.restarts[i] < rd.entriesEnd
  {
  }

  /** The search between lo and hi reads the key of restart i. */
  ghost predicate Visits(rd: Reader, target: Bytes, lo: nat, hi: nat, i: nat)
    requires rd.WellFormed() && lo <= hi <= |rd.restarts|
    decreases hi - lo
  {
    && lo < hi
    && var mid := lo + (hi - lo) / 2;
       var key := KeyAtRestart(rd, mid);
       || i == mid
       || (key.Ok? && Compare(key.value, target) == Less && Visits(rd, target, mid + 1, hi, i))
       || (key.Ok? && Compare(key.value, target) == Greater && Visits(rd, target, lo, mid, i))
  }

  /** The search meets a restart whose debug assertion fails. */
  ghost predicate SearchTrips(rd: Reader, target: Bytes, lo: nat, hi: nat)
    requires rd.WellFormed() && lo <= hi <= |rd.restarts|
  {
    exists i: nat :: i < |rd.restarts| && Visits(rd, target, lo, hi, i) && Trips(rd, i)
  }

  /** The search aborts exactly then, and a restart it picks is one whose key it read. */
  lemma {:induction false} SearchAbortsIff(rd: Reader, target: Bytes, lo: nat, hi: nat)
    requires rd.WellFormed() && lo <= hi <= |rd.restarts|
    ensures RestartSearch(rd, target, lo, hi) == Err(Panicked) <==> SearchTrips(rd, target, lo, hi)
    decreases hi - lo
  {
    hide KeyAtRestart, Compare, Trips;
    if lo < hi {
      var mid := lo + (hi - lo) / 2;
      KeyAbortsIff(rd, mid);
      var key := KeyAtRestart(rd, mid);
      assert Visits(rd, target, lo, hi, mid);
      if key.Ok? {
        match Compare(key.value, target) {
          case Less => SearchAbortsIff(rd, target, mid + 1, hi);
          case Equal =>
          case Greater => SearchAbortsIff(rd, target, lo, mid);
        }
      }
    }
  }

  lemma {:induction false} SearchPicksReadKey(rd: Reader, target: Bytes, lo: nat, hi: nat)
    requires rd.WellFormed() && lo <= hi <= |rd.restarts| && rd.restarts != []
    requires lo == 0 || KeyAtRestart(rd, lo - 1).Ok?
    requires hi == |rd.restarts| || KeyAtRestart(rd, hi).Ok?
    ensures var found := RestartSearch(rd, target, lo, hi);
            found.Ok? ==> found.value < |rd.restarts| && KeyAtRestart(rd, found.value).Ok?
    decreases hi - lo
  {
    hide KeyAtRestart, Compare;
    if lo < hi {
      var mid := lo + (hi - lo) / 2;
      var key := KeyAtRestart(rd, mid);
      if key.Ok? {
        match Compare(key.value, target) {
          case Less => SearchPicksReadKey(rd, target, mid + 1, hi);
          case Equal =>
          case Greater => SearchPicksReadKey(rd, target, lo, mid);
        }
      }
    }
  }

  lemma {:induction false} ScanNeverAborts(rd: Reader, end: nat, pos: nat, key: Bytes, target: Bytes)
    requires rd.WellFormed() && pos <= |rd.data|
    ensures Scan(rd, end, pos, key, target) != Err(Panicked)
    decreases end - pos
  {
    hide StepAt, Compare;
    if pos < end {
      StepAbortsIff(rd, pos, key);
      var s := StepAt(rd, pos, key);
      if s.outcome.Ok? {
        ScanNeverAborts(rd, end, s.pos, s.key, target);
      }
    }
  }

  /** A block has no restarts, or the search for the target meets one whose debug
      assertion fails. */
  ghost predicate LookupStops(rd: Reader, target: Bytes)
    requires rd.WellFormed()
  {
    rd.restarts == [] || SearchTrips(rd, target, 0, |rd.restarts|)
  }

  /** A lookup in an opened block aborts exactly then. */
  lemma LookupAbortsIff(rd: Reader, target: Bytes)
    requires rd.WellFormed()
    ensures Found(rd, target) == Err(Panicked) <==> LookupStops(rd, target)
  {
    hide Scan, KeyAtRestart, Compare, SearchTrips;
    SearchAbortsIff(rd, target, 0, |rd.restarts|);
    if rd.restarts != [] {
      SearchPicksReadKey(rd, target, 0, |rd.restarts|);
      var found := RestartSearch(rd, target, 0, |rd.restarts|);
      if found.Ok? {
        KeyAbortsIff(rd, found.value);
        ScanNeverAborts(rd, IntervalEnd(rd, found.value), rd.restarts[found.value], [], target);
      }
    }
  }

  /** Without debug assertions, or where no restart entry reads as sharing anything,
      a block with a restart never aborts a lookup. */
  lemma SoundRestartsNeverAbort(rd: Reader, target: Bytes)
    requires rd.WellFormed() && rd.restarts != []
    requires rd.debug ==> forall i :: 0 <= i < |rd.restarts| ==> !Trips(rd, i)
    ensures Found(rd, target) != Err(Panicked)
  {
    hide Found, Trips;
    LookupAbortsIff(rd, target);
    forall i | 0 <= i < |rd.restarts|
      ensures !Trips(rd, i)
    {
      TripsAtReadable(rd, i);
    }
  }

  /** The middle restart is on every search's way: when its assertion fails, every
      lookup aborts. */
  lemma MiddleRestartStopsAll(rd: Reader, target: Bytes)
    requires rd.WellFormed() && rd.restarts != [] && Trips(rd, |rd.restarts| / 2)
    ensures Found(rd, target) == Err(Panicked)
  {
    hide Found, Trips, KeyAtRestart, Compare;
    LookupAbortsIff(rd, target);
    assert Visits(rd, target, 0, |rd.restarts|, |rd.restarts| / 2);
  }

  /** The eight bytes of a block that is nothing but a restart count. */
  function CountOnly(crc: BlockFormat.Checksum, count: u32): Bytes {
    ToLE(count, 4) + ToLE(crc(ToLE(count, 4)), 4)
  }

  /** Such a block aborts its open when it counts restarts, and every lookup when it
      counts none. */
  lemma BlocksCanAbort(crc: BlockFormat.Checksum, debug: bool, count: u32, target: Bytes)
    ensures count > 0 ==> BlockReaders.Opened(crc, debug, CountOnly(crc, count)) == Err(Panicked)
    ensures count == 0 ==>
              && BlockReaders.Opened(crc, debug, CountOnly(crc, count)).Ok?
              && Found(BlockReaders.Opened(crc, debug, CountOnly(crc, count)).value, target) == Err(Panicked)
  {
    hide ToLE, FromLE;
    var data, field := CountOnly(crc, count), ToLE(count, 4);
    WholeIsAt(data);
    AtSplits(data, 0, field, ToLE(crc(field), 4));
    assert data[..4] == field;
    U32RoundTrip(count);
    U32RoundTrip(crc(field));
    if count == 0 {
      LookupAbortsIff(BlockReaders.Opened(crc, debug, data).value, target);
    }
  }

  /** A block of one entry, the key "a" behind a shared length of 1, and one restart. */
  function SharingBody(): Bytes {
    [1, 1, 0, 0x61] + ToLE(0, 4) + ToLE(1, 4)
  }

  lemma SharingBlockOpens(crc: BlockFormat.Checksum, debug: bool, data: Bytes)
    requires data == SharingBody() + ToLE(crc(SharingBody()), 4)
    ensures BlockReaders.Opened(crc, debug, data) == Ok(Reader(data, [0], 4, debug))
    ensures At(data, 0, [1, 1, 0, 0x61])
  {
    hide ToLE, FromLE, U32Array;
    var entry: Bytes, body := [1, 1, 0, 0x61], SharingBody();
    WholeIsAt(data);
    AtSplits(data, 0, body, ToLE(crc(body), 4));
    AtSplits(data, 0, entry + ToLE(0, 4), ToLE(1, 4));
    AtSplits(data, 0, entry, ToLE(0, 4));
    U32RoundTrip(0);
    U32RoundTrip(1);
    U32RoundTrip(crc(body));
    OneRestart(data, 4);
  }

  lemma OneRestart(data: Bytes, start: nat)
    requires start + 4 <= |data|
    ensures U32Array(data, start, 1) == [U32At(data, start)]
  {
    hide FromLE;
    assert U32Array(data, start, 0) == [];
  }

  lemma SharingHeader(data: Bytes)
    requires At(data, 0, [1, 1, 0, 0x61])
    ensures HeaderAt(data, 0) == HeaderRead(Ok(Header(1, 1, 0)), 3)
    ensures data[3..4] == [0x61] && data[4..4] == []
  {
    hide HeaderAt, Varint.Decoded;
    assert Varint.Encoded(1) == [1] && Varint.Encoded(0) == [0];
    AtSplits(data, 0, [1] + [1] + [0], [0x61]);
    BlockLookups.HeaderReadsBack(data, 0, 1, 1, 0);
  }

  /** Its checksum is right and it opens; with debug assertions every lookup aborts,
      without them the entry is found. */
  lemma SharingRestartAborts(crc: BlockFormat.Checksum, debug: bool, target: Bytes)
    ensures var opening := BlockReaders.Opened(crc, debug, SharingBody() + ToLE(crc(SharingBody()), 4));
            && opening.Ok?
            && (debug ==> Found(opening.value, target) == Err(Panicked))
            && (!debug ==> Found(opening.value, [0x61]) == Ok(Some([])))
  {
    hide SharingBody, BlockReaders.Opened, ToLE, HeaderAt, Varint.Decoded;
    var data := SharingBody() + ToLE(crc(SharingBody()), 4);
    SharingBlockOpens(crc, debug, data);
    SharingHeader(data);
    BlockLookups.SharedReadsFirst(data, 0);
    var rd := Reader(data, [0], 4, debug);
    if debug {
      MiddleRestartStopsAll(rd, target);
    } else {
      assert KeyAtRestart(rd, 0) == Ok([0x61]);
      assert RestartSearch(rd, [0x61], 0, 1) == Ok(0);
      assert Truncated([], 1) + data[3..4] == [0x61];
      assert StepAt(rd, 0, []).outcome == Ok(Pair([0x61], []));
    }
  }

  // ---------------------------------------------------------------------
  // Segments
  // ---------------------------------------------------------------------

  /** The offset checks make every slice of an in-memory open safe but one: a
      directory of length 0 is not checked, and the open aborts exactly when one
      starts beyond the data. */
  lemma OpenAbortsIff(libs: Libs, data: Bytes)
    ensures SegmentReaders.Opened(libs, data) == Err(SegmentReaders.Aborted) <==>
            var footer := SegmentReaders.ParseFooter(libs, data);
            && footer.Ok? && SegmentReaders.OffsetsCheck(footer.value, |data| - Footers.FOOTER_SIZE).Ok?
            && footer.value.fstLength == 0 && footer.value.fstOffset > |data|
  {
    hide Footers.Decoded;
  }

  /** A tail open aborts exactly when the stated size is below the footer's or the
      tail's, or when the tail reaches back to the filter but not to the directory. */
  lemma TailOpenAbortsIff(libs: Libs, tail: Bytes, size: nat)
    ensures SegmentReaders.OpenedFromTail(libs, tail, size) == Err(SegmentReaders.Aborted) <==>
            var footer := SegmentReaders.ParseFooter(libs, tail);
            && footer.Ok?
            && (|| size < Footers.FOOTER_SIZE
                || (&& SegmentReaders.OffsetsCheck(footer.value, size - Footers.FOOTER_SIZE).Ok?
                    && (size < |tail| || footer.value.fstOffset < size - |tail| <= footer.value.bloomOffset)))
  {
    hide Footers.Decoded;
  }

  /** A footer of empty sections that lie where it says. */
  function Hollow(bloomOffset: u64, fstOffset: u64): Footers.Footer {
    Footers.Footer(Footers.FORMAT_VERSION, 0, 0, bloomOffset, 0, fstOffset, 0, 0, 0)
  }

  /** Both aborts are reached by 64 bytes with a correct checksum: a footer whose
      empty directory starts beyond them, and one whose empty filter starts behind
      its empty directory. */
  lemma OpensCanAbort(libs: Libs, fstOffset: u64, size: nat)
    requires fstOffset > Footers.FOOTER_SIZE && Footers.FOOTER_SIZE < size < U64_LIMIT
    ensures SegmentReaders.Opened(libs, Footers.Encoded(libs.crc, Hollow(0, fstOffset))) ==
            Err(SegmentReaders.Aborted)
    ensures SegmentReaders.OpenedFromTail(libs, Footers.Encoded(libs.crc, Hollow(size, 0)), size) ==
            Err(SegmentReaders.Aborted)
  {
    hide Footers.Decoded, Footers.Encoded, Footers.Head, SegmentReaders.Opened, SegmentReaders.OpenedFromTail;
    var whole, tail := Footers.Encoded(libs.crc, Hollow(0, fstOffset)), Footers.Encoded(libs.crc, Hollow(size, 0));
    assert whole[0..] == whole && tail[0..] == tail;
    Footers.RoundTrip(libs.crc, Hollow(0, fstOffset));
    Footers.RoundTrip(libs.crc, Hollow(size, 0));
    OpenAbortsIff(libs, whole);
    TailOpenAbortsIff(libs, tail, size);
  }

  /** The program stopped instead of returning. */
  predicate Stopped<T(!new)>(r: Result<T, SegmentReaders.ReaderError>) {
    r == Err(SegmentReaders.Aborted) || r == Err(SegmentReaders.Block(Panicked))
  }

  /** The directory ends the block before its start, or beyond the data. */
  predicate SliceStops(seg: SegmentReaders.Segment, offset: nat) {
    var dataEnd := seg.meta.footer.dataBlocksLength;
    && offset < dataEnd
    && var end := SegmentReaders.BlockEnd(seg.meta.fst, offset, dataEnd);
       end < offset || end > |seg.data|
  }

  lemma BlockSliceAbortsIff(seg: SegmentReaders.Segment, offset: nat)
    ensures SegmentReaders.BlockData(seg, offset) == Err(SegmentReaders.Aborted) <==> SliceStops(seg, offset)
  {
    hide SegmentReaders.BlockEnd;
  }

  /** A lookup in a block's bytes stops while opening them or while searching. */
  ghost predicate SearchStops(libs: Libs, data: Bytes, key: Bytes) {
    || Overcounts(libs.crc, data)
    || (var rd := BlockReaders.Opened(libs.crc, libs.debug, data); rd.Ok? && LookupStops(rd.value, key))
  }

  lemma SearchedBlockStopsIff(libs: Libs, data: Bytes, key: Bytes)
    ensures Stopped(SegmentReaders.SearchedBlock(libs, data, key)) <==> SearchStops(libs, data, key)
  {
    hide BlockReaders.Opened, Found, LookupStops, Overcounts;
    BlockOpenAbortsIff(libs.crc, libs.debug, data);
    var rd := BlockReaders.Opened(libs.crc, libs.debug, data);
    if rd.Ok? {
      LookupAbortsIff(rd.value, key);
    }
  }

  /** An in-memory lookup stops exactly when the filter passes the key, the directory
      names a block for it, and slicing, opening or searching that block stops. */
  lemma GetStopsIff(libs: Libs, seg: SegmentReaders.Segment, key: Bytes)
    ensures Stopped(SegmentReaders.Got(libs, seg, key)) <==>
            var offset := SegmentReaders.BlockForKey(seg.meta.fst, key);
            && libs.MightContain(seg.meta.filter, key) && offset.Some?
            && (|| SliceStops(seg, offset.value)
                || (var data := SegmentReaders.BlockData(seg, offset.value);
                    data.Ok? && SearchStops(libs, data.value, key)))
  {
    hide SegmentReaders.BlockForKey, SegmentReaders.SearchedBlock, SegmentReaders.BlockEnd, SearchStops;
    var offset := SegmentReaders.BlockForKey(seg.meta.fst, key);
    if offset.Some? {
      BlockSliceAbortsIff(seg, offset.value);
      var data := SegmentReaders.BlockData(seg, offset.value);
      if data.Ok? {
        SearchedBlockStopsIff(libs, data.value, key);
      }
    }
  }

  /** A remote lookup stops in the same cases but one: a block that ends beyond the
      object is an error of the store, and one that ends before its start aborts the
      computation of the range's length. */
  lemma RemoteGetStopsIff(libs: Libs, stored: Bytes, meta: SegmentReaders.Metadata, key: Bytes)
    ensures Stopped(SegmentReaders.RemoteGot(libs, stored, meta, key)) <==>
            var offset := SegmentReaders.BlockForKey(meta.fst, key);
            && libs.MightContain(meta.filter, key) && offset.Some?
            && var range := SegmentReaders.BlockRange(meta, offset.value);
            && range.Some?
            && (|| range.value.1 < range.value.0
                || (range.value.1 <= |stored| && SearchStops(libs, stored[range.value.0..range.value.1], key)))
  {
    hide SegmentReaders.BlockForKey, SegmentReaders.SearchedBlock, SegmentReaders.BlockEnd, SearchStops;
    var offset := SegmentReaders.BlockForKey(meta.fst, key);
    if offset.Some? {
      var range := SegmentReaders.BlockRange(meta, offset.value);
      if range.Some? && range.value.0 <= range.value.1 <= |stored| {
        SearchedBlockStopsIff(libs, stored[range.value.0..range.value.1], key);
      }
    }
  }

  /** Listing one block stops while slicing or opening it. */
  ghost predicate ListingStops(libs: Libs, seg: SegmentReaders.Segment, offset: nat) {
    || SliceStops(seg, offset)
    || (var data := SegmentReaders.BlockData(seg, offset); data.Ok? && Overcounts(libs.crc, data.value))
  }

  lemma ListedBlockStopsIff(libs: Libs, data: Bytes)
    ensures Stopped(SegmentReaders.ListedBlock(libs, data)) <==> Overcounts(libs.crc, data)
  {
    hide BlockReaders.Opened, EntriesFrom, Overcounts;
    BlockOpenAbortsIff(libs.crc, libs.debug, data);
    var rd := BlockReaders.Opened(libs.crc, libs.debug, data);
    if rd.Ok? {
      IterationNeverAborts(rd.value, 0, []);
    }
  }

  /** Block n is the first the scan does not get through, and it stops there. */
  ghost predicate StopsAt(libs: Libs, seg: SegmentReaders.Segment, d: Directory, n: nat) {
    n < |d| && SegmentReaders.ListedBlocks(libs, seg, d[..n]).Ok? && ListingStops(libs, seg, d[n].value)
  }

  /** A scan stops exactly when, after blocks that list without an error, it meets one
      whose slicing or opening stops. */
  lemma {:induction false} ScanStopsIff(libs: Libs, seg: SegmentReaders.Segment, d: Directory)
    ensures Stopped(SegmentReaders.ListedBlocks(libs, seg, d)) <==> exists n: nat :: StopsAt(libs, seg, d, n)
    decreases |d|
  {
    hide SegmentReaders.BlockData, SegmentReaders.ListedBlock, ListingStops;
    if d != [] {
      var init := Front(d);
      ScanStopsIff(libs, seg, init);
      assert d[..|init|] == init;
      forall n: nat | n < |init|
        ensures StopsAt(libs, seg, init, n) <==> StopsAt(libs, seg, d, n)
      {
        assert init[..n] == d[..n];
      }
      if SegmentReaders.ListedBlocks(libs, seg, init).Ok? {
        LastBlockStopsIff(libs, seg, d);
        assert StopsAt(libs, seg, d, |init|) <==> ListingStops(libs, seg, Last(d).value);
      }
    }
  }

  lemma LastBlockStopsIff(libs: Libs, seg: SegmentReaders.Segment, d: Directory)
    requires d != [] && SegmentReaders.ListedBlocks(libs, seg, Front(d)).Ok?
    ensures Stopped(SegmentReaders.ListedBlocks(libs, seg, d)) <==> ListingStops(libs, seg, Last(d).value)
  {
    hide SegmentReaders.BlockEnd, SegmentReaders.ListedBlock, Overcounts;
    var data := SegmentReaders.BlockData(seg, Last(d).value);
    BlockSliceAbortsIff(seg, Last(d).value);
    if data.Ok? {
      ListedBlockStopsIff(libs, data.value);
    }
  }

  // ---------------------------------------------------------------------
  // Directories that cannot make a slice abort
  // ---------------------------------------------------------------------

  /** Offsets rise strictly, inside a data section that lies inside the data. */
  ghost predicate OffsetsRiseWithin(d: Directory, dataEnd: nat) {
    && (forall i :: 0 <= i < |d| ==> d[i].value < dataEnd)
    && (forall i, j :: 0 <= i < j < |d| ==> d[i].value < d[j].value)
  }

  lemma {:induction false} RisingBlockEnds(d: Directory, offset: nat, dataEnd: nat)
    requires OffsetsRiseWithin(d, dataEnd) && offset < dataEnd
    ensures offset < SegmentReaders.BlockEnd(d, offset, dataEnd) <= dataEnd
    decreases |d|
  {
    if d != [] && d[0].value != offset {
      RisingBlockEnds(d[1..], offset, dataEnd);
    }
  }

  /** Such a directory, as every written segment has, never aborts a slice, whatever
      offset is asked for. */
  lemma RisingOffsetsNeverAbort(seg: SegmentReaders.Segment, offset: nat)
    requires seg.meta.footer.dataBlocksLength <= |seg.data|
    requires OffsetsRiseWithin(seg.meta.fst, seg.meta.footer.dataBlocksLength)
    ensures SegmentReaders.BlockData(seg, offset) != Err(SegmentReaders.Aborted)
  {
    hide SegmentReaders.BlockEnd, OffsetsRiseWithin;
    if offset < seg.meta.footer.dataBlocksLength {
      RisingBlockEnds(seg.meta.fst, offset, seg.meta.footer.dataBlocksLength);
    }
  }

  /** A segment that opens and then aborts a lookup, in memory and remote: its
      checksums are correct, its directory keys rise, and its offsets fall. */
  lemma LookupsCanAbort(libs: Libs, data: Bytes)
    requires libs.Lawful() && |data| >= 2
    requires var p := Segments.Parts(data, [], [Pair([0], 1), Pair([1], 0)], 0);
             |p.Whole(libs)| < U64_LIMIT
    ensures var p := Segments.Parts(data, [], [Pair([0], 1), Pair([1], 0)], 0);
            && SegmentReaders.Opened(libs, p.Whole(libs)) == Ok(SegmentReaders.Segment(p.Whole(libs), p.Meta(libs)))
            && SegmentReaders.Got(libs, SegmentReaders.Segment(p.Whole(libs), p.Meta(libs)), [0]) ==
               Err(SegmentReaders.Aborted)
            && SegmentReaders.RemoteGot(libs, p.Whole(libs), p.Meta(libs), [0]) == Err(SegmentReaders.Aborted)
  {
    hide SegmentReaders.Opened, SegmentReaders.SearchedBlock, Segments.Parts.Whole, Segments.Parts.Footer;
    var d: Directory := [Pair([0], 1), Pair([1], 0)];
    var p := Segments.Parts(data, [], d, 0);
    assert Below([0], [1]) && Ascending(d) && OffsetsFit(d);
    Segments.WholeOpens(libs, p);
    Segments.SectionsAt(libs, p);
    Segments.FooterParses(libs, p, 0);
    assert SegmentReaders.BlockForKey(d, [0]) == Some(1);
    assert SegmentReaders.BlockEnd(d, 1, |data|) == 0;
  }
}
