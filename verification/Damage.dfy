/** What the readers return on any bytes, damaged or foreign: which are refused, and
    what holds of the values they do return. When they stop instead is in Aborts. */
module Damage {
  import opened ByteStrings
  import opened Results
  import opened Entries
  import opened Libraries
  import opened BlockReaders
  import BlockFormat
  import BlockLookups
  import Footers
  import SegmentReaders
  import Varint

  // ---------------------------------------------------------------------
  // Blocks
  // ---------------------------------------------------------------------

  /** Fewer than eight bytes are too small, and more are refused for their checksum
      exactly when the last four are not that of the rest. */
  lemma OpenRefusesIff(crc: BlockFormat.Checksum, debug: bool, data: Bytes)
    ensures Opened(crc, debug, data) == Err(BlockTooSmall) <==> |data| < 8
    ensures Opened(crc, debug, data) == Err(ChecksumMismatch) <==>
            |data| >= 8 && data[|data| - 4..] != ToLE(crc(data[..|data| - 4]), 4)
    ensures Opened(crc, debug, data).Err? ==>
              Opened(crc, debug, data).error in {BlockTooSmall, ChecksumMismatch, Panicked}
  {
    hide U32Array, ToLE, FromLE;
    if |data| >= 8 {
      assert data[|data| - 4..] == data[|data| - 4..|data| - 4 + 4];
      U32Stands(data, |data| - 4);
      U32RoundTrip(crc(data[..|data| - 4]));
    }
  }

  /** An entry whose bytes run past the end of the section is refused as corrupted. */
  lemma CutEntryIsCorrupted(rd: Reader, pos: nat, key: Bytes, shared: nat, e: Entry)
    requires rd.WellFormed()
    requires |e.key| < U32_LIMIT && |e.value| < U32_LIMIT && shared <= |e.key|
    requires At(rd.data, pos, BlockFormat.EncodedEntry(shared, e))
    requires pos + |BlockFormat.EncodedEntry(shared, e)| > rd.entriesEnd
    ensures StepAt(rd, pos, key).outcome == Err(CorruptedEntry)
  {
    hide HeaderAt, BlockFormat.EncodedEntry;
    AtIsWithin(rd.data, pos, BlockFormat.EncodedEntry(shared, e));
    BlockLookups.EntryParts(rd.data, pos, shared, e);
  }

  /** Bytes whose varints do not read yield the varint's error; any others an entry,
      or the refusal of one that runs past the section. */
  lemma StepRefusesIff(rd: Reader, pos: nat, key: Bytes)
    requires rd.WellFormed() && pos <= |rd.data|
    ensures var h, s := HeaderAt(rd.data, pos), StepAt(rd, pos, key);
            && (s.outcome.Ok? <==>
                h.outcome.Ok? && h.pos + h.outcome.value.unshared + h.outcome.value.valueLen <= rd.entriesEnd)
            && (h.outcome.Err? ==> s.outcome == Err(h.outcome.error))
            && (h.outcome.Ok? && s.outcome.Err? ==> s.outcome == Err(CorruptedEntry))
  {
    hide HeaderAt;
  }

  /** The search and the scan read the same key at a restart: where the scan gets an
      entry, the search gets its key, and where the search fails the scan fails with
      the same error. A restart beyond the section is corrupted. */
  lemma RestartKeyIsEntryKey(rd: Reader, i: nat)
    requires rd.WellFormed() && i < |rd.restarts|
    ensures var found, s := KeyAtRestart(rd, i), StepAt(rd, rd.restarts[i], []);
            if rd.restarts[i] >= rd.entriesEnd then found == Err(CorruptedEntry)
            else if Trips(rd, i) then found == Err(Panicked)
            else (s.outcome.Ok? ==> found == Ok(s.outcome.value.key))
                 && (found.Err? ==> s.outcome == Err(found.error))
  {
    hide HeaderAt;
    if rd.restarts[i] < rd.entriesEnd {
      var h := HeaderAt(rd.data, rd.restarts[i]);
      if h.outcome.Ok? {
        var end := h.pos + h.outcome.value.unshared;
        if end <= rd.entriesEnd {
          assert Truncated([], h.outcome.value.shared) + rd.data[h.pos..end] == rd.data[h.pos..end];
        }
      }
    }
  }

  /** Some position of the block holds this entry, behind some earlier key. */
  ghost predicate Stored(rd: Reader, key: Bytes, value: Bytes)
    requires rd.WellFormed()
  {
    exists pos: nat, before: Bytes :: StepAt(rd, pos, before).outcome == Ok(Pair(key, value))
  }

  lemma {:induction false} ScanFindsStored(rd: Reader, end: nat, pos: nat, key: Bytes, target: Bytes)
    requires rd.WellFormed()
    ensures var found := Scan(rd, end, pos, key, target);
            found.Ok? && found.value.Some? ==> Stored(rd, target, found.value.value)
    decreases end - pos
  {
    hide StepAt;
    if pos < end {
      var s := StepAt(rd, pos, key);
      if s.outcome.Ok? {
        CompareIsLinear(s.key, target);
        StepKeepsKey(rd, pos, key);
        ScanFindsStored(rd, end, s.pos, s.key, target);
      }
    }
  }

  lemma StepKeepsKey(rd: Reader, pos: nat, key: Bytes)
    requires rd.WellFormed()
    ensures var s := StepAt(rd, pos, key); s.outcome.Ok? ==> s.outcome.value.key == s.key
  {
    hide HeaderAt;
  }

  /** A value found in any opened block is one some entry of it holds for the key. */
  lemma FoundIsStored(rd: Reader, target: Bytes)
    requires rd.WellFormed()
    ensures Found(rd, target).Ok? && Found(rd, target).value.Some? ==>
              Stored(rd, target, Found(rd, target).value.value)
  {
    hide Scan, RestartSearch, Stored;
    var restart := RestartSearch(rd, target, 0, |rd.restarts|);
    if restart.Ok? && restart.value < |rd.restarts| {
      ScanFindsStored(rd, IntervalEnd(rd, restart.value), rd.restarts[restart.value], [], target);
    }
  }

  /** So is every entry listed from one. */
  lemma {:induction false} ListedAreStored(rd: Reader, pos: nat, key: Bytes, e: Entry)
    requires rd.WellFormed()
    requires var listed := EntriesFrom(rd, pos, key); listed.Ok? && e in listed.value.value
    ensures Stored(rd, e.key, e.value)
    decreases rd.entriesEnd - pos
  {
    hide StepAt;
    var s := StepAt(rd, pos, key);
    if s.outcome.value == e {
      assert StepAt(rd, pos, key).outcome == Ok(Pair(e.key, e.value));
    } else {
      ListedAreStored(rd, s.pos, s.key, e);
    }
  }

  // ---------------------------------------------------------------------
  // Opening segments
  // ---------------------------------------------------------------------

  /** Each section the footer speaks of ends before the footer. */
  ghost predicate SectionsInside(f: Footers.Footer, end: nat) {
    && f.dataBlocksLength <= end
    && (f.bloomLength > 0 ==> f.bloomOffset + f.bloomLength <= end)
    && (f.fstLength > 0 ==> f.fstOffset + f.fstLength <= end)
  }

  /** The bytes the footer calls filter and directory. */
  ghost predicate HasSections(libs: Libs, data: Bytes, meta: SegmentReaders.Metadata) {
    var f := meta.footer;
    && f.fstOffset + f.fstLength <= |data|
    && libs.fstParse(data[f.fstOffset..f.fstOffset + f.fstLength]) == Some(meta.fst)
    && (f.bloomLength == 0 ==> meta.filter == [])
    && (f.bloomLength > 0 ==> |meta.filter| == f.bloomLength && At(data, f.bloomOffset, meta.filter))
  }

  lemma OffsetsCheckIff(f: Footers.Footer, end: nat)
    requires end < U64_LIMIT
    ensures SegmentReaders.OffsetsCheck(f, end) ==
            if SectionsInside(f, end) then Ok(()) else Err(SegmentReaders.InvalidOffset)
  {
  }

  lemma FooterRefusesIff(libs: Libs, data: Bytes)
    ensures SegmentReaders.ParseFooter(libs, data) == Err(SegmentReaders.Format(Footers.TooSmall(|data|))) <==>
            |data| < 64
    ensures |data| >= 64 ==>
              var footer := Footers.Decoded(libs.crc, data[|data| - 64..]);
              && (footer.Ok? ==> SegmentReaders.ParseFooter(libs, data) == Ok(footer.value))
              && (footer.Err? ==> SegmentReaders.ParseFooter(libs, data) == Err(SegmentReaders.Format(footer.error)))
  {
  }

  /** Which bytes open as a segment: the footer decodes, its sections end before it and
      the directory parses. Then they are what the reader holds. */
  lemma OpensIff(libs: Libs, data: Bytes, meta: SegmentReaders.Metadata)
    requires |data| < U64_LIMIT
    ensures SegmentReaders.Opened(libs, data) == Ok(SegmentReaders.Segment(data, meta)) <==>
            && SegmentReaders.ParseFooter(libs, data) == Ok(meta.footer)
            && SectionsInside(meta.footer, |data| - 64) && HasSections(libs, data, meta)
  {
    hide Footers.Decoded, SectionsInside, SegmentReaders.OffsetsCheck;
    var footer := SegmentReaders.ParseFooter(libs, data);
    if footer.Ok? {
      OffsetsCheckIff(footer.value, |data| - 64);
      InsideIsWithin(footer.value, |data| - 64);
    }
  }

  lemma InsideIsWithin(f: Footers.Footer, end: nat)
    ensures SectionsInside(f, end) ==>
              && (f.bloomLength > 0 ==> f.bloomOffset + f.bloomLength <= end)
              && (f.fstLength > 0 ==> f.fstOffset + f.fstLength <= end)
  {
  }

  /** Why any others do not: the footer's own error, a section that does not end
      before it, or a directory that does not parse. */
  lemma OpenErrorIff(libs: Libs, data: Bytes)
    requires |data| < U64_LIMIT
    ensures var footer, r := SegmentReaders.ParseFooter(libs, data), SegmentReaders.Opened(libs, data);
            && (footer.Err? ==> r == Err(footer.error))
            && (r == Err(SegmentReaders.InvalidOffset) <==> footer.Ok? && !SectionsInside(footer.value, |data| - 64))
            && (r == Err(SegmentReaders.FstError) <==>
                && footer.Ok? && SectionsInside(footer.value, |data| - 64)
                && footer.value.fstOffset + footer.value.fstLength <= |data|
                && libs.fstParse(data[footer.value.fstOffset..footer.value.fstOffset + footer.value.fstLength]) == None)
  {
    hide Footers.Decoded, SectionsInside, SegmentReaders.OffsetsCheck;
    var footer := SegmentReaders.ParseFooter(libs, data);
    if footer.Ok? {
      OffsetsCheckIff(footer.value, |data| - 64);
      InsideIsWithin(footer.value, |data| - 64);
    }
  }

  lemma TailHasFooter(libs: Libs, data: Bytes, start: nat)
    requires start + 64 <= |data|
    ensures SegmentReaders.ParseFooter(libs, data[start..]) == SegmentReaders.ParseFooter(libs, data)
  {
    hide Footers.Decoded;
    assert data[start..][|data| - start - 64..] == data[|data| - 64..];
  }

  /** What a tail must reach, for any bytes: filter, directory and footer, and the
      directory must end before the footer even when it is empty. */
  ghost predicate Reaches(data: Bytes, start: nat, f: Footers.Footer) {
    && start + 64 <= |data| && start <= f.bloomOffset && start <= f.fstOffset
    && f.fstOffset + f.fstLength + 64 <= |data|
  }

  /** The tail open of any bytes agrees with the in-memory open of all of them, and
      succeeds exactly when that does and the tail reaches what it must. */
  lemma TailAgreesIff(libs: Libs, data: Bytes, start: nat, meta: SegmentReaders.Metadata)
    requires start <= |data| < U64_LIMIT
    ensures SegmentReaders.OpenedFromTail(libs, data[start..], |data|) == Ok(meta) <==>
            && SegmentReaders.Opened(libs, data) == Ok(SegmentReaders.Segment(data, meta))
            && Reaches(data, start, meta.footer)
  {
    hide SegmentReaders.ParseFooter, SegmentReaders.OffsetsCheck;
    if start + 64 <= |data| {
      TailHasFooter(libs, data, start);
      var footer := SegmentReaders.ParseFooter(libs, data);
      if footer.Ok? {
        var f := footer.value;
        OffsetsCheckIff(f, |data| - 64);
        TailSlice(data, start, f.bloomOffset, f.bloomLength);
        TailSlice(data, start, f.fstOffset, f.fstLength);
      }
    } else {
      TinyTailHasNoFooter(libs, data[start..]);
    }
  }

  lemma TinyTailHasNoFooter(libs: Libs, data: Bytes)
    requires |data| < 64
    ensures SegmentReaders.ParseFooter(libs, data).Err?
  {
  }

  lemma TailSlice(data: Bytes, start: nat, offset: nat, len: nat)
    requires start <= |data|
    ensures start <= offset && offset + len <= |data| ==>
              data[start..][offset - start..offset - start + len] == data[offset..offset + len]
  {
  }

  /** Why a tail does not open, where it does not ask for more or abort: the footer's
      own error, a section that does not end before it, or a directory that does not
      parse. */
  lemma TailErrorIff(libs: Libs, data: Bytes, start: nat)
    requires start + 64 <= |data| < U64_LIMIT
    ensures var footer := SegmentReaders.ParseFooter(libs, data);
            var r := SegmentReaders.OpenedFromTail(libs, data[start..], |data|);
            && (footer.Err? ==> r == Err(footer.error))
            && (footer.Ok? ==>
                  var f, end := footer.value, |data| - 64;
                  && (r == Err(SegmentReaders.InvalidOffset) <==>
                      || !SectionsInside(f, end)
                      || (start <= f.bloomOffset && start <= f.fstOffset && f.fstOffset + f.fstLength > end))
                  && (r == Err(SegmentReaders.FstError) <==>
                      && SectionsInside(f, end) && Reaches(data, start, f)
                      && libs.fstParse(data[f.fstOffset..f.fstOffset + f.fstLength]) == None))
  {
    hide SegmentReaders.ParseFooter, SegmentReaders.OffsetsCheck;
    TailHasFooter(libs, data, start);
    var footer := SegmentReaders.ParseFooter(libs, data);
    if footer.Ok? {
      OffsetsCheckIff(footer.value, |data| - 64);
      TailSlice(data, start, footer.value.fstOffset, footer.value.fstLength);
    }
  }

  /** The remote open of any object that is not empty returns only what the in-memory
      open of its bytes would, and does so exactly when these open and the tail it
      reads last reaches what it must. */
  lemma RemoteOpenIff(libs: Libs, data: Bytes, budget: nat, meta: SegmentReaders.Metadata)
    requires 64 <= budget && 64 <= |data| < U64_LIMIT
    ensures var start := |data| - SegmentReaders.Min(budget, |data|);
            SegmentReaders.RemoteOpened(libs, data, budget).outcome == Ok(meta) <==>
            && SegmentReaders.Opened(libs, data) == Ok(SegmentReaders.Segment(data, meta))
            && Reaches(data, SegmentReaders.Min(start, meta.footer.bloomOffset), meta.footer)
  {
    hide SegmentReaders.OpenedFromTail, SegmentReaders.Opened;
    var start := |data| - SegmentReaders.Min(budget, |data|);
    var first := SegmentReaders.OpenedFromTail(libs, data[start..], |data|);
    TailAgreesIff(libs, data, start, meta);
    TailAsksForFilter(libs, data, start);
    OpensIff(libs, data, meta);
    if first.Err? && first.error.TailTooSmall? {
      var again := |data| - SegmentReaders.Min(first.error.needed, |data|);
      TailAgreesIff(libs, data, again, meta);
    }
  }

  /** A tail of any bytes is called too small exactly when the offsets check out and it
      starts behind the filter; it then asks for everything from the filter on. */
  lemma TailAsksForFilter(libs: Libs, data: Bytes, start: nat)
    requires start + 64 <= |data| < U64_LIMIT
    ensures var footer := SegmentReaders.ParseFooter(libs, data);
            var r := SegmentReaders.OpenedFromTail(libs, data[start..], |data|);
            && (r.Err? && r.error.TailTooSmall? <==>
                footer.Ok? && SectionsInside(footer.value, |data| - 64) && footer.value.bloomOffset < start)
            && (r.Err? && r.error.TailTooSmall? ==>
                  r.error == SegmentReaders.TailTooSmall(|data| - footer.value.bloomOffset, |data| - start))
  {
    hide SegmentReaders.ParseFooter, SegmentReaders.OffsetsCheck, SectionsInside;
    TailHasFooter(libs, data, start);
    var footer := SegmentReaders.ParseFooter(libs, data);
    ParsingNeverAsks(libs, data);
    if footer.Ok? {
      OffsetsCheckIff(footer.value, |data| - 64);
    }
  }

  lemma ParsingNeverAsks(libs: Libs, data: Bytes)
    ensures var footer := SegmentReaders.ParseFooter(libs, data); footer.Err? ==> footer.error.Format?
  {
  }

  // ---------------------------------------------------------------------
  // Looking up
  // ---------------------------------------------------------------------

  /** The directory ends the block behind the object. */
  ghost predicate EndsBeyond(data: Bytes, meta: SegmentReaders.Metadata, key: Bytes) {
    var offset := SegmentReaders.BlockForKey(meta.fst, key);
    && offset.Some? && offset.value < meta.footer.dataBlocksLength
    && var end := SegmentReaders.BlockEnd(meta.fst, offset.value, meta.footer.dataBlocksLength);
       offset.value <= end && end > |data|
  }

  /** On any bytes under any metadata, the remote lookup answers as the in-memory one,
      errors included, but where a block ends behind the object: the store refuses
      what the slice aborts on. */
  lemma RemoteLookupAgrees(libs: Libs, data: Bytes, meta: SegmentReaders.Metadata, key: Bytes)
    ensures var remote, local := SegmentReaders.RemoteGot(libs, data, meta, key),
                                 SegmentReaders.Got(libs, SegmentReaders.Segment(data, meta), key);
            if libs.MightContain(meta.filter, key) && EndsBeyond(data, meta, key)
            then remote == Err(SegmentReaders.Storage) && local == Err(SegmentReaders.Aborted)
            else remote == local
  {
    hide SegmentReaders.SearchedBlock, SegmentReaders.BlockForKey, SegmentReaders.BlockEnd;
  }

  /** Bytes that open as a block and hold the entry. */
  ghost predicate BlockHolds(libs: Libs, data: Bytes, key: Bytes, value: Bytes) {
    var rd := Opened(libs.crc, libs.debug, data);
    rd.Ok? && Stored(rd.value, key, value)
  }

  /** Whatever segment is opened: a value found for a key is held for it by the block
      the directory names, whose bytes carry their own checksum. */
  lemma GotIsStored(libs: Libs, seg: SegmentReaders.Segment, key: Bytes)
    ensures var found := SegmentReaders.Got(libs, seg, key);
            found.Ok? && found.value.Some? ==>
              var offset := SegmentReaders.BlockForKey(seg.meta.fst, key);
              && offset.Some?
              && var data := SegmentReaders.BlockData(seg, offset.value);
                 data.Ok? && BlockHolds(libs, data.value, key, found.value.value)
  {
    hide SegmentReaders.BlockForKey, SegmentReaders.BlockData, Opened, Found, Stored;
    var offset := SegmentReaders.BlockForKey(seg.meta.fst, key);
    if offset.Some? {
      var data := SegmentReaders.BlockData(seg, offset.value);
      if data.Ok? {
        var rd := Opened(libs.crc, libs.debug, data.value);
        if rd.Ok? {
          FoundIsStored(rd.value, key);
        }
      }
    }
  }

  /** A lookup or a listing of a block whose checksum is wrong is refused for it. */
  lemma WrongChecksumIsRefused(libs: Libs, data: Bytes, key: Bytes)
    requires |data| >= 8 && data[|data| - 4..] != ToLE(libs.crc(data[..|data| - 4]), 4)
    ensures SegmentReaders.SearchedBlock(libs, data, key) == Err(SegmentReaders.Block(ChecksumMismatch))
    ensures SegmentReaders.ListedBlock(libs, data) == Err(SegmentReaders.Block(ChecksumMismatch))
  {
    hide Opened;
    OpenRefusesIff(libs.crc, libs.debug, data);
  }

  /** An error of the block is passed on as such. */
  lemma BlockErrorsPass(libs: Libs, data: Bytes, key: Bytes)
    ensures var rd, r := Opened(libs.crc, libs.debug, data), SegmentReaders.SearchedBlock(libs, data, key);
            && (rd.Err? ==> r == Err(SegmentReaders.Block(rd.error)))
            && (rd.Ok? && Found(rd.value, key).Err? ==> r == Err(SegmentReaders.Block(Found(rd.value, key).error)))
  {
    hide Opened, Found;
  }
}
