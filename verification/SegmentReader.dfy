/** Reading segments: opened whole in memory, or from the tail of a stored object. */
module SegmentReaders {
  import opened ByteStrings
  import opened Results
  import opened Entries
  import opened Libraries
  import Footers
  import BlockReaders

  /** The source's errors, and `Aborted` for an out-of-range slice or an arithmetic
      underflow, where the program stops instead of returning an error. */
  datatype ReaderError =
    | Format(format: Footers.FormatError)
    | Block(block: BlockError)
    | FstError
    | InvalidBlockOffset(offset: nat)
    | InvalidOffset
    | TailTooSmall(needed: nat, got: nat)
    | Storage
    | Aborted

  /** The cached portion: footer, directory and filter. */
  datatype Metadata = Metadata(footer: Footers.Footer, fst: Directory, filter: Bytes)

  datatype Segment = Segment(data: Bytes, meta: Metadata)

  // ---------------------------------------------------------------------
  // Opening
  // ---------------------------------------------------------------------

  /** validate_footer_offsets: each section ends before the footer, without the sum
      of offset and length overflowing a u64. */
  function OffsetsCheck(f: Footers.Footer, contentEnd: nat): Result<(), ReaderError> {
    if f.dataBlocksLength > contentEnd then Err(InvalidOffset)
    else if f.bloomLength > 0 && f.bloomOffset + f.bloomLength >= U64_LIMIT then Err(InvalidOffset)
    else if f.bloomLength > 0 && f.bloomOffset + f.bloomLength > contentEnd then Err(InvalidOffset)
    else if f.fstLength > 0 && f.fstOffset + f.fstLength >= U64_LIMIT then Err(InvalidOffset)
    else if f.fstLength > 0 && f.fstOffset + f.fstLength > contentEnd then Err(InvalidOffset)
    else Ok(())
  }

  function Slice(data: Bytes, start: nat, len: nat): Result<Bytes, ReaderError> {
    if start + len > |data| then Err(Aborted) else Ok(data[start..start + len])
  }

  function ParseFooter(libs: Libs, data: Bytes): Result<Footers.Footer, ReaderError> {
    if |data| < Footers.FOOTER_SIZE then Err(Format(Footers.TooSmall(|data|)))
    else
      var footer := Footers.Decoded(libs.crc, data[|data| - Footers.FOOTER_SIZE..]);
      if footer.Err? then Err(Format(footer.error)) else Ok(footer.value)
  }

  function ParseFst(libs: Libs, bytes: Bytes): Result<Directory, ReaderError> {
    var fst := libs.fstParse(bytes);
    if fst.None? then Err(FstError) else Ok(fst.value)
  }

  /** SegmentReader::open */
  function Opened(libs: Libs, data: Bytes): Result<Segment, ReaderError> {
    var footer :- ParseFooter(libs, data);
    var _ :- OffsetsCheck(footer, |data| - Footers.FOOTER_SIZE);
    var filter :- if footer.bloomLength > 0 then Slice(data, footer.bloomOffset, footer.bloomLength) else Ok([]);
    var fstBytes :- Slice(data, footer.fstOffset, footer.fstLength);
    var fst :- ParseFst(libs, fstBytes);
    Ok(Segment(data, Metadata(footer, fst, filter)))
  }

  /** SegmentReader::open_from_tail: the last bytes of a segment of known size. */
  function OpenedFromTail(libs: Libs, tail: Bytes, size: nat): Result<Metadata, ReaderError> {
    var footer :- ParseFooter(libs, tail);
    if size < Footers.FOOTER_SIZE then Err(Aborted)
    else
      var footerStart := |tail| - Footers.FOOTER_SIZE;
      var _ :- OffsetsCheck(footer, size - Footers.FOOTER_SIZE);
      if size < |tail| then Err(Aborted)
      else if footer.bloomOffset < size - |tail| then Err(TailTooSmall(size - footer.bloomOffset, |tail|))
      else
        var tailStart := size - |tail|;
        var bloomLocal := footer.bloomOffset - tailStart;
        if footer.bloomLength > 0 && bloomLocal + footer.bloomLength > footerStart then Err(InvalidOffset)
        else
          var filter :- if footer.bloomLength > 0 then Slice(tail, bloomLocal, footer.bloomLength) else Ok([]);
          if footer.fstOffset < tailStart then Err(Aborted)
          else if footer.fstOffset - tailStart + footer.fstLength > footerStart then Err(InvalidOffset)
          else
            var fstBytes :- Slice(tail, footer.fstOffset - tailStart, footer.fstLength);
            var fst :- ParseFst(libs, fstBytes);
            Ok(Metadata(footer, fst, filter))
  }

  // ---------------------------------------------------------------------
  // Finding a block
  // ---------------------------------------------------------------------

  /** find_block_for_key: the first directory entry at or above the key. */
  function BlockForKey(fst: Directory, key: Bytes): Option<nat> {
    if fst == [] then None
    else if AtMost(key, fst[0].key) then Some(fst[0].value)
    else BlockForKey(fst[1..], key)
  }

  /** Where the block at this offset ends: the offset of the next directory entry,
      or the end of the data section. */
  function BlockEnd(fst: Directory, offset: nat, dataEnd: nat): nat {
    if fst == [] then dataEnd
    else if fst[0].value != offset then BlockEnd(fst[1..], offset, dataEnd)
    else if |fst| > 1 then fst[1].value
    else dataEnd
  }

  /** find_block_end: one pass over the directory stream. */
  method FindBlockEnd(fst: Directory, offset: nat, dataEnd: nat) returns (end: nat)
    ensures end == BlockEnd(fst, offset, dataEnd)
  {
    var foundCurrent := false;
    for i := 0 to |fst|
      invariant !foundCurrent ==> BlockEnd(fst, offset, dataEnd) == BlockEnd(fst[i..], offset, dataEnd)
      invariant foundCurrent ==>
                  BlockEnd(fst, offset, dataEnd) == if i < |fst| then fst[i].value else dataEnd
    {
      if foundCurrent {
        return fst[i].value;
      }
      assert fst[i..][1..] == fst[i + 1..];
      if fst[i].value == offset {
        foundCurrent := true;
      }
    }
    return dataEnd;
  }

  /** block_byte_range */
  function BlockRange(meta: Metadata, offset: nat): Option<(nat, nat)> {
    if offset >= meta.footer.dataBlocksLength then None
    else Some((offset, BlockEnd(meta.fst, offset, meta.footer.dataBlocksLength)))
  }

  // ---------------------------------------------------------------------
  // Reading a block
  // ---------------------------------------------------------------------

  /** read_block */
  function BlockData(seg: Segment, offset: nat): Result<Bytes, ReaderError> {
    if offset >= seg.meta.footer.dataBlocksLength then Err(InvalidBlockOffset(offset))
    else
      var end := BlockEnd(seg.meta.fst, offset, seg.meta.footer.dataBlocksLength);
      if offset <= end <= |seg.data| then Ok(seg.data[offset..end]) else Err(Aborted)
  }

  function SearchedBlock(libs: Libs, data: Bytes, key: Bytes): Result<Option<Bytes>, ReaderError> {
    var rd := BlockReaders.Opened(libs.crc, libs.debug, data);
    if rd.Err? then Err(Block(rd.error))
    else
      var found := BlockReaders.Found(rd.value, key);
      if found.Err? then Err(Block(found.error)) else Ok(found.value)
  }

  function ListedBlock(libs: Libs, data: Bytes): Result<seq<Entry>, ReaderError> {
    var rd := BlockReaders.Opened(libs.crc, libs.debug, data);
    if rd.Err? then Err(Block(rd.error))
    else
      var entries := BlockReaders.EntriesFrom(rd.value, 0, []);
      if entries.Err? then Err(Block(entries.error)) else Ok(entries.value.value)
  }

  method SearchBlock(libs: Libs, data: Bytes, key: Bytes) returns (r: Result<Option<Bytes>, ReaderError>)
    ensures r == SearchedBlock(libs, data, key)
  {
    var rd := BlockReaders.Open(libs.crc, libs.debug, data);
    if rd.Err? {
      return Err(Block(rd.error));
    }
    var found := BlockReaders.Get(rd.value, key);
    return if found.Err? then Err(Block(found.error)) else Ok(found.value);
  }

  // ---------------------------------------------------------------------
  // The in-memory reader
  // ---------------------------------------------------------------------

  /** SegmentReader::get: filter, directory, block. */
  function Got(libs: Libs, seg: Segment, key: Bytes): Result<Option<Bytes>, ReaderError> {
    if !libs.MightContain(seg.meta.filter, key) then Ok(None)
    else
      match BlockForKey(seg.meta.fst, key)
      case None => Ok(None)
      case Some(offset) =>
        var data :- BlockData(seg, offset);
        SearchedBlock(libs, data, key)
  }

  method Get(libs: Libs, seg: Segment, key: Bytes) returns (r: Result<Option<Bytes>, ReaderError>)
    ensures r == Got(libs, seg, key)
  {
    if !libs.MightContain(seg.meta.filter, key) {
      return Ok(None);
    }
    var offset := BlockForKey(seg.meta.fst, key);
    if offset.None? {
      return Ok(None);
    }
    var data := ReadBlock(seg, offset.value);
    if data.Err? {
      return Err(data.error);
    }
    r := SearchBlock(libs, data.value, key);
  }

  method ReadBlock(seg: Segment, offset: nat) returns (r: Result<Bytes, ReaderError>)
    ensures r == BlockData(seg, offset)
  {
    var dataEnd := seg.meta.footer.dataBlocksLength;
    if offset >= dataEnd {
      return Err(InvalidBlockOffset(offset));
    }
    var end := FindBlockEnd(seg.meta.fst, offset, dataEnd);
    return if offset <= end <= |seg.data| then Ok(seg.data[offset..end]) else Err(Aborted);
  }

  /** The blocks at these offsets, listed one after the other. */
  function ListedBlocks(libs: Libs, seg: Segment, offsets: Directory): Result<seq<Entry>, ReaderError> {
    if offsets == [] then Ok([])
    else
      var before :- ListedBlocks(libs, seg, Front(offsets));
      var data :- BlockData(seg, Last(offsets).value);
      var entries :- ListedBlock(libs, data);
      Ok(before + entries)
  }

  /** SegmentReader::iter */
  function Listed(libs: Libs, seg: Segment): Result<seq<Entry>, ReaderError> {
    ListedBlocks(libs, seg, seg.meta.fst)
  }

  lemma {:induction false} FailureStays(libs: Libs, seg: Segment, offsets: Directory, i: nat)
    requires i <= |offsets| && ListedBlocks(libs, seg, offsets[..i]).Err?
    ensures ListedBlocks(libs, seg, offsets) == ListedBlocks(libs, seg, offsets[..i])
    decreases |offsets|
  {
    if i == |offsets| {
      assert offsets[..i] == offsets;
    } else {
      assert Front(offsets)[..i] == offsets[..i];
      FailureStays(libs, seg, Front(offsets), i);
    }
  }

  method Iter(libs: Libs, seg: Segment) returns (r: Result<seq<Entry>, ReaderError>)
    ensures r == Listed(libs, seg)
  {
    hide BlockData, BlockReaders.Opened, BlockReaders.EntriesFrom;
    var offsets := seg.meta.fst;
    var results := [];
    for i := 0 to |offsets|
      invariant ListedBlocks(libs, seg, offsets[..i]) == Ok(results)
    {
      ghost var upto := offsets[..i + 1];
      assert Front(upto) == offsets[..i] && Last(upto) == offsets[i];
      var data := ReadBlock(seg, offsets[i].value);
      if data.Err? {
        FailureStays(libs, seg, offsets, i + 1);
        return Err(data.error);
      }
      var rd := BlockReaders.Open(libs.crc, libs.debug, data.value);
      if rd.Err? {
        FailureStays(libs, seg, offsets, i + 1);
        return Err(Block(rd.error));
      }
      var entries := BlockReaders.ReadAll(rd.value);
      if entries.Err? {
        FailureStays(libs, seg, offsets, i + 1);
        return Err(Block(entries.error));
      }
      results := results + entries.value.value;
    }
    assert offsets[..|offsets|] == offsets;
    return Ok(results);
  }

  // ---------------------------------------------------------------------
  // The remote reader: a stored object and the requests made for it
  // ---------------------------------------------------------------------

  const DEFAULT_TAIL_READ_BUDGET: u64 := 256 * 1024

  /** An immutable object in a store, with a count of the requests served. */
  class Store {
    const stored: Bytes
    var tailReads: nat
    var rangeReads: nat

    constructor (stored: Bytes)
      ensures this.stored == stored && tailReads == 0 && rangeReads == 0
    {
      this.stored, tailReads, rangeReads := stored, 0, 0;
    }

    /** read_tail refuses a length beyond the object. */
    method ReadTail(len: nat) returns (r: Result<Bytes, ReaderError>)
      modifies `tailReads
      ensures tailReads == old(tailReads) + 1
      ensures r == if len > |stored| then Err(Storage) else Ok(stored[|stored| - len..])
    {
      tailReads := tailReads + 1;
      return if len > |stored| then Err(Storage) else Ok(stored[|stored| - len..]);
    }

    /** The length is computed as end - start, unchecked. */
    method ReadRange(start: nat, end: nat) returns (r: Result<Bytes, ReaderError>)
      modifies `rangeReads
      ensures rangeReads == old(rangeReads) + 1
      ensures r == RangeOf(stored, start, end)
    {
      rangeReads := rangeReads + 1;
      return RangeOf(stored, start, end);
    }
  }

  function RangeOf(stored: Bytes, start: nat, end: nat): Result<Bytes, ReaderError> {
    if end < start then Err(Aborted)
    else if end <= |stored| then Ok(stored[start..end])
    else Err(Storage)
  }

  function Min(a: nat, b: nat): nat {
    if a < b then a else b
  }

  function Tail(stored: Bytes, len: nat): Bytes {
    stored[|stored| - Min(len, |stored|)..]
  }

  /** SegmentMetadata::empty */
  function EmptyMetadata(libs: Libs): Metadata {
    Metadata(Footers.Footer(Footers.FORMAT_VERSION, 0, 0, 0, 0, 0, AsU64(|libs.fstBuild([])|), 0, 0), [], [])
  }

  /** What a remote open returns, and after how many tail reads. */
  datatype Opening = Opening(outcome: Result<Metadata, ReaderError>, tailReads: nat)

  /** RemoteSegmentReader::open: one tail read, and one re-read of the exact size
      when the first tail turns out too small. */
  function RemoteOpened(libs: Libs, stored: Bytes, budget: nat): Opening {
    if stored == [] then Opening(Ok(EmptyMetadata(libs)), 0)
    else
      var first := OpenedFromTail(libs, Tail(stored, budget), |stored|);
      if first.Err? && first.error.TailTooSmall? then
        Opening(OpenedFromTail(libs, Tail(stored, first.error.needed), |stored|), 2)
      else Opening(first, 1)
  }

  method RemoteOpen(libs: Libs, store: Store, tailBudget: Option<u64>) returns (r: Result<Metadata, ReaderError>)
    modifies store`tailReads
    ensures var opening := RemoteOpened(libs, store.stored,
                                        if tailBudget.Some? then tailBudget.value else DEFAULT_TAIL_READ_BUDGET);
            r == opening.outcome && store.tailReads == old(store.tailReads) + opening.tailReads
  {
    hide OpenedFromTail;
    var budget := if tailBudget.Some? then tailBudget.value else DEFAULT_TAIL_READ_BUDGET;
    var size := |store.stored|;
    if size == 0 {
      return Ok(EmptyMetadata(libs));
    }
    var tail := store.ReadTail(Min(budget, size));
    if tail.Err? {
      return Err(Storage);
    }
    var meta := OpenedFromTail(libs, tail.value, size);
    if meta.Err? && meta.error.TailTooSmall? {
      var fullTail := store.ReadTail(Min(meta.error.needed, size));
      if fullTail.Err? {
        return Err(Storage);
      }
      return OpenedFromTail(libs, fullTail.value, size);
    }
    return meta;
  }

  /** RemoteSegmentReader::get */
  function RemoteGot(libs: Libs, stored: Bytes, meta: Metadata, key: Bytes): Result<Option<Bytes>, ReaderError> {
    if !libs.MightContain(meta.filter, key) then Ok(None)
    else
      match BlockForKey(meta.fst, key)
      case None => Ok(None)
      case Some(offset) =>
        match BlockRange(meta, offset)
        case None => Err(InvalidBlockOffset(offset))
        case Some(range) =>
          var data :- RangeOf(stored, range.0, range.1);
          SearchedBlock(libs, data, key)
  }

  /** The lookup needs a block: the filter passes the key and the directory names one. */
  predicate Requests(libs: Libs, meta: Metadata, key: Bytes) {
    && libs.MightContain(meta.filter, key)
    && var offset := BlockForKey(meta.fst, key);
       offset.Some? && offset.value < meta.footer.dataBlocksLength
  }

  method RemoteGet(libs: Libs, store: Store, meta: Metadata, key: Bytes) returns (r: Result<Option<Bytes>, ReaderError>)
    modifies store`rangeReads
    ensures r == RemoteGot(libs, store.stored, meta, key)
    ensures store.rangeReads == old(store.rangeReads) + if Requests(libs, meta, key) then 1 else 0
  {
    if !libs.MightContain(meta.filter, key) {
      return Ok(None);
    }
    var offset := BlockForKey(meta.fst, key);
    if offset.None? {
      return Ok(None);
    }
    var range := BlockRange(meta, offset.value);
    if range.None? {
      return Err(InvalidBlockOffset(offset.value));
    }
    var data := store.ReadRange(range.value.0, range.value.1);
    if data.Err? {
      return Err(data.error);
    }
    r := SearchBlock(libs, data.value, key);
  }
}
