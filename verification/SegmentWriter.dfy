/** The segment writer. */
module SegmentWriters {
  import opened ByteStrings
  import opened Results
  import opened Entries
  import opened Libraries
  import opened BlockBuilders
  import opened BlockFormat
  import opened SegmentFormat
  import Footers

  datatype WriterError = KeysOutOfOrder | DuplicateKey | EmptySegment | FstBuildError

  datatype SegmentMeta = SegmentMeta(sizeBytes: nat, keyCount: u32, minKey: Bytes, maxKey: Bytes)

  datatype SegmentOutput = SegmentOutput(data: Bytes, meta: SegmentMeta)

  /** Whether a key may follow the keys already added. */
  function OrderCheck(es: seq<Entry>, key: Bytes): Result<(), WriterError> {
    if es == [] then Ok(())
    else
      match Compare(key, Last(es).key)
      case Less => Err(KeysOutOfOrder)
      case Equal => Err(DuplicateKey)
      case Greater => Ok(())
  }

  /** What a run of adds leaves, when the caller goes on after a refusal. */
  function Accepted(attempts: seq<Entry>): seq<Entry> {
    if attempts == [] then []
    else
      var before, e := Accepted(Front(attempts)), Last(attempts);
      if OrderCheck(before, e.key).Ok? then before + [e] else before
  }

  ghost predicate IsHighest(attempts: seq<Entry>, key: Bytes) {
    forall i :: 0 <= i < |attempts| ==> AtMost(attempts[i].key, key)
  }

  lemma HighestGrows(attempts: seq<Entry>, e: Entry, before: Bytes, after: Bytes)
    requires IsHighest(attempts, before) && AtMost(before, after) && AtMost(e.key, after)
    ensures IsHighest(attempts + [e], after)
  {
    hide Below;
    forall i | 0 <= i < |attempts|
      ensures AtMost(attempts[i].key, after)
    {
      if before != after {
        AtMostBelow(attempts[i].key, before, after);
      }
    }
  }

  /** Over every run of adds, what was taken is ascending and ends with the highest
      key attempted, taken or not. */
  lemma {:induction false} AcceptedKeepsHighest(attempts: seq<Entry>)
    ensures Ascending(Accepted(attempts))
    ensures attempts != [] ==> Accepted(attempts) != [] && IsHighest(attempts, Last(Accepted(attempts)).key)
  {
    hide Below, Compare, IsHighest;
    if attempts != [] {
      var init, e := Front(attempts), Last(attempts);
      assert attempts == init + [e];
      AcceptedKeepsHighest(init);
      var before := Accepted(init);
      if init == [] {
        assert IsHighest(attempts, e.key) by { LoneKeyIsHighest(e); }
      } else {
        CompareIsLinear(e.key, Last(before).key);
        AscendingIfTaken(before, e);
        HighestGrows(init, e, Last(before).key, Last(Accepted(attempts)).key);
      }
    }
  }

  lemma LoneKeyIsHighest(e: Entry)
    ensures IsHighest([] + [e], e.key)
  {
  }

  lemma AscendingIfTaken(es: seq<Entry>, e: Entry)
    requires Ascending(es) && es != []
    ensures OrderCheck(es, e.key).Ok? ==> Ascending(es + [e])
  {
    CompareIsLinear(e.key, Last(es).key);
    if OrderCheck(es, e.key).Ok? {
      AscendingAppend(es, e);
    }
  }

  /** So an add is taken exactly when its key is above every earlier attempt. */
  lemma AcceptedAreRecords(attempts: seq<Entry>, key: Bytes)
    ensures OrderCheck(Accepted(attempts), key).Ok? <==>
            forall i :: 0 <= i < |attempts| ==> Below(attempts[i].key, key)
  {
    hide Below, Compare, Ascending;
    AcceptedKeepsHighest(attempts);
    if attempts != [] {
      var last := Last(Accepted(attempts));
      CompareIsLinear(key, last.key);
      LastWasAttempted(attempts);
      if Below(last.key, key) {
        forall i | 0 <= i < |attempts|
          ensures Below(attempts[i].key, key)
        {
          AtMostBelow(attempts[i].key, last.key, key);
        }
      }
    }
  }

  /** Which refusal a run of adds meets: a key below one attempted before is out of
      order, and one that repeats the highest attempted is a duplicate. */
  lemma RefusalIff(attempts: seq<Entry>, key: Bytes)
    ensures OrderCheck(Accepted(attempts), key) == Err(KeysOutOfOrder) <==>
            exists i :: 0 <= i < |attempts| && Below(key, attempts[i].key)
    ensures OrderCheck(Accepted(attempts), key) == Err(DuplicateKey) <==>
            IsHighest(attempts, key) && exists i :: 0 <= i < |attempts| && attempts[i].key == key
  {
    hide Below, Ascending;
    AcceptedKeepsHighest(attempts);
    if attempts != [] {
      var last := Last(Accepted(attempts));
      CompareIsLinear(key, last.key);
      LastWasAttempted(attempts);
      forall i | 0 <= i < |attempts|
        ensures Below(key, attempts[i].key) ==> Below(key, last.key)
        ensures attempts[i].key == key ==> AtMost(key, last.key)
        ensures Below(key, last.key) ==> !IsHighest(attempts, key)
      {
        if Below(key, attempts[i].key) {
          BelowAtMost(key, attempts[i].key, last.key);
        }
        HighestIsAtLeast(attempts, last, key);
      }
    }
  }

  lemma HighestIsAtLeast(attempts: seq<Entry>, last: Entry, key: Bytes)
    requires last in attempts
    ensures Below(key, last.key) ==> !IsHighest(attempts, key)
  {
    if Below(key, last.key) {
      BelowIsAsymmetric(key, last.key);
    }
  }

  lemma {:induction false} LastWasAttempted(attempts: seq<Entry>)
    requires Accepted(attempts) != []
    ensures exists i :: 0 <= i < |attempts| && attempts[i] == Last(Accepted(attempts))
  {
    hide OrderCheck;
    var init, e := Front(attempts), Last(attempts);
    if Accepted(attempts) == Accepted(init) {
      LastWasAttempted(init);
      var i :| 0 <= i < |init| && init[i] == Last(Accepted(init));
      assert attempts[i] == init[i];
    } else {
      assert attempts[|attempts| - 1] == e;
    }
  }

  /** Writing an ascending list never meets a refusal. */
  lemma AscendingIsAccepted(es: seq<Entry>, i: nat)
    requires Ascending(es) && i < |es|
    ensures OrderCheck(es[..i], es[i].key) == Ok(())
    ensures es[..i + 1] == es[..i] + [es[i]]
  {
    if i > 0 {
      CompareIsLinear(es[i].key, es[i - 1].key);
    }
  }

  /** The output of finishing after these entries. */
  function OutputOf(libs: Libs, o: Options, es: seq<Entry>): SegmentOutput {
    SegmentOutput(
      SegmentOf(libs, o, es),
      SegmentMeta(|SegmentOf(libs, o, es)|, AsU32(|es|), if es == [] then [] else es[0].key, LastKey(es)))
  }

  /** data blocks + filter + directory + footer */
  method Assemble(crc: Checksum, data: Bytes, filter: Bytes, fst: Bytes, keyCount: u32) returns (output: Bytes)
    ensures output == Layout(crc, data, filter, fst, keyCount)
  {
    hide Footers.Encoded;
    var footer := FooterFor(|data|, |filter|, |fst|, keyCount);
    var footerBytes := Footers.ToBytes(crc, footer);
    output := data + filter + fst + footerBytes[..];
  }

  lemma AddedCount(w: SegmentWriter)
    requires w.Valid()
    ensures w.keyCount == |w.added|
  {
  }

  /** The metadata brackets the segment: its keys lie between the two recorded, both
      of which it holds, and the size is that of the bytes. */
  lemma MetaBracketsKeys(libs: Libs, o: Options, es: seq<Entry>, e: Entry)
    requires Ascending(es) && e in es && |es| < U32_LIMIT
    ensures var output := OutputOf(libs, o, es);
            && AtMost(output.meta.minKey, e.key) && AtMost(e.key, output.meta.maxKey)
            && Lookup(es, output.meta.minKey).Some? && Lookup(es, output.meta.maxKey).Some?
            && output.meta.keyCount == |es| && output.meta.sizeBytes == |output.data|
  {
    hide SegmentOf, Lookup, Below;
    var i :| 0 <= i < |es| && es[i] == e;
    LookupAt(es, 0);
    LookupAt(es, |es| - 1);
  }

  class SegmentWriter {
    const libs: Libs
    const opts: Options
    var dataBlocks: Bytes
    var fstEntries: Directory
    var allKeys: seq<Bytes>
    var currentBlock: TrackedBlockBuilder
    var currentOffset: nat
    var keyCount: u32
    var firstKey: Option<Bytes>
    var lastKey: Option<Bytes>
    var hasEntries: bool
    var prevKey: Option<Bytes>
    ghost var added: seq<Entry>

    ghost predicate Valid()
      reads this, currentBlock, currentBlock.inner
    {
      && BlockState(added)
      && LastOf(prevKey) && LastOf(lastKey)
      && firstKey == (if added == [] then None else Some(added[0].key))
      && hasEntries == (added != [])
      && keyCount == |added|
      && allKeys == (if opts.enableBloom then Keys(added) else [])
      && Ascending(added)
    }

    ghost predicate LastOf(k: Option<Bytes>)
      reads this
    {
      k == if added == [] then None else Some(Last(added).key)
    }

    /** The flushed bytes, the directory and the open block are those of the
        entries `es`, split where the size checks put the boundaries. */
    ghost predicate BlockState(es: seq<Entry>)
      reads `dataBlocks, `fstEntries, `currentBlock, `currentOffset, currentBlock, currentBlock.inner
    {
      && currentBlock.Valid()
      && currentBlock.inner.maxBlockSize == opts.blockSize
      && currentBlock.inner.restartInterval == opts.Interval()
      && Blocked(SplitOf(opts, es))
    }

    ghost predicate Blocked(s: Split)
      reads `dataBlocks, `fstEntries, `currentBlock, `currentOffset, currentBlock, currentBlock.inner
    {
      && currentBlock.inner.entries == s.current
      && dataBlocks == BlockBytes(libs.crc, opts.Interval(), s.closed)
      && fstEntries == DirectoryOf(libs.crc, opts.Interval(), s.closed)
      && currentOffset == |dataBlocks|
    }

    constructor (libs: Libs, opts: Options)
      ensures Valid() && fresh(currentBlock) && fresh(currentBlock.inner)
      ensures this.libs == libs && this.opts == opts && added == []
    {
      this.libs, this.opts := libs, opts;
      dataBlocks, fstEntries, allKeys := [], [], [];
      currentBlock := new TrackedBlockBuilder(opts.blockSize, opts.restartInterval);
      currentOffset, keyCount := 0, 0;
      firstKey, lastKey, prevKey := None, None, None;
      hasEntries := false;
      added := [];
    }

    /** A key at or below the last one is refused and changes nothing. */
    method Add(key: Bytes, value: Bytes) returns (r: Result<(), WriterError>)
      requires Valid()
      requires keyCount + 1 < U32_LIMIT
      modifies this, currentBlock, currentBlock.inner
      ensures Valid()
      ensures r == OrderCheck(old(added), key)
      ensures r.Ok? ==> added == old(added) + [Pair(key, value)]
      ensures r.Err? ==> unchanged(this) && unchanged(currentBlock) && unchanged(currentBlock.inner)
      ensures currentBlock == old(currentBlock) || (fresh(currentBlock) && fresh(currentBlock.inner))
    {
      hide SplitOf, BlockBytes, DirectoryOf, BlockState, Compare;
      if prevKey.Some? {
        match Compare(key, prevKey.value) {
          case Less => return Err(KeysOutOfOrder);
          case Equal => return Err(DuplicateKey);
          case Greater =>
            CompareIsLinear(key, prevKey.value);
        }
      }
      ghost var all := added + [Pair(key, value)];
      AscendingAppend(added, Pair(key, value));
      if !hasEntries {
        firstKey := Some(key);
        hasEntries := true;
      }
      lastKey := Some(key);
      prevKey := Some(key);
      if opts.enableBloom {
        allKeys := allKeys + [key];
      }
      AddToBlocks(key, value);
      keyCount := keyCount + 1;
      added := all;
      assert opts.enableBloom ==> allKeys == Keys(all);
      return Ok(());
    }

    /** The second half of `add`: into the current block, or into a new one after
        flushing; a fresh block never refuses. */
    method AddToBlocks(key: Bytes, value: Bytes)
      requires BlockState(added)
      modifies `dataBlocks, `fstEntries, `currentBlock, `currentOffset, currentBlock, currentBlock.inner
      ensures BlockState(added + [Pair(key, value)])
      ensures currentBlock == old(currentBlock) || (fresh(currentBlock) && fresh(currentBlock.inner))
    {
      hide HasRoom, BlockBytes, DirectoryOf, BlockBuilder.Valid, TrackedBlockBuilder.Valid;
      ghost var s, e := SplitOf(opts, added), Pair(key, value);
      assert Front(added + [e]) == added && Last(added + [e]) == e;
      var ok := currentBlock.Add(key, value);
      if !ok {
        FlushBlock(s);
        ok := currentBlock.Add(key, value);
        assert ok by { FreshBlockHasRoom(opts, e); }
        assert [] + [e] == [e];
      }
    }

    lemma FreshBlockHasRoom(o: Options, e: Entry)
      ensures HasRoom(o.blockSize, o.Interval(), [], e)
    {
    }

    /** Finishes the current block, records it in the directory and starts a fresh one. */
    method FlushBlock(ghost s: Split)
      requires currentBlock.Valid() && Blocked(s)
      requires currentBlock.inner.restartInterval == opts.Interval()
      modifies `dataBlocks, `fstEntries, `currentBlock, `currentOffset
      ensures currentBlock.Valid() && fresh(currentBlock) && fresh(currentBlock.inner)
      ensures currentBlock.inner.maxBlockSize == opts.blockSize
      ensures currentBlock.inner.restartInterval == opts.Interval()
      ensures Blocked(Split(s.closed + [s.current], []))
    {
      hide Finished, BlockBuilder.Valid, TrackedBlockBuilder.Valid;
      var blockOffset := currentOffset;
      var oldBlock := currentBlock;
      currentBlock := new TrackedBlockBuilder(opts.blockSize, opts.restartInterval);
      var blockBytes, first, last := oldBlock.Finish(libs.crc);
      assert Front(s.closed + [s.current]) == s.closed;
      fstEntries := fstEntries + [Pair(last, blockOffset)];
      currentOffset := currentOffset + |blockBytes|;
      dataBlocks := dataBlocks + blockBytes;
    }

    /** Inserts the directory entries one by one; the library refuses a key that
        does not rise. */
    method BuildFst() returns (r: Result<Bytes, WriterError>)
      ensures r == if Ascending(fstEntries) then Ok(libs.fstBuild(fstEntries)) else Err(FstBuildError)
    {
      for i := 0 to |fstEntries|
        invariant Ascending(fstEntries[..i])
      {
        if i > 0 && !Below(fstEntries[i - 1].key, fstEntries[i].key) {
          return Err(FstBuildError);
        }
        AscendingAppend(fstEntries[..i], fstEntries[i]);
        assert fstEntries[..i] + [fstEntries[i]] == fstEntries[..i + 1];
      }
      assert fstEntries[..|fstEntries|] == fstEntries;
      return Ok(libs.fstBuild(fstEntries));
    }

    /** Flushes the current block unless it is empty. */
    method FlushRest()
      requires BlockState(added)
      modifies `dataBlocks, `fstEntries, `currentBlock, `currentOffset
      ensures dataBlocks == BlockBytes(libs.crc, opts.Interval(), BlocksOf(opts, added))
      ensures fstEntries == DirectoryOf(libs.crc, opts.Interval(), BlocksOf(opts, added))
      ensures Ascending(added) ==> Ascending(fstEntries)
    {
      hide SplitOf, BlockBytes, DirectoryOf, HasRoom, BlockBuilder.Valid, Flatten, GoodBlocks;
      ghost var blocks := BlocksOf(opts, added);
      var empty := currentBlock.IsEmpty();
      if !empty {
        FlushBlock(SplitOf(opts, added));
      }
      BlocksShape(opts, added);
      if Ascending(added) {
        DirectoryAscends(libs.crc, opts.Interval(), blocks);
      }
    }

    /** Both finishes: flush what is left, build filter and directory, lay out the
        segment. The directory's ordering check never fails. */
    method FinishImpl() returns (r: Result<SegmentOutput, WriterError>)
      requires Valid()
      modifies this
      ensures r == Ok(OutputOf(libs, opts, old(added)))
    {
      hide SplitOf, BlocksOf, BlockBytes, DirectoryOf, Layout, BlockBuilder.Valid, TrackedBlockBuilder.Valid, Ascending;
      FlushRest();
      var bloomBytes := if opts.enableBloom then libs.BuildFilter(allKeys) else [];
      assert bloomBytes == FilterBytes(libs, opts, added);
      var fst := BuildFst();
      if fst.Err? {
        assert false;
      }
      var output := Assemble(libs.crc, dataBlocks, bloomBytes, fst.value, keyCount);
      assert output == SegmentOf(libs, opts, added);
      var meta := SegmentMeta(|output|, keyCount, if firstKey.Some? then firstKey.value else [],
                              if lastKey.Some? then lastKey.value else []);
      return Ok(SegmentOutput(output, meta));
    }

    /** The strict finish refuses a segment without keys. */
    method Finish() returns (r: Result<SegmentOutput, WriterError>)
      requires Valid()
      modifies this
      ensures r == if old(added) == [] then Err(EmptySegment) else Ok(OutputOf(libs, opts, old(added)))
    {
      if !hasEntries {
        return Err(EmptySegment);
      }
      r := FinishImpl();
    }

    method FinishAllowEmpty() returns (r: Result<SegmentOutput, WriterError>)
      requires Valid()
      modifies this
      ensures r == Ok(OutputOf(libs, opts, old(added)))
    {
      r := FinishImpl();
    }
  }
}
