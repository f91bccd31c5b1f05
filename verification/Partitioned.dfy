/** Key-range partitions: one segment per contiguous chunk, routed by maximum key. */
module Partitioned {
  import opened ByteStrings
  import opened Results
  import opened Entries
  import opened Libraries
  import opened SegmentFormat
  import opened SegmentReaders
  import opened SegmentWriters
  import BlockFormat
  import Segments

  /** The standard library's UTF-8 test and its lossy conversion, which leaves
      well-formed strings alone. */
  datatype Strings = Strings(utf8: Bytes -> bool, lossy: Bytes -> Bytes) {
    ghost predicate Lawful() {
      forall b :: utf8(b) ==> lossy(b) == b
    }
  }

  datatype BuiltPartition = BuiltPartition(data: Bytes, maxKey: Bytes, keyCount: u32)

  // ---------------------------------------------------------------------
  // Routing
  // ---------------------------------------------------------------------

  ghost predicate Rising(maxKeys: seq<Bytes>) {
    forall i, j :: 0 <= i < j < |maxKeys| ==> Below(maxKeys[i], maxKeys[j])
  }

  /** Rising or equal. */
  ghost predicate Ordered(maxKeys: seq<Bytes>) {
    forall i, j :: 0 <= i < j < |maxKeys| ==> AtMost(maxKeys[i], maxKeys[j])
  }

  /** i is the first partition whose maximum key is at or above the key, or the
      partition count when there is none. */
  ghost predicate IsFirstAtLeast(maxKeys: seq<Bytes>, key: Bytes, i: nat) {
    && i <= |maxKeys|
    && (forall j :: 0 <= j < i ==> Below(maxKeys[j], key))
    && (i < |maxKeys| ==> AtMost(key, maxKeys[i]))
  }

  function FirstAtLeast(maxKeys: seq<Bytes>, key: Bytes): (i: nat)
    ensures IsFirstAtLeast(maxKeys, key, i)
  {
    if maxKeys == [] then 0
    else if AtMost(key, maxKeys[0]) then 0
    else
      BelowIsTotal(key, maxKeys[0]);
      1 + FirstAtLeast(maxKeys[1..], key)
  }

  /** What the manifest compares with: a key that is not UTF-8 becomes the empty string. */
  function Target(strings: Strings, key: Bytes): Bytes {
    if strings.utf8(key) then key else []
  }

  /** A binary search may end at i: at a match, or between a smaller and a greater
      neighbour, or behind the end. */
  predicate Stops(maxKeys: seq<Bytes>, target: Bytes, i: nat) {
    && i <= |maxKeys|
    && ((i < |maxKeys| && maxKeys[i] == target)
        || ((i == 0 || Below(maxKeys[i - 1], target)) && (i == |maxKeys| || Below(target, maxKeys[i]))))
  }

  ghost predicate StopsOnlyAt(maxKeys: seq<Bytes>, target: Bytes, i: nat) {
    forall j: nat :: Stops(maxKeys, target, j) ==> j == i
  }

  /** The search may name this partition, or none. */
  predicate MayRoute(strings: Strings, maxKeys: seq<Bytes>, key: Bytes, routed: Option<nat>) {
    && (routed.Some? ==> routed.value < |maxKeys|)
    && Stops(maxKeys, Target(strings, key), if routed.Some? then routed.value else |maxKeys|)
  }

  /** On maximum keys that rise there is one answer: the first at or above the key. */
  function Routed(strings: Strings, maxKeys: seq<Bytes>, key: Bytes): (routed: Option<nat>)
    ensures routed.Some? ==> routed.value < |maxKeys|
  {
    var i := FirstAtLeast(maxKeys, Target(strings, key));
    if i < |maxKeys| then Some(i) else None
  }

  lemma FirstAtLeastIsUnique(maxKeys: seq<Bytes>, key: Bytes, i: nat)
    requires IsFirstAtLeast(maxKeys, key, i)
    ensures i == FirstAtLeast(maxKeys, key)
  {
    var j := FirstAtLeast(maxKeys, key);
    if i < j {
      AtMostBelow(key, maxKeys[i], key);
      BelowIsIrreflexive(key);
    } else if j < i {
      AtMostBelow(key, maxKeys[j], key);
      BelowIsIrreflexive(key);
    }
  }

  /** On rising keys a search ends at the first one at or above the target. */
  lemma RisingStopsOnce(maxKeys: seq<Bytes>, target: Bytes, i: nat)
    requires Rising(maxKeys)
    ensures Stops(maxKeys, target, i) <==> i == FirstAtLeast(maxKeys, target)
  {
    hide Below, FirstAtLeast;
    if Stops(maxKeys, target, i) {
      forall j | 0 <= j < i
        ensures Below(maxKeys[j], target)
      {
        if i == |maxKeys| || maxKeys[i] != target {
          AtMostBelow(maxKeys[j], maxKeys[i - 1], target);
        }
      }
      FirstAtLeastIsUnique(maxKeys, target, i);
    }
  }

  lemma RisingIsOrdered(maxKeys: seq<Bytes>)
    requires Rising(maxKeys)
    ensures Ordered(maxKeys)
  {
  }

  lemma FirstAtLeastIff(maxKeys: seq<Bytes>, target: Bytes, i: nat)
    requires Ordered(maxKeys) && i < |maxKeys|
    ensures FirstAtLeast(maxKeys, target) == i <==>
            (i > 0 ==> Below(maxKeys[i - 1], target)) && AtMost(target, maxKeys[i])
  {
    hide FirstAtLeast, Below;
    if (i > 0 ==> Below(maxKeys[i - 1], target)) && AtMost(target, maxKeys[i]) {
      forall j | 0 <= j < i
        ensures Below(maxKeys[j], target)
      {
        AtMostBelow(maxKeys[j], maxKeys[i - 1], target);
      }
      FirstAtLeastIsUnique(maxKeys, target, i);
    }
  }

  /** On ordered keys, equal ones included, a search is bound to end at i exactly when
      i is the first at or above the target and the next one is not a second match. */
  lemma OrderedStopsOnlyAt(maxKeys: seq<Bytes>, target: Bytes, i: nat)
    requires Ordered(maxKeys) && i < |maxKeys|
    ensures StopsOnlyAt(maxKeys, target, i) <==>
            && (i > 0 ==> Below(maxKeys[i - 1], target)) && AtMost(target, maxKeys[i])
            && !(i + 1 < |maxKeys| && maxKeys[i] == target && maxKeys[i + 1] == target)
  {
    hide Below, FirstAtLeast;
    var first := FirstAtLeast(maxKeys, target);
    FirstAtLeastIff(maxKeys, target, i);
    assert Stops(maxKeys, target, first);
    assert i + 1 < |maxKeys| && maxKeys[i + 1] == target ==> Stops(maxKeys, target, i + 1);
    if first == i && !(i + 1 < |maxKeys| && maxKeys[i] == target && maxKeys[i + 1] == target) {
      forall j: nat | Stops(maxKeys, target, j)
        ensures j == i
      {
        OrderedStopIsNear(maxKeys, target, i, j);
      }
    }
  }

  lemma OrderedStopIsNear(maxKeys: seq<Bytes>, target: Bytes, i: nat, j: nat)
    requires Ordered(maxKeys) && i < |maxKeys| && i == FirstAtLeast(maxKeys, target)
    requires Stops(maxKeys, target, j)
    ensures j == i || (i + 1 < |maxKeys| && maxKeys[i] == target && maxKeys[i + 1] == target)
  {
    hide Below, FirstAtLeast;
    BelowIsIrreflexive(target);
    if j < i {
      assert Below(maxKeys[j], target);
      CompareIsLinear(maxKeys[j], target);
      assert false;
    } else if j > i && (j == |maxKeys| || maxKeys[j] != target) {
      assert AtMost(maxKeys[i], maxKeys[j - 1]);
      AtMostBelow(maxKeys[i], maxKeys[j - 1], target);
      AtMostBelow(target, maxKeys[i], target);
      assert false;
    } else if j > i {
      AtMostBothWays(target, maxKeys[i]);
      AtMostBothWays(target, maxKeys[i + 1]);
    }
  }

  /** find_partition: a binary search on the maximum keys; an exact match and an
      insertion point below the end both name the partition. */
  method FindPartition(strings: Strings, maxKeys: seq<Bytes>, key: Bytes) returns (r: Option<nat>)
    ensures MayRoute(strings, maxKeys, key, r)
    ensures Rising(maxKeys) ==> r == Routed(strings, maxKeys, key)
  {
    hide FirstAtLeast, Below, Compare, Rising;
    var target := Target(strings, key);
    var lo: nat, hi: nat := 0, |maxKeys|;
    while lo < hi
      invariant lo <= hi <= |maxKeys|
      invariant lo > 0 ==> Below(maxKeys[lo - 1], target)
      invariant hi < |maxKeys| ==> Below(target, maxKeys[hi])
    {
      var mid := lo + (hi - lo) / 2;
      CompareIsLinear(maxKeys[mid], target);
      match Compare(maxKeys[mid], target) {
        case Less =>
          lo := mid + 1;
        case Equal =>
          OneRouteWhenRising(strings, maxKeys, key, Some(mid));
          return Some(mid);
        case Greater =>
          hi := mid;
      }
    }
    r := if lo < |maxKeys| then Some(lo) else None;
    OneRouteWhenRising(strings, maxKeys, key, r);
  }

  lemma OneRouteWhenRising(strings: Strings, maxKeys: seq<Bytes>, key: Bytes, routed: Option<nat>)
    ensures Rising(maxKeys) ==>
              (MayRoute(strings, maxKeys, key, routed) <==> routed == Routed(strings, maxKeys, key))
  {
    hide FirstAtLeast, Below, Rising, Stops, Target;
    if Rising(maxKeys) {
      RisingStopsOnce(maxKeys, Target(strings, key), if routed.Some? then routed.value else |maxKeys|);
    }
  }

  /** compute_partition_boundaries: as few partitions as hold all keys, at least one. */
  function PartitionCount(totalKeys: nat, keysPerPartition: nat): (count: nat)
    requires keysPerPartition > 0
    ensures count >= 1 && totalKeys <= count * keysPerPartition
    ensures count == 1 || (count - 1) * keysPerPartition < totalKeys
  {
    var q, m := totalKeys / keysPerPartition, totalKeys % keysPerPartition;
    assert totalKeys == q * keysPerPartition + m;
    assert (q + 1) * keysPerPartition == q * keysPerPartition + keysPerPartition;
    assert q >= 1 ==> (q - 1) * keysPerPartition == q * keysPerPartition - keysPerPartition;
    var count := if m > 0 then q + 1 else q;
    if count == 0 then 1 else count
  }

  // ---------------------------------------------------------------------
  // Building
  // ---------------------------------------------------------------------

  function PartitionOptions(blockSize: u32): Options {
    Options(blockSize, 16, true)
  }

  /** Adding the entries in turn: the first refusal, if any. */
  function Acceptance(es: seq<Entry>): Result<(), WriterError> {
    if es == [] then Ok(())
    else if Acceptance(Front(es)).Err? then Acceptance(Front(es))
    else OrderCheck(Front(es), Last(es).key)
  }

  lemma {:induction false} AcceptedIffAscending(es: seq<Entry>)
    ensures Acceptance(es).Ok? <==> Ascending(es)
  {
    if es != [] {
      var init, e := Front(es), Last(es);
      assert es == init + [e];
      AcceptedIffAscending(init);
      if init != [] {
        CompareIsLinear(e.key, Last(init).key);
      }
      if Acceptance(es).Ok? {
        AscendingAppend(init, e);
      }
    }
  }

  lemma {:induction false} RefusalStays(es: seq<Entry>, i: nat)
    requires i <= |es| && Acceptance(es[..i]).Err?
    ensures Acceptance(es) == Acceptance(es[..i])
    decreases |es|
  {
    if i == |es| {
      assert es[..i] == es;
    } else {
      assert Front(es)[..i] == es[..i];
      RefusalStays(Front(es), i);
    }
  }

  function Built(libs: Libs, strings: Strings, es: seq<Entry>, blockSize: u32): Result<BuiltPartition, WriterError> {
    if Acceptance(es).Err? then Err(Acceptance(es).error)
    else if es == [] then Err(EmptySegment)
    else Ok(BuiltPartition(SegmentOf(libs, PartitionOptions(blockSize), es), strings.lossy(Last(es).key), AsU32(|es|)))
  }

  /** A chunk is built exactly when it is ascending and not empty. */
  lemma BuiltIff(libs: Libs, strings: Strings, es: seq<Entry>, blockSize: u32)
    ensures Built(libs, strings, es, blockSize).Ok? <==> es != [] && Ascending(es)
    ensures Built(libs, strings, es, blockSize) == Err(EmptySegment) <==> es == []
  {
    AcceptedIffAscending(es);
    NoAddFindsItEmpty(es);
  }

  lemma {:induction false} NoAddFindsItEmpty(es: seq<Entry>)
    ensures Acceptance(es) != Err(EmptySegment)
  {
    if es != [] {
      NoAddFindsItEmpty(Front(es));
    }
  }

  /** Otherwise the refusal is that of the first entry that does not rise, a duplicate
      when it repeats the key before it. */
  lemma FirstRefusal(libs: Libs, strings: Strings, es: seq<Entry>, blockSize: u32, i: nat)
    requires 0 < i < |es| && Ascending(es[..i]) && !Below(es[i - 1].key, es[i].key)
    ensures Built(libs, strings, es, blockSize) ==
            Err(if es[i].key == es[i - 1].key then DuplicateKey else KeysOutOfOrder)
  {
    var upto := es[..i + 1];
    assert Front(upto) == es[..i] && Last(upto) == es[i];
    AcceptedIffAscending(es[..i]);
    CompareIsLinear(es[i].key, es[i - 1].key);
    RefusalStays(es, i + 1);
  }

  /** build_partition */
  method BuildPartition(libs: Libs, strings: Strings, es: seq<Entry>, blockSize: u32)
    returns (r: Result<BuiltPartition, WriterError>)
    requires |es| < U32_LIMIT
    ensures r == Built(libs, strings, es, blockSize)
  {
    hide SegmentOf, OrderCheck, SegmentWriter.Valid;
    var writer := new SegmentWriter(libs, PartitionOptions(blockSize));
    for i := 0 to |es|
      invariant writer.Valid() && fresh(writer) && fresh(writer.currentBlock) && fresh(writer.currentBlock.inner)
      invariant writer.libs == libs && writer.opts == PartitionOptions(blockSize)
      invariant writer.added == es[..i] && Acceptance(es[..i]).Ok?
    {
      var upto := es[..i + 1];
      assert Front(upto) == es[..i] && Last(upto) == es[i] && upto == es[..i] + [es[i]];
      AddedCount(writer);
      var added := writer.Add(es[i].key, es[i].value);
      if added.Err? {
        RefusalStays(es, i + 1);
        return Err(added.error);
      }
    }
    assert es[..|es|] == es;
    var output := writer.Finish();
    if output.Err? {
      return Err(output.error);
    }
    return Ok(BuiltPartition(output.value.data, strings.lossy(Last(es).key), AsU32(|es|)));
  }

  // ---------------------------------------------------------------------
  // Routed lookup is lookup
  // ---------------------------------------------------------------------

  /** The maximum keys the manifest lists for chunks built in order. */
  function MaxKeys(strings: Strings, chunks: Blocks): (r: seq<Bytes>)
    ensures |r| == |chunks|
    ensures forall i :: 0 <= i < |r| ==> r[i] == strings.lossy(LastKey(chunks[i]))
  {
    seq(|chunks|, i requires 0 <= i < |chunks| => strings.lossy(LastKey(chunks[i])))
  }

  /** Lookup in a routed partition: open its bytes, look there; no partition, no value. */
  function PartitionGot(libs: Libs, chunks: Blocks, blockSize: u32, routed: Option<nat>, key: Bytes)
    : Result<Option<Bytes>, ReaderError>
    requires routed.Some? ==> routed.value < |chunks|
  {
    if routed.None? then Ok(None)
    else
      var segment :- Opened(libs, SegmentOf(libs, PartitionOptions(blockSize), chunks[routed.value]));
      Got(libs, segment, key)
  }

  /** Lookup through a manifest whose maximum keys rise. */
  function RoutedGot(libs: Libs, strings: Strings, chunks: Blocks, blockSize: u32, key: Bytes)
    : Result<Option<Bytes>, ReaderError>
  {
    PartitionGot(libs, chunks, blockSize, Routed(strings, MaxKeys(strings, chunks), key), key)
  }

  /** The last keys of the chunks as they are. */
  function LastKeys(chunks: Blocks): (r: seq<Bytes>)
    ensures |r| == |chunks|
    ensures forall i :: 0 <= i < |r| ==> r[i] == LastKey(chunks[i])
  {
    seq(|chunks|, i requires 0 <= i < |chunks| => LastKey(chunks[i]))
  }

  /** A sorted list cut into non-empty chunks that can each be written. */
  ghost predicate Partitioning(libs: Libs, chunks: Blocks, blockSize: u32) {
    && Ascending(Flatten(chunks))
    && forall i :: 0 <= i < |chunks| ==>
         chunks[i] != [] && Segments.Writable(libs, PartitionOptions(blockSize), chunks[i])
  }

  /** The last key of the first chunk. */
  function FirstMaximum(chunks: Blocks): Bytes {
    if chunks == [] then [] else LastKey(chunks[0])
  }

  ghost predicate Utf8Maxima(strings: Strings, chunks: Blocks) {
    forall i :: 0 <= i < |chunks| ==> strings.utf8(LastKey(chunks[i]))
  }

  lemma LastKeysRise(libs: Libs, chunks: Blocks, blockSize: u32)
    requires Partitioning(libs, chunks, blockSize)
    ensures Rising(LastKeys(chunks))
  {
    hide Flatten, Below, Segments.Writable;
    forall i, j | 0 <= i < j < |chunks|
      ensures Below(LastKey(chunks[i]), LastKey(chunks[j]))
    {
      BlocksAreOrdered(chunks, i, j, Last(chunks[i]), Last(chunks[j]));
    }
  }

  /** With UTF-8 last keys the manifest lists them unchanged, so its maximum keys
      rise, as its binary search needs. */
  lemma MaxKeysRise(libs: Libs, strings: Strings, chunks: Blocks, blockSize: u32)
    requires strings.Lawful() && Partitioning(libs, chunks, blockSize) && Utf8Maxima(strings, chunks)
    ensures MaxKeys(strings, chunks) == LastKeys(chunks) && Rising(MaxKeys(strings, chunks))
  {
    hide Rising, Partitioning, LastKeys, MaxKeys;
    LastKeysRise(libs, chunks, blockSize);
  }

  /** Other last keys can collide: the standard conversion turns both 0xFE and 0xFF
      into the replacement character, and the manifest no longer rises. */
  lemma MaximaCanCollide(strings: Strings, v: Bytes, w: Bytes)
    requires strings.lossy([0xFE]) == strings.lossy([0xFF])
    ensures var chunks := [[Pair([0xFE], v)], [Pair([0xFF], w)]];
            Rising(LastKeys(chunks)) && Ordered(MaxKeys(strings, chunks)) && !Rising(MaxKeys(strings, chunks))
  {
    var chunks: Blocks := [[Pair([0xFE], v)], [Pair([0xFF], w)]];
    BelowIsIrreflexive(strings.lossy([0xFE]));
    assert !Below(MaxKeys(strings, chunks)[0], MaxKeys(strings, chunks)[1]);
  }

  /** They can even fall: "a" and a stray byte is below "a" and U+00E9, and listed as
      "a" and the replacement character, which is above. */
  lemma MaximaCanFall(strings: Strings, v: Bytes, w: Bytes)
    requires strings.Lawful() && strings.utf8(LETTER_A_AND_U_E9)
    requires strings.lossy(LETTER_A_AND_STRAY) == LETTER_A_AND_U_FFFD
    ensures var chunks := [[Pair(LETTER_A_AND_STRAY, v)], [Pair(LETTER_A_AND_U_E9, w)]];
            Rising(LastKeys(chunks)) && !Ordered(MaxKeys(strings, chunks))
  {
    var chunks: Blocks := [[Pair(LETTER_A_AND_STRAY, v)], [Pair(LETTER_A_AND_U_E9, w)]];
    assert !AtMost(MaxKeys(strings, chunks)[0], MaxKeys(strings, chunks)[1]);
  }

  /** Every chunk of a partitioning is built without a refusal, and its maximum key
      is the one the manifest lists. */
  lemma ChunksBuild(libs: Libs, strings: Strings, chunks: Blocks, blockSize: u32, i: nat)
    requires Partitioning(libs, chunks, blockSize) && i < |chunks|
    ensures Built(libs, strings, chunks[i], blockSize) ==
            Ok(BuiltPartition(SegmentOf(libs, PartitionOptions(blockSize), chunks[i]), MaxKeys(strings, chunks)[i],
                              AsU32(|chunks[i]|)))
  {
    hide Flatten, SegmentOf, Ascending;
    AcceptedIffAscending(chunks[i]);
  }

  /** Built with the filter of its keys, into blocks of the size asked for with a restart
      every 16 entries. */
  lemma PartitionIsShaped(libs: Libs, es: seq<Entry>, blockSize: u32, i: nat)
    requires libs.Lawful() && Segments.Writable(libs, PartitionOptions(blockSize), es) && es != []
    requires i < |BlocksOf(PartitionOptions(blockSize), es)|
    ensures Opened(libs, SegmentOf(libs, PartitionOptions(blockSize), es)).Ok?
    ensures var seg := Opened(libs, SegmentOf(libs, PartitionOptions(blockSize), es)).value;
            var blocks := BlocksOf(PartitionOptions(blockSize), es);
            && seg.meta.filter == libs.filterBuild(Keys(es))
            && Flatten(blocks) == es && i < |seg.meta.fst|
            && var data := BlockData(seg, seg.meta.fst[i].value);
            && data.Ok? && Segments.ShapedAs(libs, data.value, blockSize, 16, blocks[i],
                                             if i + 1 < |blocks| then blocks[i + 1] else [])
  {
    hide BlocksOf, SegmentOf, Opened, Flatten, BlockData, Segments.ShapedAs, Segments.Writable;
    Segments.WrittenMetadata(libs, PartitionOptions(blockSize), es);
    Segments.WrittenBlocks(libs, PartitionOptions(blockSize), es, i);
  }

  lemma ChunkAnswers(libs: Libs, chunks: Blocks, blockSize: u32, routed: Option<nat>, key: Bytes)
    requires libs.Lawful() && Partitioning(libs, chunks, blockSize)
    requires routed.Some? ==> routed.value < |chunks|
    ensures PartitionGot(libs, chunks, blockSize, routed, key) ==
            Ok(if routed.Some? then Lookup(chunks[routed.value], key) else None)
  {
    hide Flatten, Lookup, SegmentOf, Opened, Got, Ascending, Segments.Writable;
    if routed.Some? {
      Segments.SegmentRefinesMap(libs, PartitionOptions(blockSize), chunks[routed.value], key);
    }
  }

  /** The chunk that holds a key is the first whose last key is at or above it. */
  lemma KeyIsInOneChunk(libs: Libs, chunks: Blocks, blockSize: u32, key: Bytes, i: nat)
    requires Partitioning(libs, chunks, blockSize) && i <= |chunks|
    ensures var first := FirstAtLeast(LastKeys(chunks), key);
            && (first == |chunks| ==> Lookup(Flatten(chunks), key) == None)
            && (first < |chunks| ==> Lookup(chunks[first], key) == Lookup(Flatten(chunks), key))
            && (i < |chunks| && i != first ==> Lookup(chunks[i], key) == None)
  {
    hide Flatten, Lookup, Ascending, FirstAtLeast, Below, Segments.Writable;
    var first := FirstAtLeast(LastKeys(chunks), key);
    if first == |chunks| {
      Segments.LookupBeyondBlocks(chunks, key);
    } else {
      Segments.LookupInBlock(chunks, first, key);
    }
    if i < |chunks| && Lookup(chunks[i], key).Some? {
      BlockIsAscending(chunks, i);
      var e := Pair(key, Lookup(chunks[i], key).value);
      LookupIsMembership(chunks[i], key, e.value);
      if first < |chunks| {
        Segments.KeyIsInBlock(chunks, first, i, e);
      } else {
        FlattenHolds(chunks, i, e);
        LookupIsMembership(Flatten(chunks), key, e.value);
      }
    }
  }

  /** Whatever partition a lookup is sent to: a key the list lacks is not found there,
      and a key it holds is found in one partition only. */
  lemma PartitionAnswers(libs: Libs, chunks: Blocks, blockSize: u32, routed: Option<nat>, key: Bytes)
    requires libs.Lawful() && Partitioning(libs, chunks, blockSize)
    requires routed.Some? ==> routed.value < |chunks|
    ensures PartitionGot(libs, chunks, blockSize, routed, key) == Ok(Lookup(Flatten(chunks), key)) <==>
            Lookup(Flatten(chunks), key) == None || routed == Some(FirstAtLeast(LastKeys(chunks), key))
  {
    hide Flatten, Lookup, PartitionGot, Partitioning, FirstAtLeast, LastKeys;
    ChunkAnswers(libs, chunks, blockSize, routed, key);
    KeyIsInOneChunk(libs, chunks, blockSize, key, if routed.Some? then routed.value else 0);
  }

  /** Every partition the manifest may name for the key answers as the uncut list. */
  ghost predicate AnswersAsList(libs: Libs, strings: Strings, chunks: Blocks, blockSize: u32, key: Bytes) {
    forall routed :: MayRoute(strings, MaxKeys(strings, chunks), key, routed) ==>
                       PartitionGot(libs, chunks, blockSize, routed, key) == Ok(Lookup(Flatten(chunks), key))
  }

  /** The manifest's search for the key is bound to end at the first chunk whose last
      key is at or above it. */
  ghost predicate RoutesRight(strings: Strings, chunks: Blocks, key: Bytes) {
    StopsOnlyAt(MaxKeys(strings, chunks), Target(strings, key), FirstAtLeast(LastKeys(chunks), key))
  }

  /** Routed lookup for chunks of any keys, under whatever manifest the lossy
      conversion makes of their last keys: a key the list lacks is never found, and a
      key it holds is bound to be found exactly when its search is bound to end at the
      first chunk whose last key is at or above it. */
  lemma RoutingRefinesLookup(libs: Libs, strings: Strings, chunks: Blocks, blockSize: u32, key: Bytes)
    requires libs.Lawful() && Partitioning(libs, chunks, blockSize)
    ensures AnswersAsList(libs, strings, chunks, blockSize, key) <==>
            Lookup(Flatten(chunks), key) == None || RoutesRight(strings, chunks, key)
  {
    hide Flatten, Lookup, PartitionGot, Partitioning, FirstAtLeast, LastKeys, MaxKeys, Stops, Target;
    var maxKeys, target := MaxKeys(strings, chunks), Target(strings, key);
    var first := FirstAtLeast(LastKeys(chunks), key);
    KeyIsInOneChunk(libs, chunks, blockSize, key, 0);
    forall routed | MayRoute(strings, maxKeys, key, routed)
      ensures PartitionGot(libs, chunks, blockSize, routed, key) == Ok(Lookup(Flatten(chunks), key)) <==>
              Lookup(Flatten(chunks), key) == None || routed == Some(first)
    {
      PartitionAnswers(libs, chunks, blockSize, routed, key);
    }
    if AnswersAsList(libs, strings, chunks, blockSize, key) && Lookup(Flatten(chunks), key).Some? {
      forall j: nat | Stops(maxKeys, target, j)
        ensures j == first
      {
        StopsInRange(maxKeys, target, j);
        assert MayRoute(strings, maxKeys, key, if j < |maxKeys| then Some(j) else None);
      }
    }
  }

  lemma StopsInRange(maxKeys: seq<Bytes>, target: Bytes, i: nat)
    requires Stops(maxKeys, target, i)
    ensures i <= |maxKeys|
  {
  }

  /** A whole partitioned index answers every key as the uncut list exactly when the
      search for each listed key is bound to end at that key's chunk. */
  lemma IndexIsRightIff(libs: Libs, strings: Strings, chunks: Blocks, blockSize: u32)
    requires libs.Lawful() && Partitioning(libs, chunks, blockSize)
    ensures (forall key :: AnswersAsList(libs, strings, chunks, blockSize, key)) <==>
            (forall e :: e in Flatten(chunks) ==> RoutesRight(strings, chunks, e.key))
  {
    hide Flatten, Lookup, AnswersAsList, Partitioning, RoutesRight;
    var all := Flatten(chunks);
    ListIsAscending(libs, chunks, blockSize);
    if forall key :: AnswersAsList(libs, strings, chunks, blockSize, key) {
      forall e | e in all
        ensures RoutesRight(strings, chunks, e.key)
      {
        RoutingRefinesLookup(libs, strings, chunks, blockSize, e.key);
        LookupIsMembership(all, e.key, e.value);
      }
    }
    if forall e :: e in all ==> RoutesRight(strings, chunks, e.key) {
      forall key
        ensures AnswersAsList(libs, strings, chunks, blockSize, key)
      {
        RoutingRefinesLookup(libs, strings, chunks, blockSize, key);
        if Lookup(all, key).Some? {
          var i := LookupFinds(all, key);
          assert all[i] in all;
        }
      }
    }
  }

  /** When that is, by comparisons: on an ordered manifest, a listed key of chunk i
      must lie above the maximum before and at or below its own, and must not match
      two; a key that is not UTF-8 compares as the empty string. */
  lemma RoutesRightIff(libs: Libs, strings: Strings, chunks: Blocks, blockSize: u32, key: Bytes)
    requires Partitioning(libs, chunks, blockSize) && Ordered(MaxKeys(strings, chunks))
    requires Lookup(Flatten(chunks), key).Some?
    ensures var i, target := FirstAtLeast(LastKeys(chunks), key), Target(strings, key);
            var maxKeys := MaxKeys(strings, chunks);
            && i < |maxKeys|
            && (RoutesRight(strings, chunks, key) <==>
                && (i > 0 ==> Below(maxKeys[i - 1], target)) && AtMost(target, maxKeys[i])
                && !(i + 1 < |maxKeys| && maxKeys[i] == target && maxKeys[i + 1] == target))
  {
    hide Flatten, Lookup, Partitioning, FirstAtLeast, Ordered, Below, Stops;
    KeyIsInOneChunk(libs, chunks, blockSize, key, 0);
    OrderedStopsOnlyAt(MaxKeys(strings, chunks), Target(strings, key), FirstAtLeast(LastKeys(chunks), key));
  }

  /** On a manifest that rises, a missing key is never found, and a listed one exactly
      when it is UTF-8 and between the maxima of its chunk, or not UTF-8 and in the
      first chunk. */
  lemma RoutingIsRightIff(libs: Libs, strings: Strings, chunks: Blocks, blockSize: u32, key: Bytes)
    requires libs.Lawful() && Partitioning(libs, chunks, blockSize) && Rising(MaxKeys(strings, chunks))
    ensures Lookup(Flatten(chunks), key) == None ==> RoutedGot(libs, strings, chunks, blockSize, key) == Ok(None)
    ensures Lookup(Flatten(chunks), key).Some? ==>
              var i, maxKeys := FirstAtLeast(LastKeys(chunks), key), MaxKeys(strings, chunks);
              && i < |maxKeys|
              && (RoutedGot(libs, strings, chunks, blockSize, key) == Ok(Lookup(Flatten(chunks), key)) <==>
                  if strings.utf8(key) then (i > 0 ==> Below(maxKeys[i - 1], key)) && AtMost(key, maxKeys[i])
                  else i == 0)
  {
    hide Flatten, Lookup, PartitionGot, Partitioning, FirstAtLeast, Rising, LastKeys, Below, MaxKeys, Stops;
    var maxKeys, target := MaxKeys(strings, chunks), Target(strings, key);
    var first, stop := FirstAtLeast(LastKeys(chunks), key), FirstAtLeast(maxKeys, target);
    PartitionAnswers(libs, chunks, blockSize, Routed(strings, maxKeys, key), key);
    KeyIsInOneChunk(libs, chunks, blockSize, key, 0);
    if first < |maxKeys| {
      RisingIsOrdered(maxKeys);
      FirstAtLeastIff(maxKeys, target, first);
      EmptyIsLeast(maxKeys[first]);
      assert first > 0 ==> !Below(maxKeys[first - 1], []) by { NothingBelowEmpty(); }
    }
  }

  lemma NothingBelowEmpty()
    ensures forall a :: !Below(a, [])
  {
  }

  /** With UTF-8 last keys: a UTF-8 key is always found where the list has it, and
      any other key routes to the first partition, so it is found exactly when it is
      at or below that one's maximum. */
  lemma Utf8RoutingRefinesLookup(libs: Libs, strings: Strings, chunks: Blocks, blockSize: u32, key: Bytes)
    requires libs.Lawful() && strings.Lawful() && Partitioning(libs, chunks, blockSize) && Utf8Maxima(strings, chunks)
    ensures RoutedGot(libs, strings, chunks, blockSize, key) == Ok(Lookup(Flatten(chunks), key)) <==>
            Lookup(Flatten(chunks), key) == None || strings.utf8(key) || AtMost(key, FirstMaximum(chunks))
  {
    hide Flatten, Lookup, RoutedGot, Partitioning, FirstAtLeast, Below, Rising, MaxKeys;
    var lastKeys := LastKeys(chunks);
    MaxKeysRise(libs, strings, chunks, blockSize);
    RoutingIsRightIff(libs, strings, chunks, blockSize, key);
    if chunks != [] && AtMost(key, lastKeys[0]) {
      FirstAtLeastIsUnique(lastKeys, key, 0);
    }
  }

  /** So with UTF-8 last keys a whole partitioned index answers every key as the uncut
      list does exactly when each listed key above the first chunk's last is UTF-8. */
  lemma Utf8IndexIsRightIff(libs: Libs, strings: Strings, chunks: Blocks, blockSize: u32)
    requires libs.Lawful() && strings.Lawful() && Partitioning(libs, chunks, blockSize) && Utf8Maxima(strings, chunks)
    ensures (forall key :: RoutedGot(libs, strings, chunks, blockSize, key) == Ok(Lookup(Flatten(chunks), key))) <==>
            (forall e :: e in Flatten(chunks) ==> strings.utf8(e.key) || AtMost(e.key, FirstMaximum(chunks)))
  {
    hide Flatten, Lookup, RoutedGot, Partitioning, AtMost, FirstMaximum, Utf8Maxima;
    var all := Flatten(chunks);
    ListIsAscending(libs, chunks, blockSize);
    if forall key :: RoutedGot(libs, strings, chunks, blockSize, key) == Ok(Lookup(all, key)) {
      forall e | e in all
        ensures strings.utf8(e.key) || AtMost(e.key, FirstMaximum(chunks))
      {
        assert RoutedGot(libs, strings, chunks, blockSize, e.key) == Ok(Lookup(all, e.key));
        Utf8RoutingRefinesLookup(libs, strings, chunks, blockSize, e.key);
        LookupIsMembership(all, e.key, e.value);
      }
    }
    if forall e :: e in all ==> strings.utf8(e.key) || AtMost(e.key, FirstMaximum(chunks)) {
      forall key
        ensures RoutedGot(libs, strings, chunks, blockSize, key) == Ok(Lookup(all, key))
      {
        Utf8RoutingRefinesLookup(libs, strings, chunks, blockSize, key);
        if Lookup(all, key).Some? {
          var i := LookupFinds(all, key);
          assert all[i] in all;
        }
      }
    }
  }

  lemma ListIsAscending(libs: Libs, chunks: Blocks, blockSize: u32)
    requires Partitioning(libs, chunks, blockSize)
    ensures Ascending(Flatten(chunks))
  {
  }

  /** Two chunks around a key: one ends below it, the other begins with it. */
  function ChunksAround(low: Bytes, key: Bytes, high: Bytes, value: Bytes): Blocks {
    [[Pair(low, value)], [Pair(key, value), Pair(high, value)]]
  }

  ghost predicate CanBeBuilt(libs: Libs, chunks: Blocks, blockSize: u32) {
    forall chunk :: chunk in chunks ==>
      BlockFormat.LengthsFit(chunk) && |SegmentOf(libs, PartitionOptions(blockSize), chunk)| < U64_LIMIT
  }

  lemma ChunksAroundHold(libs: Libs, low: Bytes, key: Bytes, high: Bytes, value: Bytes, blockSize: u32)
    requires Below(low, key) && Below(key, high)
    requires CanBeBuilt(libs, ChunksAround(low, key, high, value), blockSize)
    ensures var chunks := ChunksAround(low, key, high, value);
            && Partitioning(libs, chunks, blockSize) && LastKeys(chunks) == [low, high]
            && Lookup(Flatten(chunks), key) == Some(value) && FirstAtLeast(LastKeys(chunks), key) == 1
  {
    hide SegmentOf, Below, FirstAtLeast, Lookup, BlockFormat.LengthsFit;
    var chunks := ChunksAround(low, key, high, value);
    assert Front(chunks) == [chunks[0]] && Front([chunks[0]]) == [] && Last(chunks) == chunks[1];
    assert Flatten([chunks[0]]) == [] + chunks[0];
    assert Flatten(chunks) == chunks[0] + chunks[1];
    BelowIsTransitive(low, key, high);
    assert chunks[0] in chunks && chunks[1] in chunks;
    LookupAt(Flatten(chunks), 1);
    FirstAtLeastIsUnique(LastKeys(chunks), key, 1);
  }

  const LETTER_A: Bytes := [0x61]
  const STRAY_BYTE: Bytes := [0x80]
  const U_10000: Bytes := [0xF0, 0x90, 0x80, 0x80]

  /** A key that is lost under UTF-8 maxima, a stray continuation byte above "a" and
      below U+10000: the list and the second chunk hold it, and the manifest routes it
      to the first. */
  lemma KeyCanBeLost(libs: Libs, strings: Strings, blockSize: u32, value: Bytes)
    requires libs.Lawful() && strings.Lawful()
    requires strings.utf8(LETTER_A) && strings.utf8(U_10000) && !strings.utf8(STRAY_BYTE)
    requires CanBeBuilt(libs, ChunksAround(LETTER_A, STRAY_BYTE, U_10000, value), blockSize)
    ensures var chunks := ChunksAround(LETTER_A, STRAY_BYTE, U_10000, value);
            && Partitioning(libs, chunks, blockSize) && Utf8Maxima(strings, chunks)
            && Lookup(Flatten(chunks), STRAY_BYTE) == Some(value)
            && RoutedGot(libs, strings, chunks, blockSize, STRAY_BYTE) == Ok(None)
  {
    hide RoutedGot, Flatten, Partitioning, Lookup, FirstAtLeast, CanBeBuilt, LastKeys, MaxKeys;
    var chunks := ChunksAround(LETTER_A, STRAY_BYTE, U_10000, value);
    assert Below(LETTER_A, STRAY_BYTE) && Below(STRAY_BYTE, U_10000);
    ChunksAroundHold(libs, LETTER_A, STRAY_BYTE, U_10000, value, blockSize);
    MaxKeysRise(libs, strings, chunks, blockSize);
    FirstAtLeastIsUnique([LETTER_A, U_10000], [], 0);
    LostIn(libs, strings, chunks, blockSize, STRAY_BYTE);
  }

  const LETTER_A_AND_STRAY: Bytes := [0x61, 0x80]
  const LETTER_A_AND_U_FFFD: Bytes := [0x61, 0xEF, 0xBF, 0xBD]
  const LETTER_A_AND_U_E9: Bytes := [0x61, 0xC3, 0xA9]
  const LETTER_B: Bytes := [0x62]

  /** A UTF-8 key that is lost under a manifest that rises: "a" and a stray byte are
      listed as "a" and the replacement character, which is above "a" and U+00E9. */
  lemma Utf8KeyCanBeLost(libs: Libs, strings: Strings, blockSize: u32, value: Bytes)
    requires libs.Lawful() && strings.Lawful()
    requires strings.utf8(LETTER_A_AND_U_E9) && strings.utf8(LETTER_B)
    requires strings.lossy(LETTER_A_AND_STRAY) == LETTER_A_AND_U_FFFD
    requires CanBeBuilt(libs, ChunksAround(LETTER_A_AND_STRAY, LETTER_A_AND_U_E9, LETTER_B, value), blockSize)
    ensures var chunks := ChunksAround(LETTER_A_AND_STRAY, LETTER_A_AND_U_E9, LETTER_B, value);
            && Partitioning(libs, chunks, blockSize) && Rising(MaxKeys(strings, chunks))
            && Lookup(Flatten(chunks), LETTER_A_AND_U_E9) == Some(value)
            && RoutedGot(libs, strings, chunks, blockSize, LETTER_A_AND_U_E9) == Ok(None)
  {
    hide RoutedGot, Flatten, Partitioning, Lookup, FirstAtLeast, CanBeBuilt;
    var chunks := ChunksAround(LETTER_A_AND_STRAY, LETTER_A_AND_U_E9, LETTER_B, value);
    assert Below(LETTER_A_AND_STRAY, LETTER_A_AND_U_E9) && Below(LETTER_A_AND_U_E9, LETTER_B);
    ChunksAroundHold(libs, LETTER_A_AND_STRAY, LETTER_A_AND_U_E9, LETTER_B, value, blockSize);
    assert MaxKeys(strings, chunks) == [LETTER_A_AND_U_FFFD, LETTER_B];
    assert Below(LETTER_A_AND_U_E9, LETTER_A_AND_U_FFFD) && Below(LETTER_A_AND_U_FFFD, LETTER_B);
    FirstAtLeastIsUnique([LETTER_A_AND_U_FFFD, LETTER_B], LETTER_A_AND_U_E9, 0);
    LostIn(libs, strings, chunks, blockSize, LETTER_A_AND_U_E9);
  }

  /** A key of the second of two chunks that is routed to the first is not found. */
  lemma LostIn(libs: Libs, strings: Strings, chunks: Blocks, blockSize: u32, key: Bytes)
    requires libs.Lawful() && Partitioning(libs, chunks, blockSize) && |chunks| == 2
    requires Routed(strings, MaxKeys(strings, chunks), key) == Some(0) && FirstAtLeast(LastKeys(chunks), key) == 1
    ensures RoutedGot(libs, strings, chunks, blockSize, key) == Ok(None)
  {
    hide PartitionGot, Partitioning, Lookup, Flatten, FirstAtLeast, LastKeys, MaxKeys, Routed;
    ChunkAnswers(libs, chunks, blockSize, Some(0), key);
    KeyIsInOneChunk(libs, chunks, blockSize, key, 0);
  }
}
