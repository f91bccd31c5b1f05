/** A base segment under newer delta segments: newest-first lookup, the merge into
    a new base, and every run of pushes and background merges. */
module Layered {
  import opened ByteStrings
  import opened Results
  import opened Entries
  import opened Libraries
  import opened SegmentFormat
  import opened SegmentReaders
  import opened SegmentWriters
  import BlockFormat
  import Segments

  const TOMBSTONE_MARKER: byte := 0xFF

  const MERGE_OPTIONS := Options(64 * 1024, 16, true)

  function TombstoneValue(): Bytes { [TOMBSTONE_MARKER] }

  predicate IsTombstone(value: Bytes) {
    |value| == 1 && value[0] == TOMBSTONE_MARKER
  }

  /** A layer is the ascending list of a segment; a stack lists them newest first. */
  type Layer = seq<Entry>

  ghost predicate AllAscending(layers: seq<Layer>) {
    forall i :: 0 <= i < |layers| ==> Ascending(layers[i])
  }

  /** The newest value a stack holds for a key, tombstones included. */
  function Newest(layers: seq<Layer>, key: Bytes): Option<Bytes> {
    if layers == [] then None
    else if Lookup(layers[0], key).Some? then Lookup(layers[0], key)
    else Newest(layers[1..], key)
  }

  function Live(value: Option<Bytes>): Option<Bytes> {
    if value.Some? && IsTombstone(value.value) then None else value
  }

  /** What a reader of the stack must see: the newest value, unless it is a deletion. */
  function Visible(layers: seq<Layer>, key: Bytes): Option<Bytes> {
    Live(Newest(layers, key))
  }

  /** A tombstone as the module's header words it. */
  predicate StartsWithMarker(value: Bytes) {
    value != [] && value[0] == TOMBSTONE_MARKER
  }

  /** The wording and the code hide the same keys exactly when a newest value that
      starts with the marker has no second byte. */
  lemma HiddenAsWordedIff(layers: seq<Layer>, key: Bytes)
    requires Newest(layers, key).Some?
    ensures var v := Newest(layers, key).value;
            (Visible(layers, key) == None <==> StartsWithMarker(v)) <==> |v| <= 1 || v[0] != TOMBSTONE_MARKER
  {
  }

  /** The value 0xFF alone hides its key, and with a second byte it is a value, whatever
      lies below. */
  lemma OnlyTheMarkerAloneHides(older: seq<Layer>, key: Bytes, x: byte)
    ensures Visible([[Pair(key, [0xFF])]] + older, key) == None
    ensures StartsWithMarker([0xFF, x]) && Visible([[Pair(key, [0xFF, x])]] + older, key) == Some([0xFF, x])
  {
    NewestOnTop(older, key, [0xFF]);
    NewestOnTop(older, key, [0xFF, x]);
  }

  lemma NewestOnTop(older: seq<Layer>, key: Bytes, value: Bytes)
    ensures Newest([[Pair(key, value)]] + older, key) == Some(value)
  {
    var newest: Layer := [Pair(key, value)];
    LookupAt(newest, 0);
    assert ([newest] + older)[0] == newest;
  }

  lemma {:induction false} NewestConcat(a: seq<Layer>, b: seq<Layer>, key: Bytes)
    ensures Newest(a + b, key) == if Newest(a, key).Some? then Newest(a, key) else Newest(b, key)
  {
    if a == [] {
      assert a + b == b;
    } else {
      NewestConcat(a[1..], b, key);
      assert (a + b)[1..] == a[1..] + b;
    }
  }

  // ---------------------------------------------------------------------
  // Lookup through the stack
  // ---------------------------------------------------------------------

  /** LayeredReader::get: skips a segment whose filter or block search misses. */
  function LayeredGot(libs: Libs, segments: seq<Segment>, key: Bytes): Result<Option<Bytes>, ReaderError> {
    if segments == [] then Ok(None)
    else if !libs.MightContain(segments[0].meta.filter, key) then LayeredGot(libs, segments[1..], key)
    else
      var found :- Got(libs, segments[0], key);
      if found.Some? then Ok(Live(found)) else LayeredGot(libs, segments[1..], key)
  }

  method LayeredGet(libs: Libs, segments: seq<Segment>, key: Bytes) returns (r: Result<Option<Bytes>, ReaderError>)
    ensures r == LayeredGot(libs, segments, key)
  {
    hide Got;
    for i := 0 to |segments|
      invariant LayeredGot(libs, segments, key) == LayeredGot(libs, segments[i..], key)
    {
      assert segments[i..][1..] == segments[i + 1..];
      if libs.MightContain(segments[i].meta.filter, key) {
        var found := Get(libs, segments[i], key);
        if found.Err? {
          return Err(found.error);
        }
        if found.value.Some? {
          if IsTombstone(found.value.value) {
            return Ok(None);
          }
          return Ok(found.value);
        }
      }
    }
    return Ok(None);
  }

  /** A segment that does not end the search: its filter or its block search misses. */
  ghost predicate Passes(libs: Libs, segment: Segment, key: Bytes) {
    !libs.MightContain(segment.meta.filter, key) || Got(libs, segment, key) == Ok(None)
  }

  /** Over any segments the first that does not pass decides: its error is the answer,
      or its value unless that is a tombstone, whatever lies below it. */
  lemma {:induction false} FirstAnswerDecides(libs: Libs, segments: seq<Segment>, key: Bytes, i: nat)
    requires i <= |segments| && forall j :: 0 <= j < i ==> Passes(libs, segments[j], key)
    requires i < |segments| ==> !Passes(libs, segments[i], key)
    ensures LayeredGot(libs, segments, key) ==
            if i == |segments| then Ok(None)
            else if Got(libs, segments[i], key).Err? then Got(libs, segments[i], key)
            else Ok(Live(Got(libs, segments[i], key).value))
    decreases i
  {
    hide Got;
    if i > 0 {
      FirstAnswerDecides(libs, segments[1..], key, i - 1);
    }
  }

  /** The segment is the opened output of a writer that was given this layer. */
  ghost predicate Written(libs: Libs, segment: Segment, layer: Layer) {
    exists o :: Segments.Writable(libs, o, layer) && Opened(libs, SegmentOf(libs, o, layer)) == Ok(segment)
  }

  ghost predicate WrittenStack(libs: Libs, segments: seq<Segment>, layers: seq<Layer>) {
    && |segments| == |layers|
    && forall i :: 0 <= i < |segments| ==> Written(libs, segments[i], layers[i])
  }

  lemma WrittenSegmentAnswers(libs: Libs, segment: Segment, layer: Layer, key: Bytes)
    requires libs.Lawful() && Written(libs, segment, layer)
    ensures Ascending(layer) && BlockFormat.LengthsFit(layer)
    ensures Got(libs, segment, key) == Ok(Lookup(layer, key))
    ensures !libs.MightContain(segment.meta.filter, key) ==> Lookup(layer, key) == None
    ensures Listed(libs, segment) == Ok(layer)
  {
    hide Opened, SegmentOf, Listed, Lookup, BlockForKey, SearchedBlock, BlockData;
    var o :| Segments.Writable(libs, o, layer) && Opened(libs, SegmentOf(libs, o, layer)) == Ok(segment);
    Segments.SegmentRefinesMap(libs, o, layer, key);
    Segments.ScanRoundTrip(libs, o, layer);
  }

  /** Newest-first lookup through the segments sees exactly the visible value. */
  lemma {:induction false} LayeredGetIsVisible(libs: Libs, segments: seq<Segment>, layers: seq<Layer>, key: Bytes)
    requires libs.Lawful() && WrittenStack(libs, segments, layers)
    ensures LayeredGot(libs, segments, key) == Ok(Visible(layers, key))
  {
    hide Written, Got, Lookup;
    if segments != [] {
      WrittenSegmentAnswers(libs, segments[0], layers[0], key);
      LayeredGetIsVisible(libs, segments[1..], layers[1..], key);
    }
  }

  // ---------------------------------------------------------------------
  // Merging
  // ---------------------------------------------------------------------

  /** One layer written over a map in key order: a tombstone removes its key. */
  function Applied(m: seq<Entry>, layer: Layer): seq<Entry> {
    if layer == [] then m
    else
      var before, e := Applied(m, Front(layer)), Last(layer);
      if IsTombstone(e.value) then Remove(before, e.key) else Insert(before, e.key, e.value)
  }

  /** All layers, the oldest applied first. */
  function Merged(layers: seq<Layer>): seq<Entry> {
    if layers == [] then [] else Applied(Merged(layers[1..]), layers[0])
  }

  ghost predicate NoTombstones(es: seq<Entry>) {
    forall e :: e in es ==> !IsTombstone(e.value)
  }

  /** Reading and applying the segments, the oldest first; the first error ends it. */
  function Gathered(libs: Libs, segments: seq<Segment>): Result<seq<Entry>, ReaderError> {
    if segments == [] then Ok([])
    else
      var older :- Gathered(libs, segments[1..]);
      var entries :- Listed(libs, segments[0]);
      Ok(Applied(older, entries))
  }

  /** Gathering fails exactly when some segment does not list, with the error of the
      oldest that does not. */
  lemma {:induction false} GatheringFailsIff(libs: Libs, segments: seq<Segment>)
    ensures Gathered(libs, segments).Err? <==> exists i :: 0 <= i < |segments| && Listed(libs, segments[i]).Err?
    ensures Gathered(libs, segments).Err? ==>
              exists i :: 0 <= i < |segments| && Listed(libs, segments[i]) == Err(Gathered(libs, segments).error)
                          && forall j :: i < j < |segments| ==> Listed(libs, segments[j]).Ok?
  {
    hide Listed, Applied;
    if segments != [] {
      GatheringFailsIff(libs, segments[1..]);
      if Gathered(libs, segments[1..]).Err? {
        var i :| 0 <= i < |segments[1..]|
                 && Listed(libs, segments[1..][i]) == Err(Gathered(libs, segments[1..]).error)
                 && forall j :: i < j < |segments[1..]| ==> Listed(libs, segments[1..][j]).Ok?;
        assert segments[i + 1] == segments[1..][i];
        assert forall j :: i + 1 < j < |segments| ==> segments[j] == segments[1..][j - 1];
      } else {
        assert forall j :: 0 < j < |segments| ==> segments[j] == segments[1..][j - 1];
      }
    }
  }

  /** merge_segments, on any segments: into an ordered map, then a strict write. */
  method MergeSegments(libs: Libs, segments: seq<Segment>) returns (r: Result<Bytes, ReaderError>)
    requires Gathered(libs, segments).Ok? ==> |Gathered(libs, segments).value| < U32_LIMIT
    ensures var merged := Gathered(libs, segments);
            r == if merged.Err? then Err(merged.error)
                 else if merged.value == [] then Err(FstError)
                 else Ok(SegmentOf(libs, MERGE_OPTIONS, merged.value))
  {
    hide Listed, SegmentOf, Applied;
    var merged: seq<Entry> := [];
    var i := |segments|;
    while i > 0
      invariant 0 <= i <= |segments|
      invariant Gathered(libs, segments[i..]) == Ok(merged)
    {
      i := i - 1;
      assert segments[i..][1..] == segments[i + 1..];
      var entries := Iter(libs, segments[i]);
      if entries.Err? {
        ErrorEndsGathering(libs, segments, i);
        return Err(entries.error);
      }
      merged := ApplyLayer(merged, entries.value);
    }
    assert segments[0..] == segments;
    GatheredAscends(libs, segments);
    r := WriteMerged(libs, merged);
  }

  lemma {:induction false} ErrorEndsGathering(libs: Libs, segments: seq<Segment>, i: nat)
    requires i <= |segments| && Gathered(libs, segments[i..]).Err?
    ensures Gathered(libs, segments) == Gathered(libs, segments[i..])
    decreases |segments|
  {
    hide Listed, Applied;
    if i > 0 {
      assert segments[i..] == segments[1..][i - 1..];
      ErrorEndsGathering(libs, segments[1..], i - 1);
    } else {
      assert segments[0..] == segments;
    }
  }

  /** The ordered map stays ordered whatever a segment lists. */
  lemma {:induction false} AppliedAscends(m: seq<Entry>, layer: seq<Entry>)
    requires Ascending(m)
    ensures Ascending(Applied(m, layer))
  {
    hide Ascending;
    if layer != [] {
      AppliedAscends(m, Front(layer));
      RemoveIsMapRemoval(Applied(m, Front(layer)), Last(layer).key);
      InsertIsMapUpdate(Applied(m, Front(layer)), Last(layer).key, Last(layer).value);
    }
  }

  lemma {:induction false} GatheredAscends(libs: Libs, segments: seq<Segment>)
    ensures Gathered(libs, segments).Ok? ==> Ascending(Gathered(libs, segments).value)
  {
    hide Listed, Applied;
    if segments != [] {
      GatheredAscends(libs, segments[1..]);
      if Gathered(libs, segments).Ok? {
        AppliedAscends(Gathered(libs, segments[1..]).value, Listed(libs, segments[0]).value);
      }
    }
  }

  /** Written segments gather without an error to the merged layers. */
  lemma {:induction false} WrittenStackGathers(libs: Libs, segments: seq<Segment>, layers: seq<Layer>)
    requires libs.Lawful() && WrittenStack(libs, segments, layers)
    ensures Gathered(libs, segments) == Ok(Merged(layers))
  {
    hide Listed, Applied, Written, Got, Lookup;
    if segments != [] {
      WrittenSegmentAnswers(libs, segments[0], layers[0], []);
      WrittenStackGathers(libs, segments[1..], layers[1..]);
    }
  }

  method ApplyLayer(m: seq<Entry>, entries: seq<Entry>) returns (merged: seq<Entry>)
    ensures merged == Applied(m, entries)
  {
    merged := m;
    for i := 0 to |entries|
      invariant merged == Applied(m, entries[..i])
    {
      assert Front(entries[..i + 1]) == entries[..i] && Last(entries[..i + 1]) == entries[i];
      if IsTombstone(entries[i].value) {
        merged := Remove(merged, entries[i].key);
      } else {
        merged := Insert(merged, entries[i].key, entries[i].value);
      }
    }
    assert entries[..|entries|] == entries;
  }

  method WriteMerged(libs: Libs, merged: seq<Entry>) returns (r: Result<Bytes, ReaderError>)
    requires Ascending(merged) && |merged| < U32_LIMIT
    ensures r == if merged == [] then Err(FstError) else Ok(SegmentOf(libs, MERGE_OPTIONS, merged))
  {
    hide SegmentOf, OrderCheck, SegmentWriter.Valid, Ascending;
    var writer := new SegmentWriter(libs, MERGE_OPTIONS);
    for i := 0 to |merged|
      invariant writer.Valid() && fresh(writer) && fresh(writer.currentBlock) && fresh(writer.currentBlock.inner)
      invariant writer.libs == libs && writer.opts == MERGE_OPTIONS
      invariant writer.added == merged[..i]
    {
      AscendingIsAccepted(merged, i);
      AddedCount(writer);
      var added := writer.Add(merged[i].key, merged[i].value);
      if added.Err? {
        assert false;
      }
    }
    assert merged[..|merged|] == merged;
    var output := writer.Finish();
    return if output.Err? then Err(FstError) else Ok(output.value.data);
  }

  lemma AllWrittenAscend(libs: Libs, segments: seq<Segment>, layers: seq<Layer>)
    requires libs.Lawful() && WrittenStack(libs, segments, layers)
    ensures AllAscending(layers)
    ensures forall i :: 0 <= i < |layers| ==> BlockFormat.LengthsFit(layers[i])
  {
    hide Written, Got, Lookup, Listed;
    forall i | 0 <= i < |layers|
      ensures Ascending(layers[i]) && BlockFormat.LengthsFit(layers[i])
    {
      WrittenSegmentAnswers(libs, segments[i], layers[i], []);
    }
  }

  /** Applying a layer overlays it on the map and leaves no tombstone behind. */
  lemma {:induction false} AppliedIsOverlay(m: seq<Entry>, layer: Layer)
    requires Ascending(m) && Ascending(layer) && NoTombstones(m)
    ensures Ascending(Applied(m, layer)) && NoTombstones(Applied(m, layer))
    ensures forall key :: Lookup(Applied(m, layer), key) ==
                          if Lookup(layer, key).Some? then Live(Lookup(layer, key)) else Lookup(m, key)
    ensures forall e :: e in Applied(m, layer) ==> e in m || e in layer
  {
    if layer != [] {
      var init, e := Front(layer), Last(layer);
      assert layer == init + [e];
      AscendingParts(init, [e], e, e);
      AppliedIsOverlay(m, init);
      var before := Applied(m, init);
      if IsTombstone(e.value) {
        RemoveIsMapRemoval(before, e.key);
      } else {
        InsertIsMapUpdate(before, e.key, e.value);
      }
      forall key
        ensures Lookup(Applied(m, layer), key) ==
                if Lookup(layer, key).Some? then Live(Lookup(layer, key)) else Lookup(m, key)
      {
        LookupConcat(init, [e], key);
        if key == e.key {
          LookupAboveAll(init, key);
        }
      }
    }
  }

  /** The merged list is the visible map of the stack, and holds no tombstone. */
  lemma {:induction false} MergedIsVisible(layers: seq<Layer>)
    requires AllAscending(layers)
    ensures Ascending(Merged(layers)) && NoTombstones(Merged(layers))
    ensures forall key :: Lookup(Merged(layers), key) == Visible(layers, key)
  {
    hide Ascending, NoTombstones, Applied, Lookup;
    if layers == [] {
      EmptyIsMerged();
    } else {
      MergedIsVisible(layers[1..]);
      AppliedIsOverlay(Merged(layers[1..]), layers[0]);
    }
  }

  lemma EmptyIsMerged()
    ensures Ascending<Bytes>([]) && NoTombstones([])
    ensures forall key :: Lookup<Bytes>([], key) == None
  {
  }

  lemma {:induction false} MergedLengthsFit(layers: seq<Layer>)
    requires AllAscending(layers)
    requires forall i :: 0 <= i < |layers| ==> BlockFormat.LengthsFit(layers[i])
    ensures BlockFormat.LengthsFit(Merged(layers))
  {
    if layers != [] {
      MergedLengthsFit(layers[1..]);
      MergedIsVisible(layers[1..]);
      AppliedIsOverlay(Merged(layers[1..]), layers[0]);
    }
  }

  // ---------------------------------------------------------------------
  // What a merge preserves
  // ---------------------------------------------------------------------

  /** The keys the layers name and the stack still shows. */
  ghost function LiveKeys(layers: seq<Layer>): set<Bytes> {
    set i, j | 0 <= i < |layers| && 0 <= j < |layers[i]| && Visible(layers, layers[i][j].key).Some?
      :: layers[i][j].key
  }

  lemma {:induction false} NewestIsSomewhere(layers: seq<Layer>, key: Bytes) returns (i: nat, j: nat)
    requires Newest(layers, key).Some?
    ensures i < |layers| && j < |layers[i]| && layers[i][j].key == key
  {
    hide Lookup;
    if Lookup(layers[0], key).Some? {
      i := 0;
      j := LookupFinds(layers[0], key);
    } else {
      i, j := NewestIsSomewhere(layers[1..], key);
      i := i + 1;
    }
  }

  /** The merged segment holds one key for each live key of the stack. */
  lemma MergedKeyCount(layers: seq<Layer>)
    requires AllAscending(layers)
    ensures |Merged(layers)| == |LiveKeys(layers)|
    ensures Merged(layers) == [] <==> forall key :: Visible(layers, key) == None
  {
    hide Merged, Visible, Newest, Lookup, Ascending;
    var merged := Merged(layers);
    MergedIsVisible(layers);
    KeysAreDistinct(merged);
    forall key
      ensures key in KeySet(merged) <==> key in LiveKeys(layers)
    {
      InKeySet(merged, key);
      assert Lookup(merged, key) == Visible(layers, key);
      if Visible(layers, key).Some? {
        VisibleIsNewest(layers, key);
        var i, j := NewestIsSomewhere(layers, key);
      }
    }
    assert KeySet(merged) == LiveKeys(layers);
    if merged == [] {
      forall key
        ensures Visible(layers, key) == None
      {
        EmptyIsMerged();
        assert Lookup(merged, key) == Visible(layers, key);
      }
    } else {
      LookupAt(merged, 0);
      assert Lookup(merged, merged[0].key) == Visible(layers, merged[0].key);
    }
  }

  lemma VisibleIsNewest(layers: seq<Layer>, key: Bytes)
    requires Visible(layers, key).Some?
    ensures Newest(layers, key) == Visible(layers, key)
  {
  }

  /** Merge preserves the visible index: over written segments it writes the merged
      list, refusing only when no key is left; the merged segment opens, answers
      every key as the stack did, scans to the live keys in order without a
      tombstone, and counts them in its footer. */
  lemma MergePreservesIndex(libs: Libs, segments: seq<Segment>, layers: seq<Layer>, key: Bytes)
    requires libs.Lawful() && WrittenStack(libs, segments, layers)
    requires |Merged(layers)| < U32_LIMIT && |SegmentOf(libs, MERGE_OPTIONS, Merged(layers))| < U64_LIMIT
    ensures var after := Opened(libs, SegmentOf(libs, MERGE_OPTIONS, Merged(layers)));
            && Gathered(libs, segments) == Ok(Merged(layers)) && after.Ok?
            && Got(libs, after.value, key) == LayeredGot(libs, segments, key)
            && Listed(libs, after.value) == Ok(Merged(layers)) && NoTombstones(Merged(layers))
            && after.value.meta.footer.keyCount == |LiveKeys(layers)|
            && Written(libs, after.value, Merged(layers))
  {
    hide Merged, Gathered, Written, SegmentOf, Opened, Got, Listed, LayeredGot, LiveKeys, Layout, NoTombstones;
    var merged := Merged(layers);
    WrittenStackGathers(libs, segments, layers);
    AllWrittenAscend(libs, segments, layers);
    MergedIsVisible(layers);
    MergedLengthsFit(layers);
    MergedKeyCount(layers);
    Segments.SegmentRefinesMap(libs, MERGE_OPTIONS, merged, key);
    Segments.ScanRoundTrip(libs, MERGE_OPTIONS, merged);
    Segments.WrittenMetadata(libs, MERGE_OPTIONS, merged);
    LayeredGetIsVisible(libs, segments, layers, key);
    WrittenByOptions(libs, Opened(libs, SegmentOf(libs, MERGE_OPTIONS, merged)).value, merged, MERGE_OPTIONS);
  }

  /** How a merge writes: with the filter of the live keys, into blocks of 64 KiB with a
      restart every 16 entries. */
  lemma MergedIsShaped(libs: Libs, merged: seq<Entry>, i: nat)
    requires libs.Lawful() && Segments.Writable(libs, MERGE_OPTIONS, merged) && merged != []
    requires i < |BlocksOf(MERGE_OPTIONS, merged)|
    ensures Opened(libs, SegmentOf(libs, MERGE_OPTIONS, merged)).Ok?
    ensures var seg := Opened(libs, SegmentOf(libs, MERGE_OPTIONS, merged)).value;
            var blocks := BlocksOf(MERGE_OPTIONS, merged);
            && seg.meta.filter == libs.filterBuild(Keys(merged))
            && Flatten(blocks) == merged && i < |seg.meta.fst|
            && var data := BlockData(seg, seg.meta.fst[i].value);
            && data.Ok? && Segments.ShapedAs(libs, data.value, 0x1_0000, 16, blocks[i],
                                             if i + 1 < |blocks| then blocks[i + 1] else [])
  {
    hide BlocksOf, SegmentOf, Opened, Flatten, BlockData, Segments.ShapedAs, Segments.Writable;
    Segments.WrittenMetadata(libs, MERGE_OPTIONS, merged);
    Segments.WrittenBlocks(libs, MERGE_OPTIONS, merged, i);
  }

  lemma WrittenByOptions(libs: Libs, segment: Segment, layer: Layer, o: Options)
    requires Segments.Writable(libs, o, layer) && Opened(libs, SegmentOf(libs, o, layer)) == Ok(segment)
    ensures Written(libs, segment, layer)
  {
  }

  // ---------------------------------------------------------------------
  // Where a merge may stand in a stack
  // ---------------------------------------------------------------------

  lemma NewestOfOne(layer: Layer, key: Bytes)
    ensures Newest([layer], key) == Lookup(layer, key)
  {
    hide Lookup;
    assert [layer][1..] == [];
  }

  lemma LiveValueIsNoTombstone(layers: seq<Layer>, key: Bytes)
    ensures Visible(layers, key).Some? ==> !IsTombstone(Visible(layers, key).value)
  {
  }

  /** Merging a run in the middle of a stack drops its tombstones, so a key keeps
      its visible value except in exactly one case: the run deletes it, no newer
      layer mentions it and the older layers still show it. */
  lemma {:induction false} MergeRunKeepsKey(newer: seq<Layer>, run: seq<Layer>, older: seq<Layer>, key: Bytes)
    requires AllAscending(run)
    ensures Visible(newer + [Merged(run)] + older, key) == Visible(newer + run + older, key) <==>
            !(Newest(newer, key) == None && Newest(run, key).Some? && IsTombstone(Newest(run, key).value)
              && Visible(older, key).Some?)
  {
    hide Merged, Newest, Ascending;
    MergedIsVisible(run);
    assert Lookup(Merged(run), key) == Visible(run, key);
    NewestOfOne(Merged(run), key);
    NewestConcat(newer + [Merged(run)], older, key);
    NewestConcat(newer, [Merged(run)], key);
    NewestConcat(newer + run, older, key);
    NewestConcat(newer, run, key);
    LiveValueIsNoTombstone(run, key);
  }

  /** A merge that reaches down to the base keeps every key. */
  lemma MergeToBaseKeepsKey(newer: seq<Layer>, run: seq<Layer>, key: Bytes)
    requires AllAscending(run)
    ensures Visible(newer + [Merged(run)], key) == Visible(newer + run, key)
  {
    hide Merged, Ascending;
    MergeRunKeepsKey(newer, run, [], key);
    assert newer + [Merged(run)] + [] == newer + [Merged(run)] && newer + run + [] == newer + run;
  }

  /** Merging is canonical: stacks with the same visible map merge to the same list,
      hence to the same bytes. */
  lemma MergeIsCanonical(a: seq<Layer>, b: seq<Layer>)
    requires AllAscending(a) && AllAscending(b)
    requires forall key :: Visible(a, key) == Visible(b, key)
    ensures Merged(a) == Merged(b)
  {
    hide Merged, Ascending, Visible, Lookup;
    MergedIsVisible(a);
    MergedIsVisible(b);
    forall key
      ensures Lookup(Merged(a), key) == Lookup(Merged(b), key)
    {
      assert Lookup(Merged(a), key) == Visible(a, key) && Lookup(Merged(b), key) == Visible(b, key);
    }
    AscendingListsAreMaps(Merged(a), Merged(b));
  }

  /** So merging the bottom of a stack first and the rest later writes what one
      merge of everything would. */
  lemma MergeInStagesIsMerge(newer: seq<Layer>, run: seq<Layer>)
    requires AllAscending(newer) && AllAscending(run)
    ensures Merged(newer + [Merged(run)]) == Merged(newer + run)
  {
    hide Merged, Ascending, Visible;
    MergedIsVisible(run);
    forall key
      ensures Visible(newer + [Merged(run)], key) == Visible(newer + run, key)
    {
      MergeToBaseKeepsKey(newer, run, key);
    }
    MergeIsCanonical(newer + [Merged(run)], newer + run);
  }

  /** One that stops above the base can bring a deleted key back. */
  lemma MergeAboveBaseCanResurrect(key: Bytes, value: Bytes)
    requires !IsTombstone(value)
    ensures var deletion, base := [Pair(key, TombstoneValue())], [Pair(key, value)];
            && Visible([deletion, base], key) == None
            && Visible([Merged([deletion]), base], key) == Some(value)
  {
    var deletion: Layer, base: Layer := [Pair(key, TombstoneValue())], [Pair(key, value)];
    NewestOfOne(base, key);
    assert [deletion, base][1..] == [base] && [Merged([deletion]), base][1..] == [base];
    NewestOfOne(deletion, key);
    MergedIsVisible([deletion]);
    assert Lookup(Merged([deletion]), key) == Visible([deletion], key);
  }

  // ---------------------------------------------------------------------
  // Every run of pushes and background merges
  // ---------------------------------------------------------------------

  /** The stack readers use, and the input a running merge took from its bottom. */
  datatype Index = Index(layers: seq<Layer>, job: Option<seq<Layer>>)

  datatype Action =
    | Push(delta: Layer)
    | BeginMerge(depth: nat)
    | CommitMerge
    | AbandonMerge

  /** A merge takes the oldest `depth` layers; deltas may land while it runs; its
      commit replaces the layers it took. Without a surviving key there is nothing
      to commit, since the strict finish refuses an empty segment. */
  predicate Enabled(s: Index, a: Action) {
    match a
    case Push(_) => true
    case BeginMerge(depth) => s.job.None? && 1 <= depth <= |s.layers|
    case CommitMerge => s.job.Some? && |s.job.value| <= |s.layers| && Merged(s.job.value) != []
    case AbandonMerge => s.job.Some?
  }

  function Next(s: Index, a: Action): Index
    requires Enabled(s, a)
  {
    match a
    case Push(delta) => s.(layers := [delta] + s.layers)
    case BeginMerge(depth) => s.(job := Some(s.layers[|s.layers| - depth..]))
    case CommitMerge => Index(s.layers[..|s.layers| - |s.job.value|] + [Merged(s.job.value)], None)
    case AbandonMerge => s.(job := None)
  }

  /** The states of a run, given by its actions, from a base on. */
  function Reached(base: Layer, run: seq<Action>): Option<Index> {
    if run == [] then Some(Index([base], None))
    else
      var before := Reached(base, Front(run));
      if before.Some? && Enabled(before.value, Last(run)) then Some(Next(before.value, Last(run))) else None
  }

  /** The deltas of a run, newest first. */
  function Pushed(run: seq<Action>): seq<Layer> {
    if run == [] then []
    else if Last(run).Push? then [Last(run).delta] + Pushed(Front(run))
    else Pushed(Front(run))
  }

  /** A running merge's input is still what lies at the bottom of the stack. */
  ghost predicate Consistent(s: Index) {
    && AllAscending(s.layers)
    && (s.job.Some? ==>
          0 < |s.job.value| <= |s.layers| && s.layers[|s.layers| - |s.job.value|..] == s.job.value)
  }

  lemma StepIsConsistent(s: Index, a: Action, key: Bytes)
    requires Consistent(s) && Enabled(s, a) && (a.Push? ==> Ascending(a.delta))
    ensures Consistent(Next(s, a))
    ensures Visible(Next(s, a).layers, key) ==
            Visible(if a.Push? then [a.delta] + s.layers else s.layers, key)
  {
    hide Ascending, Visible, Merged;
    if a.CommitMerge? {
      var n := |s.layers| - |s.job.value|;
      MergedIsVisible(s.job.value);
      assert s.layers == s.layers[..n] + s.job.value;
      MergeToBaseKeepsKey(s.layers[..n], s.job.value, key);
    }
  }

  /** Background merges are invisible: in every run, whatever lands while they are
      under way and however they end, the stack shows the pushed deltas over the
      base. */
  lemma {:induction false} RunsShowPushedDeltas(base: Layer, run: seq<Action>, key: Bytes)
    requires Ascending(base) && AllAscending(Pushed(run)) && Reached(base, run).Some?
    ensures Consistent(Reached(base, run).value)
    ensures Visible(Reached(base, run).value.layers, key) == Visible(Pushed(run) + [base], key)
  {
    hide Ascending, Merged, Enabled, Next;
    if run == [] {
      assert Pushed(run) + [base] == [base];
    } else {
      var init, a := Front(run), Last(run);
      if a.Push? {
        assert Pushed(run)[1..] == Pushed(init) && Pushed(run)[0] == a.delta;
      }
      RunsShowPushedDeltas(base, init, key);
      var s := Reached(base, init).value;
      StepIsConsistent(s, a, key);
      if a.Push? {
        NewestConcat([a.delta], s.layers, key);
        NewestConcat([a.delta], Pushed(init) + [base], key);
        assert Pushed(run) + [base] == [a.delta] + (Pushed(init) + [base]);
      }
    }
  }

  lemma ReachedStep(base: Layer, run: seq<Action>, a: Action)
    ensures Reached(base, run + [a]) ==
            var before := Reached(base, run);
            if before.Some? && Enabled(before.value, a) then Some(Next(before.value, a)) else None
  {
    hide Enabled, Next;
    assert Front(run + [a]) == run;
  }

  lemma CommitReplacesBottom(s: Index, n: nat, delta: Layer)
    requires n < |s.layers| && s.job == Some(s.layers[n..]) && Merged(s.layers[n..]) != []
    ensures var after := s.(layers := [delta] + s.layers);
            && Enabled(after, CommitMerge)
            && Next(after, CommitMerge) == Index([delta] + s.layers[..n] + [Merged(s.layers[n..])], None)
  {
    hide Merged;
    assert ([delta] + s.layers)[..1 + n] == [delta] + s.layers[..n];
  }

  /** A merge can always be had: from any state a run reaches without one, the bottom of
      the stack at any depth that shows a key, with a delta landing meanwhile. */
  lemma BottomCanBeMerged(base: Layer, run: seq<Action>, n: nat, delta: Layer, key: Bytes)
    requires Ascending(base) && AllAscending(Pushed(run)) && Reached(base, run).Some?
    requires var s := Reached(base, run).value;
             s.job.None? && n < |s.layers| && Visible(s.layers[n..], key).Some?
    ensures var layers := Reached(base, run).value.layers;
            Reached(base, run + [BeginMerge(|layers| - n)] + [Push(delta)] + [CommitMerge]) ==
            Some(Index([delta] + layers[..n] + [Merged(layers[n..])], None))
  {
    hide Ascending, Visible, Merged, Reached, Pushed;
    var s := Reached(base, run).value;
    var begin := BeginMerge(|s.layers| - n);
    RunsShowPushedDeltas(base, run, key);
    MergedShowsKey(s.layers[n..], key);
    ReachedStep(base, run, begin);
    ReachedStep(base, run + [begin], Push(delta));
    ReachedStep(base, run + [begin] + [Push(delta)], CommitMerge);
    CommitReplacesBottom(Index(s.layers, Some(s.layers[n..])), n, delta);
  }

  lemma MergedShowsKey(layers: seq<Layer>, key: Bytes)
    requires AllAscending(layers) && Visible(layers, key).Some?
    ensures Merged(layers) != []
  {
    hide Ascending, Visible, Merged;
    MergedIsVisible(layers);
    LookupOfNothing(key);
    assert Lookup(Merged(layers), key) == Visible(layers, key);
  }

  lemma LookupOfNothing(key: Bytes)
    ensures Lookup<Bytes>([], key) == None
  {
  }

  // ---------------------------------------------------------------------
  // The same runs over segments
  // ---------------------------------------------------------------------

  /** The segments readers use, and those a running merge took from the bottom. */
  datatype SegmentIndex = SegmentIndex(segments: seq<Segment>, job: Option<seq<Segment>>)

  datatype SegmentAction =
    | PushSegment(delta: Segment)
    | BeginSegmentMerge(depth: nat)
    | CommitSegmentMerge
    | AbandonSegmentMerge

  /** A merge that succeeds, within the sizes a segment can have. */
  predicate MergeSucceeds(libs: Libs, segments: seq<Segment>) {
    var merged := Gathered(libs, segments);
    && merged.Ok? && merged.value != [] && |merged.value| < U32_LIMIT
    && |SegmentOf(libs, MERGE_OPTIONS, merged.value)| < U64_LIMIT
    && Opened(libs, SegmentOf(libs, MERGE_OPTIONS, merged.value)).Ok?
  }

  predicate SegmentEnabled(libs: Libs, c: SegmentIndex, a: SegmentAction) {
    match a
    case PushSegment(_) => true
    case BeginSegmentMerge(depth) => c.job.None? && 1 <= depth <= |c.segments|
    case CommitSegmentMerge =>
      c.job.Some? && |c.job.value| <= |c.segments| && MergeSucceeds(libs, c.job.value)
    case AbandonSegmentMerge => c.job.Some?
  }

  /** A commit opens the bytes merge_segments returned for the job's segments. */
  function NextSegments(libs: Libs, c: SegmentIndex, a: SegmentAction): SegmentIndex
    requires SegmentEnabled(libs, c, a)
  {
    match a
    case PushSegment(delta) => c.(segments := [delta] + c.segments)
    case BeginSegmentMerge(depth) => c.(job := Some(c.segments[|c.segments| - depth..]))
    case CommitSegmentMerge =>
      var bytes := SegmentOf(libs, MERGE_OPTIONS, Gathered(libs, c.job.value).value);
      SegmentIndex(c.segments[..|c.segments| - |c.job.value|] + [Opened(libs, bytes).value], None)
    case AbandonSegmentMerge => c.(job := None)
  }

  function ReachedSegments(libs: Libs, base: Segment, run: seq<SegmentAction>): Option<SegmentIndex> {
    if run == [] then Some(SegmentIndex([base], None))
    else
      var before := ReachedSegments(libs, base, Front(run));
      if before.Some? && SegmentEnabled(libs, before.value, Last(run))
      then Some(NextSegments(libs, before.value, Last(run)))
      else None
  }

  /** The segments a run pushed, newest first. */
  function PushedSegments(run: seq<SegmentAction>): seq<Segment> {
    if run == [] then []
    else if Last(run).PushSegment? then [Last(run).delta] + PushedSegments(Front(run))
    else PushedSegments(Front(run))
  }

  /** The segments hold the layers, and a running merge's segments its input. */
  ghost predicate Holds(libs: Libs, c: SegmentIndex, s: Index) {
    && WrittenStack(libs, c.segments, s.layers)
    && (c.job.Some? <==> s.job.Some?)
    && (c.job.Some? ==> WrittenStack(libs, c.job.value, s.job.value))
  }

  /** The action on layers that an action on segments carries out; `delta` is what
      a pushed segment holds. */
  function Abstracted(a: SegmentAction, delta: Layer): Action {
    match a
    case PushSegment(_) => Push(delta)
    case BeginSegmentMerge(depth) => BeginMerge(depth)
    case CommitSegmentMerge => CommitMerge
    case AbandonSegmentMerge => AbandonMerge
  }

  /** One step on segments is one step on the layers they hold: in particular the
      segment a merge wrote holds the merged layers. */
  lemma SegmentStepHolds(libs: Libs, c: SegmentIndex, s: Index, a: SegmentAction, delta: Layer)
    requires libs.Lawful() && Holds(libs, c, s) && SegmentEnabled(libs, c, a)
    requires a.PushSegment? ==> Written(libs, a.delta, delta)
    ensures Enabled(s, Abstracted(a, delta))
    ensures Holds(libs, NextSegments(libs, c, a), Next(s, Abstracted(a, delta)))
  {
    hide Written, SegmentOf, Opened, Gathered, Merged;
    if a.CommitSegmentMerge? {
      WrittenStackGathers(libs, c.job.value, s.job.value);
      MergedIsWritten(libs, c.job.value, s.job.value);
    }
  }

  /** And only then: an action is open to the segments exactly when it is to the layers
      they hold and, for a commit, the merged layers fit a segment. */
  lemma SegmentEnabledIff(libs: Libs, c: SegmentIndex, s: Index, a: SegmentAction, delta: Layer)
    requires libs.Lawful() && Holds(libs, c, s)
    ensures SegmentEnabled(libs, c, a) <==>
            && Enabled(s, Abstracted(a, delta))
            && (a.CommitSegmentMerge? ==>
                  && |Merged(s.job.value)| < U32_LIMIT
                  && |SegmentOf(libs, MERGE_OPTIONS, Merged(s.job.value))| < U64_LIMIT)
  {
    hide Written, SegmentOf, Opened, Gathered, Merged;
    if a.CommitSegmentMerge? && c.job.Some? {
      var merged := Merged(s.job.value);
      WrittenStackGathers(libs, c.job.value, s.job.value);
      if |merged| < U32_LIMIT && |SegmentOf(libs, MERGE_OPTIONS, merged)| < U64_LIMIT {
        MergedIsWritten(libs, c.job.value, s.job.value);
      }
    }
  }

  lemma MergedIsWritten(libs: Libs, segments: seq<Segment>, layers: seq<Layer>)
    requires libs.Lawful() && WrittenStack(libs, segments, layers)
    requires |Merged(layers)| < U32_LIMIT && |SegmentOf(libs, MERGE_OPTIONS, Merged(layers))| < U64_LIMIT
    ensures var bytes := SegmentOf(libs, MERGE_OPTIONS, Merged(layers));
            Opened(libs, bytes).Ok? && Written(libs, Opened(libs, bytes).value, Merged(layers))
  {
    hide Merged, Written, SegmentOf, Opened, Gathered, Got, Listed, LayeredGot, LiveKeys, WrittenStack;
    MergePreservesIndex(libs, segments, layers, []);
  }

  /** Every run over segments is a run over the layers they hold, with the same
      pushes. */
  lemma {:induction false} SegmentRunHolds(
    libs: Libs, base: Segment, baseLayer: Layer, run: seq<SegmentAction>, deltas: seq<Layer>)
    returns (layerRun: seq<Action>)
    requires libs.Lawful() && Written(libs, base, baseLayer) && WrittenStack(libs, PushedSegments(run), deltas)
    requires ReachedSegments(libs, base, run).Some?
    ensures Pushed(layerRun) == deltas && Reached(baseLayer, layerRun).Some?
    ensures Holds(libs, ReachedSegments(libs, base, run).value, Reached(baseLayer, layerRun).value)
  {
    hide Written, SegmentEnabled, NextSegments, Enabled, Next;
    if run == [] {
      layerRun := [];
    } else {
      var a := Last(run);
      var delta := if a.PushSegment? then deltas[0] else [];
      layerRun := SegmentRunHolds(libs, base, baseLayer, Front(run), if a.PushSegment? then deltas[1..] else deltas);
      var s := Reached(baseLayer, layerRun).value;
      SegmentStepHolds(libs, ReachedSegments(libs, base, Front(run)).value, s, a, delta);
      assert Front(layerRun + [Abstracted(a, delta)]) == layerRun;
      layerRun := layerRun + [Abstracted(a, delta)];
    }
  }

  /** Read through the segments themselves: in every run of pushes and background
      merges, with each merge's own output put in place, every lookup shows the
      pushed deltas over the base. */
  lemma RunsReadBack(
    libs: Libs, base: Segment, baseLayer: Layer, run: seq<SegmentAction>, deltas: seq<Layer>, key: Bytes)
    requires libs.Lawful() && Written(libs, base, baseLayer) && WrittenStack(libs, PushedSegments(run), deltas)
    requires ReachedSegments(libs, base, run).Some?
    ensures LayeredGot(libs, ReachedSegments(libs, base, run).value.segments, key) ==
            Ok(Visible(deltas + [baseLayer], key))
  {
    hide Ascending, Reached, ReachedSegments, Pushed, PushedSegments, LayeredGot, Visible, Written;
    var layerRun := SegmentRunHolds(libs, base, baseLayer, run, deltas);
    AllWrittenAscend(libs, PushedSegments(run), deltas);
    AllWrittenAscend(libs, [base], [baseLayer]);
    assert Ascending([baseLayer][0]);
    RunsShowPushedDeltas(baseLayer, layerRun, key);
    LayeredGetIsVisible(libs, ReachedSegments(libs, base, run).value.segments,
                        Reached(baseLayer, layerRun).value.layers, key);
  }
}
