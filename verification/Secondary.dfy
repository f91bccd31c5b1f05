/** The secondary index: locations gathered per key in any order, written as one
    segment of encoded location sets. */
module Secondary {
  import opened ByteStrings
  import opened Results
  import opened Entries
  import opened Libraries
  import opened SegmentFormat
  import opened SegmentReaders
  import opened SegmentWriters
  import LocationSets
  import Segments

  type Location = LocationSets.EntityLocation

  /** One add_location call. */
  type Call = Pair<Location>

  /** The ordered map of the source: each key with its locations so far. */
  type Groups = seq<Pair<seq<Location>>>

  /** What a key has gathered, in call order. */
  function LocationsOf(calls: seq<Call>, key: Bytes): seq<Location> {
    if calls == [] then []
    else if Last(calls).key == key then LocationsOf(Front(calls), key) + [Last(calls).value]
    else LocationsOf(Front(calls), key)
  }

  /** entries.entry(key).or_default() */
  function Gathered(groups: Groups, key: Bytes): seq<Location> {
    if Lookup(groups, key).Some? then Lookup(groups, key).value else []
  }

  function WithLocation(groups: Groups, key: Bytes, loc: Location): Groups {
    Insert(groups, key, Gathered(groups, key) + [loc])
  }

  function GroupsOf(calls: seq<Call>): Groups {
    if calls == [] then [] else WithLocation(GroupsOf(Front(calls)), Last(calls).key, Last(calls).value)
  }

  function Total(groups: Groups): nat {
    if groups == [] then 0 else |groups[0].value| + Total(groups[1..])
  }

  /** The segment entries of the groups. */
  function EntriesOf(groups: Groups): (es: seq<Entry>)
    ensures |es| == |groups|
    ensures forall i :: 0 <= i < |es| ==> es[i] == Pair(groups[i].key, LocationSets.Encoded(groups[i].value))
  {
    seq(|groups|, i requires 0 <= i < |groups| => Pair(groups[i].key, LocationSets.Encoded(groups[i].value)))
  }

  /** Call order: what later calls add stands behind what earlier ones did. */
  lemma {:induction false} LaterLocationsFollow(a: seq<Call>, b: seq<Call>, key: Bytes)
    ensures LocationsOf(a + b, key) == LocationsOf(a, key) + LocationsOf(b, key)
    decreases |b|
  {
    if b == [] {
      assert a + b == a;
    } else {
      assert Front(a + b) == a + Front(b) && Last(a + b) == Last(b);
      LaterLocationsFollow(a, Front(b), key);
    }
  }

  // ---------------------------------------------------------------------
  // Grouping
  // ---------------------------------------------------------------------

  /** Whatever the order and interleaving of the calls, the groups are ascending and
      hold each key's locations in call order. */
  lemma {:induction false} GroupsHoldLocations(calls: seq<Call>)
    ensures Ascending(GroupsOf(calls))
    ensures forall key :: Lookup(GroupsOf(calls), key) ==
                          if LocationsOf(calls, key) == [] then None else Some(LocationsOf(calls, key))
  {
    hide Ascending, Lookup;
    if calls == [] {
      EmptyGroups();
    } else {
      var before, call := GroupsOf(Front(calls)), Last(calls);
      GroupsHoldLocations(Front(calls));
      InsertIsMapUpdate(before, call.key, Gathered(before, call.key) + [call.value]);
    }
  }

  lemma EmptyGroups()
    ensures Ascending<seq<Location>>([]) && forall key :: Lookup<seq<Location>>([], key) == None
  {
  }

  /** Each key's own locations came in the same order. */
  ghost predicate SameForEachKey(a: seq<Call>, b: seq<Call>) {
    forall key :: LocationsOf(a, key) == LocationsOf(b, key)
  }

  /** Keys may come in any order: two call lists leave the same groups, and so the same
      segment, exactly when they agree on each key by itself. */
  lemma OrderOfKeysDoesNotMatter(a: seq<Call>, b: seq<Call>)
    ensures GroupsOf(a) == GroupsOf(b) <==> SameForEachKey(a, b)
  {
    hide GroupsOf, LocationsOf, Ascending, Lookup;
    GroupsHoldLocations(a);
    GroupsHoldLocations(b);
    if SameForEachKey(a, b) {
      AscendingListsAreMaps(GroupsOf(a), GroupsOf(b));
    }
    forall key | GroupsOf(a) == GroupsOf(b)
      ensures LocationsOf(a, key) == LocationsOf(b, key)
    {
      assert Lookup(GroupsOf(a), key) == Lookup(GroupsOf(b), key);
    }
  }

  lemma {:induction false} InsertChangesTotal(groups: Groups, key: Bytes, locs: seq<Location>)
    requires Ascending(groups)
    ensures Total(Insert(groups, key, locs)) == Total(groups) - |Gathered(groups, key)| + |locs|
  {
    if groups == [] {
    } else if Below(key, groups[0].key) {
      forall i | 0 <= i < |groups|
        ensures Below(key, groups[i].key)
      {
        BelowAtMost(key, groups[0].key, groups[i].key);
      }
      LookupBelowAll(groups, key);
      assert Insert(groups, key, locs)[1..] == groups;
    } else if groups[0].key == key {
      assert Insert(groups, key, locs)[1..] == groups[1..];
    } else {
      InsertChangesTotal(groups[1..], key, locs);
      assert Insert(groups, key, locs)[1..] == Insert(groups[1..], key, locs);
    }
  }

  /** No location is lost or duplicated: the groups hold one per call. */
  lemma {:induction false} TotalIsCallCount(calls: seq<Call>)
    ensures Total(GroupsOf(calls)) == |calls|
  {
    if calls != [] {
      var before, call := GroupsOf(Front(calls)), Last(calls);
      TotalIsCallCount(Front(calls));
      GroupsHoldLocations(Front(calls));
      InsertChangesTotal(before, call.key, Gathered(before, call.key) + [call.value]);
    }
  }

  lemma {:induction false} CalledKeysHaveLocations(calls: seq<Call>, key: Bytes)
    ensures key in KeySet(calls) <==> LocationsOf(calls, key) != []
  {
    if calls != [] {
      CalledKeysHaveLocations(Front(calls), key);
      assert calls == Front(calls) + [Last(calls)];
    }
  }

  /** There is one group for each key named by the calls. */
  lemma GroupsNameCalledKeys(calls: seq<Call>)
    ensures KeySet(GroupsOf(calls)) == KeySet(calls) && |GroupsOf(calls)| == |KeySet(calls)|
  {
    hide KeySet, GroupsOf, LocationsOf, Lookup, Ascending;
    GroupsHoldLocations(calls);
    forall key
      ensures key in KeySet(GroupsOf(calls)) <==> key in KeySet(calls)
    {
      InKeySet(GroupsOf(calls), key);
      CalledKeysHaveLocations(calls, key);
    }
    KeysAreDistinct(GroupsOf(calls));
  }

  lemma {:induction false} LookupEncoded(groups: Groups, key: Bytes)
    ensures Lookup(EntriesOf(groups), key) ==
            if Lookup(groups, key).Some? then Some(LocationSets.Encoded(Lookup(groups, key).value)) else None
  {
    hide LocationSets.Encoded;
    if groups != [] {
      LookupEncoded(groups[1..], key);
      assert EntriesOf(groups)[1..] == EntriesOf(groups[1..]);
    }
  }

  lemma EntriesAscend(groups: Groups)
    requires Ascending(groups)
    ensures Ascending(EntriesOf(groups))
  {
  }

  // ---------------------------------------------------------------------
  // The writer
  // ---------------------------------------------------------------------

  class SecondaryIndexWriter {
    const libs: Libs
    const opts: Options
    var entries: Groups
    ghost var calls: seq<Call>

    ghost predicate Valid()
      reads this
    {
      entries == GroupsOf(calls)
    }

    constructor (libs: Libs, opts: Options)
      ensures Valid() && calls == [] && this.libs == libs && this.opts == opts
    {
      this.libs, this.opts := libs, opts;
      entries, calls := [], [];
    }

    method AddLocation(key: Bytes, loc: Location)
      requires Valid()
      modifies this
      ensures Valid() && calls == old(calls) + [Pair(key, loc)]
    {
      entries := WithLocation(entries, key, loc);
      calls := calls + [Pair(key, loc)];
      assert Front(calls) == old(calls);
    }

    /** One for each distinct key named by the calls. */
    method KeyCount() returns (count: nat)
      requires Valid()
      ensures count == |KeySet(calls)|
    {
      GroupsNameCalledKeys(calls);
      count := |entries|;
    }

    /** One location for each call made. */
    method TotalLocations() returns (total: nat)
      requires Valid()
      ensures total == |calls|
    {
      total := 0;
      for i := 0 to |entries|
        invariant total + Total(entries[i..]) == Total(entries)
      {
        assert entries[i..][1..] == entries[i + 1..];
        total := total + |entries[i].value|;
      }
      TotalIsCallCount(calls);
    }

    /** Encodes each key's locations and writes the segment. */
    method Finish() returns (r: Result<SegmentOutput, WriterError>)
      requires Valid()
      requires |entries| < U32_LIMIT
      ensures r == if calls == [] then Err(EmptySegment) else Ok(OutputOf(libs, opts, EntriesOf(GroupsOf(calls))))
    {
      hide OutputOf, OrderCheck, SegmentWriter.Valid, LocationSets.Encoded, GroupsOf, Ascending;
      GroupsHoldLocations(calls);
      TotalIsCallCount(calls);
      EmptyHasNoCalls();
      if entries == [] {
        return Err(EmptySegment);
      }
      ghost var es := EntriesOf(entries);
      EntriesAscend(entries);
      var writer := new SegmentWriter(libs, opts);
      for i := 0 to |entries|
        invariant writer.Valid() && fresh(writer) && fresh(writer.currentBlock) && fresh(writer.currentBlock.inner)
        invariant writer.libs == libs && writer.opts == opts
        invariant writer.added == es[..i]
      {
        var encoded := LocationSets.Encode(entries[i].value);
        AscendingIsAccepted(es, i);
        AddedCount(writer);
        var added := writer.Add(entries[i].key, encoded);
        if added.Err? {
          assert false;
        }
      }
      assert es[..|es|] == es;
      r := writer.Finish();
    }

    lemma EmptyHasNoCalls()
      requires Valid()
      ensures entries == [] <==> calls == []
    {
      TotalIsCallCount(calls);
    }
  }

  // ---------------------------------------------------------------------
  // End to end
  // ---------------------------------------------------------------------

  /** For any calls in any order: on the finished segment a key without calls is
      not found, and any other key yields bytes that decode to exactly its locations
      in call order, precisely when each of their file keys fits the codec. */
  lemma IndexRoundTrip(libs: Libs, opts: Options, utf8: LocationSets.Utf8Test, calls: seq<Call>, key: Bytes)
    requires libs.Lawful() && Segments.Writable(libs, opts, EntriesOf(GroupsOf(calls)))
    requires forall i :: 0 <= i < |calls| ==> calls[i].value.IsString(utf8)
    ensures var data, locs := SegmentOf(libs, opts, EntriesOf(GroupsOf(calls))), LocationsOf(calls, key);
            && Opened(libs, data).Ok?
            && Got(libs, Opened(libs, data).value, key) ==
               Ok(if locs == [] then None else Some(LocationSets.Encoded(locs)))
            && (LocationSets.Decoded(utf8, LocationSets.Encoded(locs)) == Ok(locs) <==> LocationSets.AllFit(locs))
  {
    hide SegmentOf, Opened, Got, LocationSets.Decoded, LocationSets.Encoded, LocationSets.AllFit, Ascending;
    var groups, locs := GroupsOf(calls), LocationsOf(calls, key);
    Segments.SegmentRefinesMap(libs, opts, EntriesOf(groups), key);
    GroupsHoldLocations(calls);
    LookupEncoded(groups, key);
    LocationsAreStrings(utf8, calls, key);
    LocationSets.RoundTrip(utf8, locs, []);
    assert LocationSets.Encoded(locs) + [] == LocationSets.Encoded(locs);
    CountFits(libs, opts, calls, key);
  }

  lemma {:induction false} LocationsAreStrings(utf8: LocationSets.Utf8Test, calls: seq<Call>, key: Bytes)
    requires forall i :: 0 <= i < |calls| ==> calls[i].value.IsString(utf8)
    ensures LocationSets.AllStrings(utf8, LocationsOf(calls, key))
  {
    if calls != [] {
      LocationsAreStrings(utf8, Front(calls), key);
    }
  }

  /** A value the segment can hold is too short for its location count to overflow. */
  lemma CountFits(libs: Libs, opts: Options, calls: seq<Call>, key: Bytes)
    requires Segments.Writable(libs, opts, EntriesOf(GroupsOf(calls)))
    ensures |LocationsOf(calls, key)| < U32_LIMIT
  {
    hide SegmentOf, Ascending, Lookup;
    var groups, locs := GroupsOf(calls), LocationsOf(calls, key);
    if locs != [] {
      GroupsHoldLocations(calls);
      var i := LookupFinds(groups, key);
      assert EntriesOf(groups)[i] in EntriesOf(groups);
      assert |LocationSets.Encoded(locs)| >= 10 * |locs|;
    }
  }
}
