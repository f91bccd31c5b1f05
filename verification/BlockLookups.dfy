/** Reading back a finished block: opening succeeds, iteration returns the list
    that went in, and point lookup agrees with list lookup for every target. */
module BlockLookups {
  import opened ByteStrings
  import opened Results
  import opened Entries
  import opened BlockFormat
  import opened BlockReaders
  import Varint

  /** The reader holds the finished block of these entries. */
  ghost predicate Holds(rd: Reader, r: nat, es: seq<Entry>)
    requires r >= 1
  {
    && LengthsFit(es)
    && rd.restarts == Restarts(r, es)
    && rd.entriesEnd == |Encoded(r, es)| <= |rd.data|
    && rd.data[..rd.entriesEnd] == Encoded(r, es)
  }

  // ---------------------------------------------------------------------
  // Opening
  // ---------------------------------------------------------------------

  lemma {:induction false} RestartArrayReadsBack(data: Bytes, start: nat, offsets: seq<nat>)
    requires At(data, start, RestartBytes(offsets))
    requires forall i :: 0 <= i < |offsets| ==> offsets[i] < U32_LIMIT
    ensures U32Array(data, start, |offsets|) == offsets
  {
    hide ToLE, FromLE, At;
    if offsets != [] {
      var init, last := Front(offsets), Last(offsets);
      AtSplits(data, start, RestartBytes(init), ToLE(last, 4));
      RestartArrayReadsBack(data, start, init);
      U32RoundTrip(last);
    }
  }

  lemma {:induction false} RestartArrayStands(data: Bytes, start: nat, count: nat)
    requires start + 4 * count <= |data|
    ensures At(data, start, RestartBytes(U32Array(data, start, count)))
  {
    hide ToLE, FromLE, At, RestartBytes;
    if count == 0 {
      assert RestartBytes([]) == [];
      NothingIsAt(data, start);
    } else {
      var before, last := U32Array(data, start, count - 1), U32At(data, start + 4 * (count - 1));
      assert (before + [last])[..count - 1] == before && (before + [last])[..count] == before + [last];
      RestartBytesStep(before + [last], count - 1);
      RestartArrayStands(data, start, count - 1);
      U32Stands(data, start + 4 * (count - 1));
      AtJoins(data, start, RestartBytes(before), ToLE(last, 4));
    }
  }

  lemma SealedOpens(crc: Checksum, debug: bool, entries: Bytes, offsets: seq<u32>)
    requires |offsets| < U32_LIMIT
    ensures Opened(crc, debug, Sealed(crc, entries, offsets)) ==
            Ok(Reader(Sealed(crc, entries, offsets), offsets, |entries|, debug))
  {
    hide FromLE, ToLE, RestartBytes, U32Array;
    var data, body := Sealed(crc, entries, offsets), entries + RestartBytes(offsets) + ToLE(|offsets|, 4);
    WholeIsAt(data);
    AtSplits(data, 0, body, ToLE(crc(body), 4));
    AtSplits(data, 0, entries + RestartBytes(offsets), ToLE(|offsets|, 4));
    AtSplits(data, 0, entries, RestartBytes(offsets));
    U32RoundTrip(crc(body));
    U32RoundTrip(|offsets|);
    RestartArrayReadsBack(data, |entries|, offsets);
  }

  lemma SealStands(data: Bytes, n: nat, offsets: seq<u32>)
    requires n + 4 * |offsets| + 8 == |data| && U32Array(data, n, |offsets|) == offsets
    requires U32At(data, |data| - 8) == |offsets|
    ensures data == Body(data[..n], offsets) + ToLE(U32At(data, |data| - 4), 4)
    ensures data[..|data| - 4] == Body(data[..n], offsets)
  {
    hide FromLE, ToLE, RestartBytes, U32Array;
    var end := |data| - 8;
    RestartArrayStands(data, n, |offsets|);
    U32Stands(data, end);
    U32Stands(data, end + 4);
    assert data == data[..n] + data[n..end] + data[end..end + 4] + data[end + 4..end + 8];
    assert data[..end + 4] == data[..n] + data[n..end] + data[end..end + 4];
  }

  /** Opening loses nothing: any bytes open to a reader exactly when they are its entry
      section sealed with its restarts and the checksum of both. */
  lemma OpenedIff(crc: Checksum, debug: bool, data: Bytes, offsets: seq<u32>, n: nat)
    requires n <= |data|
    ensures Opened(crc, debug, data) == Ok(Reader(data, offsets, n, debug)) <==>
            |offsets| < U32_LIMIT && data == Sealed(crc, data[..n], offsets)
  {
    hide FromLE, ToLE, Body, U32Array;
    if Opened(crc, debug, data) == Ok(Reader(data, offsets, n, debug)) {
      SealStands(data, n, offsets);
    }
    if |offsets| < U32_LIMIT && data == Sealed(crc, data[..n], offsets) {
      SealedOpens(crc, debug, data[..n], offsets);
    }
  }

  lemma FinishedBlockOpens(crc: Checksum, debug: bool, r: nat, es: seq<Entry>)
    requires r >= 1 && LengthsFit(es) && RestartsFit(r, es)
    ensures Opened(crc, debug, Finished(crc, r, es)).Ok?
    ensures Holds(Opened(crc, debug, Finished(crc, r, es)).value, r, es)
  {
    hide Encoded, Restarts, ToLE, RestartBytes, Opened;
    SealedOpens(crc, debug, Encoded(r, es), Restarts(r, es));
  }

  // ---------------------------------------------------------------------
  // One entry
  // ---------------------------------------------------------------------

  lemma VarintReadsBack(data: Bytes, pos: nat, v: u32)
    requires At(data, pos, Varint.Encoded(v))
    ensures Varint.Decoded(data[pos..]) == Ok(Varint.Decoding(v, |Varint.Encoded(v)|))
  {
    hide Varint.Encoded, Varint.Decoded;
    AtSuffix(data, pos, Varint.Encoded(v));
    Varint.RoundTrip(v, data[pos + |Varint.Encoded(v)|..]);
  }

  lemma {:induction false} HeaderReadsBack(data: Bytes, pos: nat, a: u32, b: u32, c: u32)
    requires At(data, pos, Varint.Encoded(a) + Varint.Encoded(b) + Varint.Encoded(c))
    ensures HeaderAt(data, pos) ==
            HeaderRead(Ok(Header(a, b, c)), pos + |Varint.Encoded(a)| + |Varint.Encoded(b)| + |Varint.Encoded(c)|)
  {
    hide Varint.Encoded, Varint.Decoded, At;
    var x, y, z := Varint.Encoded(a), Varint.Encoded(b), Varint.Encoded(c);
    AtSplits(data, pos, x + y, z);
    AtSplits(data, pos, x, y);
    VarintReadsBack(data, pos, a);
    VarintReadsBack(data, pos + |x|, b);
    VarintReadsBack(data, pos + |x| + |y|, c);
  }

  /** Header, key bytes and value of an encoded entry. */
  lemma EntryParts(data: Bytes, pos: nat, shared: nat, e: Entry)
    requires |e.key| < U32_LIMIT && |e.value| < U32_LIMIT && shared <= |e.key|
    requires At(data, pos, EncodedEntry(shared, e))
    ensures var h := HeaderAt(data, pos);
            && h.outcome == Ok(Header(shared, |e.key| - shared, |e.value|))
            && At(data, h.pos, e.key[shared..]) && At(data, h.pos + |e.key| - shared, e.value)
            && h.pos + |e.key| - shared + |e.value| == pos + |EncodedEntry(shared, e)|
  {
    hide Varint.Encoded, HeaderAt, At;
    var x, y, z := Varint.Encoded(shared), Varint.Encoded(|e.key| - shared), Varint.Encoded(|e.value|);
    AtSplits(data, pos, x + y + z + e.key[shared..], e.value);
    AtSplits(data, pos, x + y + z, e.key[shared..]);
    HeaderReadsBack(data, pos, shared, |e.key| - shared, |e.value|);
  }

  lemma EntryReadsBack(rd: Reader, pos: nat, key: Bytes, shared: nat, e: Entry)
    requires rd.WellFormed()
    requires |e.key| < U32_LIMIT && |e.value| < U32_LIMIT
    requires shared <= |e.key| && shared <= |key| && key[..shared] == e.key[..shared]
    requires At(rd.data, pos, EncodedEntry(shared, e)) && pos + |EncodedEntry(shared, e)| <= rd.entriesEnd
    ensures StepAt(rd, pos, key) == Step(Ok(e), pos + |EncodedEntry(shared, e)|, e.key)
  {
    hide HeaderAt, EncodedEntry;
    EntryParts(rd.data, pos, shared, e);
    assert e.key[..shared] + e.key[shared..] == e.key;
    assert Truncated(key, shared) == e.key[..shared];
  }

  /** At the offset of entry i, with the previous key in hand or at a restart
      point, the reader gets entry i and stands at entry i + 1. */
  lemma StepReadsEntry(rd: Reader, r: nat, es: seq<Entry>, i: nat, key: Bytes)
    requires r >= 1 && Holds(rd, r, es) && i < |es|
    requires IsRestart(r, i) || key == es[i - 1].key
    ensures StepAt(rd, Offset(r, es, i), key) == Step(Ok(es[i]), Offset(r, es, i + 1), es[i].key)
  {
    hide Encoded, Restarts, EncodedEntry, IsRestart, StepAt;
    OffsetStep(r, es, i);
    var from, to := Offset(r, es, i), Offset(r, es, i + 1);
    AtWithin(rd.data, 0, Encoded(r, es), from, to);
    assert es[i] in es;
    EntryReadsBack(rd, from, key, SharedAt(r, es, i), es[i]);
  }

  // ---------------------------------------------------------------------
  // Iteration
  // ---------------------------------------------------------------------

  lemma {:induction false} IterationFrom(rd: Reader, r: nat, es: seq<Entry>, i: nat, key: Bytes)
    requires r >= 1 && Holds(rd, r, es) && i <= |es|
    requires i == |es| || IsRestart(r, i) || key == es[i - 1].key
    ensures EntriesFrom(rd, Offset(r, es, i), key) == Ok(Read(es[i..], |Encoded(r, es)|))
    decreases |es| - i
  {
    hide Encoded, Restarts, EncodedEntry, IsRestart, StepAt;
    assert es[..|es|] == es;
    if i < |es| {
      OffsetsRise(r, es, i, |es|);
      StepReadsEntry(rd, r, es, i, key);
      IterationFrom(rd, r, es, i + 1, es[i].key);
      assert es[i..] == [es[i]] + es[i + 1..];
    } else {
      assert es[i..] == [];
    }
  }

  /** Prefix compression is lossless: iterating a finished block returns exactly
      the entries added, in order, and stops at the end of the entry section. */
  lemma IterationIsLossless(crc: Checksum, debug: bool, r: nat, es: seq<Entry>)
    requires r >= 1 && LengthsFit(es) && RestartsFit(r, es)
    ensures Opened(crc, debug, Finished(crc, r, es)).Ok?
    ensures EntriesFrom(Opened(crc, debug, Finished(crc, r, es)).value, 0, []) == Ok(Read(es, |Encoded(r, es)|))
  {
    hide Restarts, Opened, Finished, EntriesFrom;
    FinishedBlockOpens(crc, debug, r, es);
    assert Offset(r, es, 0) == 0;
    assert es[0..] == es;
    IterationFrom(Opened(crc, debug, Finished(crc, r, es)).value, r, es, 0, []);
  }

  // ---------------------------------------------------------------------
  // Point lookup
  // ---------------------------------------------------------------------

  lemma KeyReadsBack(rd: Reader, r: nat, es: seq<Entry>, i: nat)
    requires r >= 1 && Holds(rd, r, es) && es != [] && i < |rd.restarts|
    ensures i * r < |es|
    ensures KeyAtRestart(rd, i) == Ok(es[i * r].key)
  {
    hide Encoded, Restarts, IsRestart;
    RestartOffset(r, es, i);
    var n := i * r;
    assert es[n] in es;
    RestartsAreMultiples(r, n);
    MultipleOf(i, r);
    OffsetStep(r, es, n);
    var from, to := Offset(r, es, n), Offset(r, es, n + 1);
    AtWithin(rd.data, 0, Encoded(r, es), from, to);
    RestartKeyReadsBack(rd, i, es[n]);
  }

  /** The shared length of a readable header is what its first varint reads as. */
  lemma SharedReadsFirst(data: Bytes, pos: nat)
    requires pos <= |data| && HeaderAt(data, pos).outcome.Ok?
    ensures Varint.Decoded(data[pos..]).Ok?
    ensures Varint.Decoded(data[pos..]).value.value == HeaderAt(data, pos).outcome.value.shared
  {
    hide Varint.Decoded;
  }

  lemma RestartKeyReadsBack(rd: Reader, i: nat, e: Entry)
    requires rd.WellFormed() && i < |rd.restarts|
    requires |e.key| < U32_LIMIT && |e.value| < U32_LIMIT
    requires At(rd.data, rd.restarts[i], EncodedEntry(0, e))
    requires rd.restarts[i] + |EncodedEntry(0, e)| <= rd.entriesEnd
    ensures KeyAtRestart(rd, i) == Ok(e.key)
  {
    hide HeaderAt, EncodedEntry;
    EntryParts(rd.data, rd.restarts[i], 0, e);
    SharedReadsFirst(rd.data, rd.restarts[i]);
    assert e.key[0..] == e.key;
  }

  /** The source asserts in debug builds that a restart entry shares nothing; in a
      finished block none does. */
  lemma RestartsShareNothing(rd: Reader, r: nat, es: seq<Entry>, i: nat)
    requires r >= 1 && Holds(rd, r, es) && es != [] && i < |rd.restarts|
    ensures rd.restarts[i] < rd.entriesEnd
    ensures HeaderAt(rd.data, rd.restarts[i]).outcome.Ok?
    ensures HeaderAt(rd.data, rd.restarts[i]).outcome.value.shared == 0
    ensures !Trips(rd, i)
  {
    hide Encoded, Restarts, EncodedEntry, HeaderAt;
    RestartInvariant(r, es, i);
    var pos: nat, e := rd.restarts[i], es[i * r];
    assert e in es;
    AtWithin(rd.data, 0, Encoded(r, es), pos, pos + |EncodedEntry(0, e)|);
    EntryParts(rd.data, pos, 0, e);
    SharedReadsFirst(rd.data, pos);
  }

  /** The keys the restarts point at. */
  ghost predicate RestartKeys(rd: Reader, keys: seq<Bytes>)
    requires rd.WellFormed()
  {
    && |keys| == |rd.restarts|
    && (forall i :: 0 <= i < |keys| ==> KeyAtRestart(rd, i) == Ok(keys[i]))
    && (forall i, j :: 0 <= i < j < |keys| ==> Below(keys[i], keys[j]))
  }

  /** Interval i is the right one: it starts at or below the target, unless it is
      the first, and the next one starts above it. */
  ghost predicate RightInterval(keys: seq<Bytes>, i: nat, target: Bytes) {
    && i < |keys|
    && (i == 0 || AtMost(keys[i], target))
    && (i + 1 == |keys| || Below(target, keys[i + 1]))
  }

  lemma RestartKeyFacts(rd: Reader, keys: seq<Bytes>, i: nat)
    requires rd.WellFormed() && RestartKeys(rd, keys)
    ensures |keys| == |rd.restarts|
    ensures i < |keys| ==> KeyAtRestart(rd, i) == Ok(keys[i])
    ensures i + 1 < |keys| ==> Below(keys[i], keys[i + 1])
  {
  }

  lemma SearchEndsRight(keys: seq<Bytes>, target: Bytes, lo: nat)
    requires keys != [] && lo <= |keys| && (|keys| > 1 ==> Below(keys[0], keys[1]))
    requires lo == 0 || AtMost(keys[lo - 1], target)
    requires lo == |keys| || Below(target, keys[lo])
    ensures RightInterval(keys, if lo > 0 then lo - 1 else 0, target)
  {
    hide Below;
    if lo == 0 && |keys| > 1 {
      BelowIsTransitive(target, keys[0], keys[1]);
    }
  }

  lemma ExactKeyIsRight(keys: seq<Bytes>, i: nat)
    requires i < |keys| && (i + 1 < |keys| ==> Below(keys[i], keys[i + 1]))
    ensures RightInterval(keys, i, keys[i])
  {
  }

  lemma ComparedAtMost(a: Bytes, b: Bytes)
    ensures Compare(a, b) == Less ==> AtMost(a, b)
    ensures Compare(a, b) == Equal ==> a == b
    ensures Compare(a, b) == Greater ==> Below(b, a)
  {
    CompareIsLinear(a, b);
  }

  lemma {:induction false} SearchFindsInterval(rd: Reader, keys: seq<Bytes>, target: Bytes, lo: nat, hi: nat)
    requires rd.WellFormed() && RestartKeys(rd, keys) && keys != []
    requires lo <= hi <= |keys|
    requires lo == 0 || AtMost(keys[lo - 1], target)
    requires hi == |keys| || Below(target, keys[hi])
    ensures var found := RestartSearch(rd, target, lo, hi);
            found.Ok? && RightInterval(keys, found.value, target)
    decreases hi - lo
  {
    hide RestartKeys, KeyAtRestart, Compare, Below, AtMost, RightInterval;
    if lo == hi {
      RestartKeyFacts(rd, keys, 0);
      SearchEndsRight(keys, target, lo);
    } else {
      var mid := lo + (hi - lo) / 2;
      RestartKeyFacts(rd, keys, mid);
      ComparedAtMost(keys[mid], target);
      match Compare(keys[mid], target) {
        case Less => SearchFindsInterval(rd, keys, target, mid + 1, hi);
        case Equal => ExactKeyIsRight(keys, mid);
        case Greater => SearchFindsInterval(rd, keys, target, lo, mid);
      }
    }
  }

  /** Key i is that of entry i * r. */
  ghost predicate KeysAtMultiples(r: nat, es: seq<Entry>, keys: seq<Bytes>) {
    forall i: nat :: i < |keys| ==> i * r < |es| && keys[i] == es[i * r].key
  }

  lemma HeldRestartKeys(rd: Reader, r: nat, es: seq<Entry>) returns (keys: seq<Bytes>)
    requires r >= 1 && Holds(rd, r, es) && es != [] && Ascending(es)
    ensures RestartKeys(rd, keys) && keys != []
    ensures KeysAtMultiples(r, es, keys)
  {
    hide Encoded, Restarts, KeyAtRestart, Below;
    forall i | 0 <= i < |rd.restarts|
      ensures i * r < |es| && KeyAtRestart(rd, i) == Ok(es[i * r].key)
    {
      KeyReadsBack(rd, r, es, i);
    }
    keys := seq(|rd.restarts|, i requires 0 <= i < |rd.restarts| => es[i * r].key);
    forall i, j | 0 <= i < j < |keys|
      ensures Below(keys[i], keys[j])
    {
      MultiplesAreOrdered(i, j, r);
    }
  }

  /** The scan of entries i to j returns the list's answer for that stretch. */
  lemma {:induction false} ScanIsLookup(rd: Reader, r: nat, es: seq<Entry>, i: nat, j: nat, key: Bytes, target: Bytes)
    requires r >= 1 && Holds(rd, r, es) && Ascending(es) && i <= j <= |es|
    requires i == j || IsRestart(r, i) || key == es[i - 1].key
    ensures Scan(rd, Offset(r, es, j), Offset(r, es, i), key, target) == Ok(Lookup(es[i..j], target))
    decreases j - i
  {
    hide Encoded, Restarts, EncodedEntry, IsRestart, StepAt, Compare;
    var rest := es[i..j];
    if i < j {
      OffsetsRise(r, es, i, j);
      StepReadsEntry(rd, r, es, i, key);
      CompareIsLinear(es[i].key, target);
      assert rest[0] == es[i] && rest[1..] == es[i + 1..j];
      match Compare(es[i].key, target) {
        case Equal =>
        case Greater => TargetIsBelow(rest, target);
        case Less => ScanIsLookup(rd, r, es, i + 1, j, es[i].key, target);
      }
    }
  }

  lemma TargetIsBelow(es: seq<Entry>, target: Bytes)
    requires Ascending(es) && es != [] && Below(target, es[0].key)
    ensures Lookup(es, target) == None
  {
    forall k | 0 <= k < |es|
      ensures Below(target, es[k].key)
    {
      BelowAtMost(target, es[0].key, es[k].key);
    }
    LookupBelowAll(es, target);
  }

  lemma LookupSkipsBefore(es: seq<Entry>, from: nat, target: Bytes)
    requires Ascending(es) && from <= |es|
    requires from == 0 || (from < |es| && AtMost(es[from].key, target))
    ensures Lookup(es, target) == Lookup(es[from..], target)
  {
    hide Below, Lookup;
    var before := es[..from];
    assert es == before + es[from..];
    forall k | 0 <= k < from
      ensures Below(before[k].key, target)
    {
      BelowAtMost(es[k].key, es[from].key, target);
    }
    LookupAboveAll(before, target);
    LookupConcat(before, es[from..], target);
  }

  lemma LookupSkipsAfter(es: seq<Entry>, to: nat, target: Bytes)
    requires Ascending(es) && to <= |es|
    requires to == |es| || Below(target, es[to].key)
    ensures Lookup(es, target) == Lookup(es[..to], target)
  {
    hide Below, Lookup;
    var after := es[to..];
    assert es == es[..to] + after;
    if to < |es| {
      TargetIsBelow(after, target);
    } else {
      LookupMisses(after, target);
    }
    LookupConcat(es[..to], after, target);
  }

  /** Outside a stretch whose neighbours lie below and above the target, lookup finds nothing. */
  lemma LookupInStretch(es: seq<Entry>, from: nat, to: nat, target: Bytes)
    requires Ascending(es) && from <= to <= |es|
    requires from == 0 || (from < |es| && AtMost(es[from].key, target))
    requires to == |es| || Below(target, es[to].key)
    ensures Lookup(es, target) == Lookup(es[from..to], target)
  {
    hide Below, Lookup;
    LookupSkipsBefore(es, from, target);
    LookupSkipsAfter(es[from..], to - from, target);
    assert es[from..][..to - from] == es[from..to];
  }

  /** Block lookup refines list lookup: for every target, binary search over the
      restarts and the prefix-rebuilding scan return exactly the list's answer. Only
      a block without entries is refused: its one restart points past its entries. */
  lemma BlockGetIsLookup(crc: Checksum, debug: bool, r: nat, es: seq<Entry>, target: Bytes)
    requires r >= 1 && Ascending(es) && LengthsFit(es) && RestartsFit(r, es)
    ensures Opened(crc, debug, Finished(crc, r, es)).Ok?
    ensures Found(Opened(crc, debug, Finished(crc, r, es)).value, target) ==
            if es == [] then Err(CorruptedEntry) else Ok(Lookup(es, target))
  {
    hide Encoded, Restarts, Opened, Finished, Scan, RestartSearch, IsRestart, Lookup;
    FinishedBlockOpens(crc, debug, r, es);
    var rd := Opened(crc, debug, Finished(crc, r, es)).value;
    if es == [] {
      EmptyBlockIsRefused(rd, r, target);
    } else {
      var keys := HeldRestartKeys(rd, r, es);
      SearchFindsInterval(rd, keys, target, 0, |keys|);
      IntervalScan(rd, r, es, keys, RestartSearch(rd, target, 0, |keys|).value, target);
    }
  }

  lemma EmptyBlockIsRefused(rd: Reader, r: nat, target: Bytes)
    requires r >= 1 && Holds(rd, r, [])
    ensures RestartSearch(rd, target, 0, |rd.restarts|) == Err(CorruptedEntry)
  {
    assert KeyAtRestart(rd, 0) == Err(CorruptedEntry);
  }

  lemma IntervalScan(rd: Reader, r: nat, es: seq<Entry>, keys: seq<Bytes>, i: nat, target: Bytes)
    requires r >= 1 && Holds(rd, r, es) && es != [] && Ascending(es)
    requires |keys| == |rd.restarts| && RightInterval(keys, i, target)
    requires KeysAtMultiples(r, es, keys)
    ensures Scan(rd, IntervalEnd(rd, i), rd.restarts[i], [], target) == Ok(Lookup(es, target))
  {
    hide Encoded, Restarts, Scan, IsRestart, IntervalEnd, Holds, Below, Lookup;
    var from, to := IntervalIsStretch(rd, r, es, i);
    assert i == 0 ==> from == 0;
    assert keys[i] == es[from].key;
    assert i + 1 < |keys| ==> keys[i + 1] == es[to].key;
    ScanIsLookup(rd, r, es, from, to, [], target);
    LookupInStretch(es, from, to, target);
  }

  /** The bytes of interval i are those of entries i * r up to the next restart. */
  lemma IntervalIsStretch(rd: Reader, r: nat, es: seq<Entry>, i: nat) returns (from: nat, to: nat)
    requires r >= 1 && Holds(rd, r, es) && es != [] && i < |rd.restarts|
    ensures from == i * r && to == if i + 1 < |rd.restarts| then (i + 1) * r else |es|
    ensures from <= to <= |es| && IsRestart(r, from)
    ensures rd.restarts[i] == Offset(r, es, from) && IntervalEnd(rd, i) == Offset(r, es, to)
  {
    hide Encoded, Restarts, IsRestart;
    from, to := i * r, if i + 1 < |rd.restarts| then (i + 1) * r else |es|;
    RestartOffset(r, es, i);
    MultipleOf(i, r);
    RestartsAreMultiples(r, i * r);
    assert (i + 1) * r == i * r + r;
    if i + 1 < |rd.restarts| {
      RestartOffset(r, es, i + 1);
    } else {
      assert es[..|es|] == es;
    }
  }
}
