/** The block builder and the variant that remembers its first and last key. */
module BlockBuilders {
  import opened ByteStrings
  import opened Results
  import opened Entries
  import opened BlockFormat
  import Varint

  /** The bound is met: with a restart interval of 1, a second entry whose key and
      value each take a five-byte length ends 10 bytes above the limit. */
  lemma SizeBoundIsTight(key: Bytes, value: Bytes, maxSize: u32)
    requires 0x1000_0000 <= |key| < U32_LIMIT && 0x1000_0000 <= |value| < U32_LIMIT
    requires maxSize == 20 + |key| + |value|
    ensures var es, e := [Pair([], [])], Pair(key, value);
            HasRoom(maxSize, 1, es, e) && EstimatedSize(1, es + [e]) == maxSize + 10
  {
    var es, e := [Pair([], [])], Pair(key, value);
    var all := es + [e];
    assert Front(all) == es && Last(all) == e && all[..1] == es && Front(es) == [];
    LongLength(|key|);
    LongLength(|value|);
    assert Encoded(1, es) == EncodedEntry(0, es[0]);
    assert |Restarts(1, all)| == 2;
  }

  lemma LongLength(v: u32)
    requires v >= 0x1000_0000
    ensures |Varint.Encoded(v)| == 5
  {
    var a, b, c, d := v / 128, v / 128 / 128, v / 128 / 128 / 128, v / 128 / 128 / 128 / 128;
    assert 1 <= d < 16;
    assert |Varint.Encoded(d)| == 1 && |Varint.Encoded(c)| == 2 && |Varint.Encoded(b)| == 3 && |Varint.Encoded(a)| == 4;
  }

  /** What the size check tells about a block about to grow: no counter overflows
      and the next restart offset fits its 32 bits. */
  lemma RoomForOneMore(maxSize: u32, r: nat, es: seq<Entry>, e: Entry)
    requires 1 <= r < U32_LIMIT && HasRoom(maxSize, r, es, e)
    ensures |es| + 1 < U32_LIMIT
    ensures es == [] || (|Encoded(r, es)| < U32_LIMIT && |Restarts(r, es)| + 1 < U32_LIMIT)
    ensures es == [] || EstimatedSize(r, es + [e]) <= maxSize + 10
    ensures SharedAt(r, es + [e], |es|) ==
            if es == [] || SinceRestart(r, |es|) >= r then 0 else SharedPrefix(Last(es).key, e.key)
    ensures Encoded(r, es + [e]) == Encoded(r, es) + EncodedEntry(SharedAt(r, es + [e], |es|), e)
    ensures Restarts(r, es + [e]) ==
            if es != [] && SinceRestart(r, |es|) >= r then Restarts(r, es) + [|Encoded(r, es)|] else Restarts(r, es)
  {
    hide Encoded, Restarts, EncodedEntry, SharedPrefix;
    AppendEntry(r, es, e);
    assert (es + [e])[|es|] == e && (es != [] ==> (es + [e])[|es| - 1] == Last(es));
    if es != [] {
      OffsetsRise(r, es, 0, |es|);
      assert es[..|es|] == es;
      RoomBoundsSize(maxSize, r, es, e);
    }
  }

  class BlockBuilder {
    var buf: Bytes
    var restarts: seq<u32>
    var lastKey: Bytes
    var entriesSinceRestart: u32
    const restartInterval: u32
    const maxBlockSize: u32
    var entryCount: u32
    ghost var entries: seq<Entry>

    ghost predicate Valid()
      reads this
    {
      && restartInterval >= 1
      && entryCount == |entries|
      && buf == Encoded(restartInterval, entries)
      && restarts == Restarts(restartInterval, entries)
      && |restarts| < U32_LIMIT
      && lastKey == (if entries == [] then [] else Last(entries).key)
      && entriesSinceRestart == SinceRestart(restartInterval, |entries|)
      && (|entries| >= 2 ==> EstimatedSize(restartInterval, entries) <= maxBlockSize + 10)
    }

    constructor (maxBlockSize: u32, restartInterval: u32)
      ensures Valid() && entries == []
      ensures this.maxBlockSize == maxBlockSize
      ensures this.restartInterval == if restartInterval == 0 then 1 else restartInterval
    {
      this.restartInterval := if restartInterval == 0 then 1 else restartInterval;
      this.maxBlockSize := maxBlockSize;
      buf, restarts, lastKey := [], [0], [];
      entriesSinceRestart, entryCount := 0, 0;
      entries := [];
    }

    /** Takes the entry exactly when there is room; a refusal changes nothing. No
        counter overflows and no restart offset is truncated, for keys and values
        of any length. */
    method Add(key: Bytes, value: Bytes) returns (added: bool)
      requires Valid()
      modifies this
      ensures Valid()
      ensures added == HasRoom(maxBlockSize, restartInterval, old(entries), Pair(key, value))
      ensures entries == if added then old(entries) + [Pair(key, value)] else old(entries)
      ensures !added ==> unchanged(this)
    {
      hide Encoded, Restarts, EncodedEntry, SharedPrefix, SharedAt, IsRestart;
      var estimatedEntrySize := 5 + |key| + |value|;
      var estimatedTotal := CurrentSize() + estimatedEntrySize;
      if entryCount > 0 && estimatedTotal > maxBlockSize {
        return false;
      }
      ghost var r, all := restartInterval, entries + [Pair(key, value)];
      RoomForOneMore(maxBlockSize, r, entries, Pair(key, value));

      var isRestart := entriesSinceRestart >= restartInterval;
      var sharedLen := 0;
      if isRestart || entryCount == 0 {
        if entryCount > 0 {
          restarts := restarts + [AsU32(|buf|)];
        }
        entriesSinceRestart := 0;
      } else {
        sharedLen := SharedPrefix(lastKey, key);
      }
      assert restarts == Restarts(r, all);
      assert sharedLen == SharedAt(r, all, |entries|);
      WriteEntry(sharedLen, key, value);
      lastKey := key;
      entriesSinceRestart := entriesSinceRestart + 1;
      entryCount := entryCount + 1;
      entries := all;
      return true;
    }

    /** Appends one encoded entry to the buffer. */
    method WriteEntry(sharedLen: nat, key: Bytes, value: Bytes)
      requires sharedLen <= |key|
      modifies this`buf
      ensures buf == old(buf) + EncodedEntry(sharedLen, Pair(key, value))
    {
      hide Varint.Encoded;
      var n;
      buf, n := Varint.Encode(AsU32(sharedLen), buf);
      buf, n := Varint.Encode(AsU32(|key| - sharedLen), buf);
      buf, n := Varint.Encode(AsU32(|value|), buf);
      buf := buf + key[sharedLen..];
      buf := buf + value;
    }

    /** estimated_size: the bytes `Finish` would return now. */
    function CurrentSize(): nat
      requires Valid()
      reads this
      ensures CurrentSize() == EstimatedSize(restartInterval, entries)
    {
      |buf| + |restarts| * 4 + 4 + 4
    }

    lemma EncodedSizes()
      requires Valid()
      ensures buf == Encoded(restartInterval, entries) && restarts == Restarts(restartInterval, entries)
      ensures |entries| >= 2 ==> EstimatedSize(restartInterval, entries) <= maxBlockSize + 10
      ensures RestartBytes(restarts[..0]) == [] && restartInterval >= 1
    {
    }

    method Finish(crc: Checksum) returns (bytes: Bytes)
      requires Valid()
      ensures bytes == Finished(crc, restartInterval, entries)
      ensures |bytes| == CurrentSize()
      ensures |entries| >= 2 ==> |bytes| <= maxBlockSize + 10
    {
      hide Encoded, Restarts, RestartBytes, Valid;
      EncodedSizes();
      var out := buf;
      for i := 0 to |restarts|
        invariant out == buf + RestartBytes(restarts[..i])
      {
        var next := ToLE(restarts[i], 4);
        RestartBytesStep(restarts, i);
        assert out + next == buf + (RestartBytes(restarts[..i]) + next);
        out := out + next;
      }
      assert restarts[..|restarts|] == restarts;
      out := out + ToLE(AsU32(|restarts|), 4);
      bytes := out + ToLE(crc(out), 4);
    }
  }

  class TrackedBlockBuilder {
    const inner: BlockBuilder
    var firstKey: Option<Bytes>
    var lastKey: Option<Bytes>

    ghost predicate Valid()
      reads this, inner
    {
      && inner.Valid()
      && firstKey == (if inner.entries == [] then None else Some(inner.entries[0].key))
      && lastKey == (if inner.entries == [] then None else Some(Last(inner.entries).key))
    }

    constructor (maxBlockSize: u32, restartInterval: u32)
      ensures Valid() && fresh(inner) && inner.entries == []
      ensures inner.maxBlockSize == maxBlockSize
      ensures inner.restartInterval == if restartInterval == 0 then 1 else restartInterval
    {
      inner := new BlockBuilder(maxBlockSize, restartInterval);
      firstKey, lastKey := None, None;
    }

    method Add(key: Bytes, value: Bytes) returns (added: bool)
      requires Valid()
      modifies this, inner
      ensures Valid()
      ensures added == HasRoom(inner.maxBlockSize, inner.restartInterval, old(inner.entries), Pair(key, value))
      ensures inner.entries == if added then old(inner.entries) + [Pair(key, value)] else old(inner.entries)
      ensures !added ==> unchanged(this) && unchanged(inner)
    {
      hide EstimatedSize, Encoded, Restarts;
      added := inner.Add(key, value);
      if added {
        if firstKey.None? {
          firstKey := Some(key);
        }
        lastKey := Some(key);
      }
    }

    /** The finished block with the keys at its ends; empty keys for an empty block. */
    method Finish(crc: Checksum) returns (bytes: Bytes, first: Bytes, last: Bytes)
      requires Valid()
      ensures bytes == Finished(crc, inner.restartInterval, inner.entries)
      ensures first == if inner.entries == [] then [] else inner.entries[0].key
      ensures last == if inner.entries == [] then [] else Last(inner.entries).key
    {
      bytes := inner.Finish(crc);
      first := if firstKey.Some? then firstKey.value else [];
      last := if lastKey.Some? then lastKey.value else [];
    }

    method IsEmpty() returns (r: bool)
      requires Valid()
      ensures r <==> inner.entries == []
    {
      r := inner.entryCount == 0;
    }
  }
}
