/** The block reader: total on every byte string, with the source's errors and its
    aborts. Each method is proved against the function that specifies it; what the
    functions return on a finished block is proved in BlockLookups. */
module BlockReaders {
  import opened ByteStrings
  import opened Results
  import opened Entries
  import opened BlockFormat
  import Varint

  /** `debug` says whether debug assertions are compiled in. */
  datatype Reader = Reader(data: Bytes, restarts: seq<u32>, entriesEnd: nat, debug: bool) {
    ghost predicate WellFormed() {
      entriesEnd <= |data|
    }
  }

  // ---------------------------------------------------------------------
  // Opening a block
  // ---------------------------------------------------------------------

  function U32Array(data: Bytes, start: nat, count: nat): (r: seq<u32>)
    requires start + 4 * count <= |data|
    ensures |r| == count
  {
    if count == 0 then []
    else U32Array(data, start, count - 1) + [U32At(data, start + 4 * (count - 1))]
  }

  /** The restart count of a foreign block may point before its first byte; the
      source subtracts unchecked and aborts. */
  function Opened(crc: Checksum, debug: bool, data: Bytes): (r: Result<Reader, BlockError>)
    ensures r.Ok? ==> r.value.WellFormed() && r.value.data == data
  {
    if |data| < 8 then Err(BlockTooSmall)
    else
      var crcOffset := |data| - 4;
      if U32At(data, crcOffset) != crc(data[..crcOffset]) then Err(ChecksumMismatch)
      else
        var count := U32At(data, crcOffset - 4);
        if 4 * count > crcOffset - 4 then Err(Panicked)
        else
          var start := crcOffset - 4 - 4 * count;
          Ok(Reader(data, U32Array(data, start, count), start, debug))
  }

  method Open(crc: Checksum, debug: bool, data: Bytes) returns (r: Result<Reader, BlockError>)
    ensures r == Opened(crc, debug, data)
  {
    if |data| < 8 {
      return Err(BlockTooSmall);
    }
    var crcOffset := |data| - 4;
    if U32At(data, crcOffset) != crc(data[..crcOffset]) {
      return Err(ChecksumMismatch);
    }
    var count := U32At(data, crcOffset - 4);
    if 4 * count > crcOffset - 4 {
      return Err(Panicked);
    }
    var start := crcOffset - 4 - 4 * count;
    var restarts := [];
    for i := 0 to count
      invariant restarts == U32Array(data, start, i)
    {
      restarts := restarts + [U32At(data, start + 4 * i)];
    }
    return Ok(Reader(data, restarts, start, debug));
  }

  // ---------------------------------------------------------------------
  // Reading one entry
  // ---------------------------------------------------------------------

  datatype Header = Header(shared: u32, unshared: u32, valueLen: u32)

  /** The three varints of an entry, or the first error, and where reading stopped. */
  datatype HeaderRead = HeaderRead(outcome: Result<Header, BlockError>, pos: nat)

  function HeaderAt(data: Bytes, pos: nat): (h: HeaderRead)
    requires pos <= |data|
    ensures h.pos <= |data|
    ensures h.outcome.Ok? ==> pos < h.pos
  {
    match Varint.Decoded(data[pos..])
    case Err(e) => HeaderRead(Err(e), pos)
    case Ok(shared) =>
      var p1 := pos + shared.consumed;
      match Varint.Decoded(data[p1..])
      case Err(e) => HeaderRead(Err(e), p1)
      case Ok(unshared) =>
        var p2 := p1 + unshared.consumed;
        match Varint.Decoded(data[p2..])
        case Err(e) => HeaderRead(Err(e), p2)
        case Ok(valueLen) =>
          HeaderRead(Ok(Header(shared.value, unshared.value, valueLen.value)), p2 + valueLen.consumed)
  }

  method ReadHeader(data: Bytes, pos: nat) returns (h: HeaderRead)
    requires pos <= |data|
    ensures h == HeaderAt(data, pos)
  {
    hide Varint.Decoded;
    var shared := Varint.Decode(data[pos..]);
    if shared.Err? {
      return HeaderRead(Err(shared.error), pos);
    }
    var p1 := pos + shared.value.consumed;
    var unshared := Varint.Decode(data[p1..]);
    if unshared.Err? {
      return HeaderRead(Err(unshared.error), p1);
    }
    var p2 := p1 + unshared.value.consumed;
    var valueLen := Varint.Decode(data[p2..]);
    if valueLen.Err? {
      return HeaderRead(Err(valueLen.error), p2);
    }
    return HeaderRead(Ok(Header(shared.value.value, unshared.value.value, valueLen.value.value)),
                      p2 + valueLen.value.consumed);
  }

  /** What reading one entry leaves behind: the entry or an error, the position
      and the rebuilt key, both also when the entry turns out to be damaged. */
  datatype Step = Step(outcome: Result<Entry, BlockError>, pos: nat, key: Bytes)

  /** Vec::truncate: a longer length leaves the vector alone. */
  function Truncated(key: Bytes, n: nat): Bytes {
    if n < |key| then key[..n] else key
  }

  function StepAt(rd: Reader, pos: nat, key: Bytes): (s: Step)
    requires rd.WellFormed()
    ensures s.outcome.Ok? ==> pos < s.pos <= rd.entriesEnd && s.key == s.outcome.value.key
  {
    if pos > |rd.data| then Step(Err(Panicked), pos, key)
    else
      var h := HeaderAt(rd.data, pos);
      if h.outcome.Err? then Step(Err(h.outcome.error), h.pos, key)
      else
        var kept := Truncated(key, h.outcome.value.shared);
        var keyEnd := h.pos + h.outcome.value.unshared;
        if keyEnd > rd.entriesEnd then Step(Err(CorruptedEntry), h.pos, kept)
        else
          var rebuilt := kept + rd.data[h.pos..keyEnd];
          var valueEnd := keyEnd + h.outcome.value.valueLen;
          if valueEnd > rd.entriesEnd then Step(Err(CorruptedEntry), keyEnd, rebuilt)
          else Step(Ok(Pair(rebuilt, rd.data[keyEnd..valueEnd])), valueEnd, rebuilt)
  }

  method ReadEntry(rd: Reader, pos: nat, key: Bytes) returns (s: Step)
    requires rd.WellFormed()
    ensures s == StepAt(rd, pos, key)
  {
    hide HeaderAt;
    if pos > |rd.data| {
      return Step(Err(Panicked), pos, key);
    }
    var h := ReadHeader(rd.data, pos);
    if h.outcome.Err? {
      return Step(Err(h.outcome.error), h.pos, key);
    }
    var currentKey := Truncated(key, h.outcome.value.shared);
    var keyEnd := h.pos + h.outcome.value.unshared;
    if keyEnd > rd.entriesEnd {
      return Step(Err(CorruptedEntry), h.pos, currentKey);
    }
    currentKey := currentKey + rd.data[h.pos..keyEnd];
    var valueEnd := keyEnd + h.outcome.value.valueLen;
    if valueEnd > rd.entriesEnd {
      return Step(Err(CorruptedEntry), keyEnd, currentKey);
    }
    return Step(Ok(Pair(currentKey, rd.data[keyEnd..valueEnd])), valueEnd, currentKey);
  }

  // ---------------------------------------------------------------------
  // Point lookup
  // ---------------------------------------------------------------------

  /** The debug assertion at a restart entry fails: its shared length reads as other
      than 0. */
  predicate Trips(rd: Reader, i: nat)
    requires rd.WellFormed() && i < |rd.restarts|
  {
    && rd.debug && rd.restarts[i] < rd.entriesEnd
    && var shared := Varint.Decoded(rd.data[rd.restarts[i]..]);
       shared.Ok? && shared.value.value != 0
  }

  /** decode_key_at_restart: asserts in debug builds that the shared length is 0, and
      reads on past any other in the rest. */
  function KeyAtRestart(rd: Reader, i: nat): Result<Bytes, BlockError>
    requires rd.WellFormed() && i < |rd.restarts|
  {
    if rd.restarts[i] >= rd.entriesEnd then Err(CorruptedEntry)
    else if Trips(rd, i) then Err(Panicked)
    else
      var h := HeaderAt(rd.data, rd.restarts[i]);
      if h.outcome.Err? then Err(h.outcome.error)
      else if h.pos + h.outcome.value.unshared > rd.entriesEnd then Err(CorruptedEntry)
      else Ok(rd.data[h.pos..h.pos + h.outcome.value.unshared])
  }

  method DecodeKeyAtRestart(rd: Reader, i: nat) returns (r: Result<Bytes, BlockError>)
    requires rd.WellFormed() && i < |rd.restarts|
    ensures r == KeyAtRestart(rd, i)
  {
    hide Varint.Decoded;
    var pos: nat := rd.restarts[i];
    if pos >= rd.entriesEnd {
      return Err(CorruptedEntry);
    }
    var shared := Varint.Decode(rd.data[pos..]);
    if shared.Err? {
      return Err(shared.error);
    }
    if rd.debug && shared.value.value != 0 {
      return Err(Panicked);
    }
    var p1 := pos + shared.value.consumed;
    var unshared := Varint.Decode(rd.data[p1..]);
    if unshared.Err? {
      return Err(unshared.error);
    }
    var p2 := p1 + unshared.value.consumed;
    var valueLen := Varint.Decode(rd.data[p2..]);
    if valueLen.Err? {
      return Err(valueLen.error);
    }
    var keyStart := p2 + valueLen.value.consumed;
    var keyEnd := keyStart + unshared.value.value;
    if keyEnd > rd.entriesEnd {
      return Err(CorruptedEntry);
    }
    return Ok(rd.data[keyStart..keyEnd]);
  }

  /** The binary search over restart keys, still to look between lo and hi. */
  function RestartSearch(rd: Reader, target: Bytes, lo: nat, hi: nat): (r: Result<nat, BlockError>)
    requires rd.WellFormed() && lo <= hi <= |rd.restarts|
    ensures r.Ok? ==> r.value < |rd.restarts| || r.value == 0
    decreases hi - lo
  {
    if lo == hi then Ok(if lo > 0 then lo - 1 else 0)
    else
      var mid := lo + (hi - lo) / 2;
      var key := KeyAtRestart(rd, mid);
      if key.Err? then Err(key.error)
      else
        match Compare(key.value, target)
        case Less => RestartSearch(rd, target, mid + 1, hi)
        case Equal => Ok(mid)
        case Greater => RestartSearch(rd, target, lo, mid)
  }

  method FindRestartForKey(rd: Reader, target: Bytes) returns (r: Result<nat, BlockError>)
    requires rd.WellFormed()
    ensures r == RestartSearch(rd, target, 0, |rd.restarts|)
  {
    hide KeyAtRestart, Compare;
    var lo: nat, hi: nat := 0, |rd.restarts|;
    while lo < hi
      invariant lo <= hi <= |rd.restarts|
      invariant RestartSearch(rd, target, lo, hi) == RestartSearch(rd, target, 0, |rd.restarts|)
    {
      var mid := lo + (hi - lo) / 2;
      var key := DecodeKeyAtRestart(rd, mid);
      if key.Err? {
        return Err(key.error);
      }
      match Compare(key.value, target) {
        case Less => lo := mid + 1;
        case Equal => return Ok(mid);
        case Greater => hi := mid;
      }
    }
    return Ok(if lo > 0 then lo - 1 else 0);
  }

  /** The linear scan from pos, with the key rebuilt so far, up to end. */
  function Scan(rd: Reader, end: nat, pos: nat, key: Bytes, target: Bytes): Result<Option<Bytes>, BlockError>
    requires rd.WellFormed()
    decreases end - pos
  {
    if pos >= end then Ok(None)
    else
      var s := StepAt(rd, pos, key);
      if s.outcome.Err? then Err(s.outcome.error)
      else
        match Compare(s.key, target)
        case Equal => Ok(Some(s.outcome.value.value))
        case Greater => Ok(None)
        case Less => Scan(rd, end, s.pos, s.key, target)
  }

  /** Where the interval of restart i ends. */
  function IntervalEnd(rd: Reader, i: nat): nat {
    if i + 1 < |rd.restarts| then rd.restarts[i + 1] else rd.entriesEnd
  }

  /** A block without restarts makes the source index past the end of an empty vector. */
  function Found(rd: Reader, target: Bytes): Result<Option<Bytes>, BlockError>
    requires rd.WellFormed()
  {
    var restart := RestartSearch(rd, target, 0, |rd.restarts|);
    if restart.Err? then Err(restart.error)
    else if restart.value >= |rd.restarts| then Err(Panicked)
    else Scan(rd, IntervalEnd(rd, restart.value), rd.restarts[restart.value], [], target)
  }

  method Get(rd: Reader, target: Bytes) returns (r: Result<Option<Bytes>, BlockError>)
    requires rd.WellFormed()
    ensures r == Found(rd, target)
  {
    hide RestartSearch, StepAt, Compare;
    var restart := FindRestartForKey(rd, target);
    if restart.Err? {
      return Err(restart.error);
    }
    if restart.value >= |rd.restarts| {
      return Err(Panicked);
    }
    var start, end := rd.restarts[restart.value], IntervalEnd(rd, restart.value);
    var currentKey := [];
    var pos: nat := start;
    while pos < end
      invariant Scan(rd, end, pos, currentKey, target) == Scan(rd, end, start, [], target)
      decreases end - pos
    {
      var s := ReadEntry(rd, pos, currentKey);
      if s.outcome.Err? {
        return Err(s.outcome.error);
      }
      match Compare(s.key, target) {
        case Equal => return Ok(Some(s.outcome.value.value));
        case Greater => return Ok(None);
        case Less =>
      }
      pos, currentKey := s.pos, s.key;
    }
    return Ok(None);
  }

  // ---------------------------------------------------------------------
  // Iteration
  // ---------------------------------------------------------------------

  /** Every entry from pos on and where reading ends, or the first error: the
      iterator run to its end. */
  function EntriesFrom(rd: Reader, pos: nat, key: Bytes): Result<Read<seq<Entry>>, BlockError>
    requires rd.WellFormed()
    decreases rd.entriesEnd - pos
  {
    if pos >= rd.entriesEnd then Ok(Read([], pos))
    else
      var s := StepAt(rd, pos, key);
      if s.outcome.Err? then Err(s.outcome.error)
      else
        var rest := EntriesFrom(rd, s.pos, s.key);
        Prepend([s.outcome.value], rest)
  }

  class BlockIterator {
    const rd: Reader
    var pos: nat
    var currentKey: Bytes

    constructor (rd: Reader)
      ensures this.rd == rd && pos == 0 && currentKey == []
    {
      this.rd, pos, currentKey := rd, 0, [];
    }

    /** One entry or one error at a time; None once the entry section is used up. */
    method Next() returns (item: Option<Result<Entry, BlockError>>)
      requires rd.WellFormed()
      modifies this
      ensures item.None? <==> old(pos) >= rd.entriesEnd
      ensures item.None? ==> unchanged(this)
      ensures item.Some? ==>
                Step(item.value, pos, currentKey) == StepAt(rd, old(pos), old(currentKey))
    {
      if pos >= rd.entriesEnd {
        return None;
      }
      var s := ReadEntry(rd, pos, currentKey);
      pos, currentKey := s.pos, s.key;
      return Some(s.outcome);
    }
  }

  /** Runs a fresh iterator to its end, stopping at the first error. */
  method ReadAll(rd: Reader) returns (r: Result<Read<seq<Entry>>, BlockError>)
    requires rd.WellFormed()
    ensures r == EntriesFrom(rd, 0, [])
  {
    hide StepAt;
    var it := new BlockIterator(rd);
    var entries := [];
    PrependNothing(EntriesFrom(rd, 0, []));
    var item := it.Next();
    ghost var before, key := 0, [];
    while item.Some?
      invariant it.rd == rd
      invariant item.Some? ==> before < rd.entriesEnd
      invariant item.Some? ==> Step(item.value, it.pos, it.currentKey) == StepAt(rd, before, key)
      invariant item.None? ==> it.pos == before >= rd.entriesEnd
      invariant EntriesFrom(rd, 0, []) == Prepend(entries, EntriesFrom(rd, before, key))
      decreases rd.entriesEnd - before
    {
      if item.value.Err? {
        return Err(item.value.error);
      }
      PrependStep(entries, item.value.value, EntriesFrom(rd, it.pos, it.currentKey));
      entries := entries + [item.value.value];
      before, key := it.pos, it.currentKey;
      item := it.Next();
    }
    assert entries + [] == entries;
    return Ok(Read(entries, it.pos));
  }
}
