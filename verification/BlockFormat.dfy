/** The bytes of a data block, as a function of the entries it holds:
    prefix-compressed entries, the restart offsets, their count and a checksum. */
module BlockFormat {
  import opened ByteStrings
  import opened Entries
  import Varint

  /** The 32-bit checksum of the block and footer trailers: any function of the bytes. */
  type Checksum = Bytes -> u32

  /** shared_prefix_len: the longest common prefix, by its two defining facts. */
  function SharedPrefix(a: Bytes, b: Bytes): (n: nat)
    ensures n <= |a| && n <= |b| && a[..n] == b[..n]
    ensures n < |a| && n < |b| ==> a[n] != b[n]
  {
    if a == [] || b == [] || a[0] != b[0] then 0
    else
      var n := SharedPrefix(a[1..], b[1..]);
      assert a[..n + 1] == [a[0]] + a[1..][..n] && b[..n + 1] == [b[0]] + b[1..][..n];
      1 + n
  }

  /** The builder's running counter: entries since the last restart point, the
      restart entry included. */
  function SinceRestart(r: nat, n: nat): (c: nat)
    requires r >= 1
    ensures c <= r && c <= n && (n > 0 ==> c > 0)
  {
    if n == 0 then 0 else if SinceRestart(r, n - 1) >= r then 1 else SinceRestart(r, n - 1) + 1
  }

  /** Entry n opens a new interval when the previous ones filled theirs. */
  predicate IsRestart(r: nat, n: nat)
    requires r >= 1
  {
    n == 0 || SinceRestart(r, n) >= r
  }

  /** How many leading bytes entry i leaves out: none at a restart point. */
  function SharedAt(r: nat, es: seq<Entry>, i: nat): (n: nat)
    requires r >= 1 && i < |es|
    ensures n <= |es[i].key|
    ensures IsRestart(r, i) ==> n == 0
    ensures !IsRestart(r, i) ==> n <= |es[i - 1].key| && es[i - 1].key[..n] == es[i].key[..n]
  {
    if IsRestart(r, i) then 0 else SharedPrefix(es[i - 1].key, es[i].key)
  }

  function EncodedEntry(shared: nat, e: Entry): (b: Bytes)
    requires shared <= |e.key|
    ensures |b| >= 3
  {
    Varint.Encoded(AsU32(shared)) + Varint.Encoded(AsU32(|e.key| - shared)) + Varint.Encoded(AsU32(|e.value|))
      + e.key[shared..] + e.value
  }

  /** The entry section. */
  function Encoded(r: nat, es: seq<Entry>): Bytes
    requires r >= 1
  {
    if es == [] then []
    else Encoded(r, Front(es)) + EncodedEntry(SharedAt(r, es, |es| - 1), Last(es))
  }

  /** The byte offset of entry i; the end of the section when i is the entry count. */
  function Offset(r: nat, es: seq<Entry>, i: nat): nat
    requires r >= 1 && i <= |es|
  {
    |Encoded(r, es[..i])|
  }

  /** The restart array: it starts at offset 0 and grows by one with every later
      restart entry. */
  function Restarts(r: nat, es: seq<Entry>): (offsets: seq<nat>)
    requires r >= 1
    ensures offsets != []
  {
    if |es| <= 1 then [0]
    else if IsRestart(r, |es| - 1) then Restarts(r, Front(es)) + [Offset(r, es, |es| - 1)]
    else Restarts(r, Front(es))
  }

  function RestartBytes(offsets: seq<nat>): (b: Bytes)
    ensures |b| == 4 * |offsets|
  {
    if offsets == [] then [] else RestartBytes(Front(offsets)) + ToLE(AsU32(Last(offsets)), 4)
  }

  lemma RestartBytesStep(offsets: seq<nat>, i: nat)
    requires i < |offsets| && offsets[i] < U32_LIMIT
    ensures RestartBytes(offsets[..i + 1]) == RestartBytes(offsets[..i]) + ToLE(offsets[i], 4)
  {
    assert Front(offsets[..i + 1]) == offsets[..i];
  }

  /** Everything the checksum covers: entry section, restart array and its count. */
  function Body(entries: Bytes, offsets: seq<nat>): Bytes {
    entries + RestartBytes(offsets) + ToLE(AsU32(|offsets|), 4)
  }

  function Sealed(crc: Checksum, entries: Bytes, offsets: seq<nat>): (b: Bytes)
    ensures |b| == |entries| + 4 * |offsets| + 8
  {
    Body(entries, offsets) + ToLE(crc(Body(entries, offsets)), 4)
  }

  /** The finished block. */
  function Finished(crc: Checksum, r: nat, es: seq<Entry>): (b: Bytes)
    requires r >= 1
    ensures |b| >= 12
  {
    Sealed(crc, Encoded(r, es), Restarts(r, es))
  }

  function ThreeEntries(): seq<Entry> {
    [Pair([0x61], [0x31]), Pair([0x61, 0x62], [0x32]), Pair([0x62], [0x33])]
  }

  lemma ShortEntry(shared: nat, e: Entry)
    requires shared <= |e.key| < 128 && |e.value| < 128
    ensures EncodedEntry(shared, e) == [shared, |e.key| - shared, |e.value|] + e.key[shared..] + e.value
  {
  }

  lemma ThreeEntriesShare()
    ensures var es := ThreeEntries();
            SharedAt(2, es[..1], 0) == 0 && SharedAt(2, es[..2], 1) == 1 && SharedAt(2, es, 2) == 0
  {
    assert SinceRestart(2, 1) == 1 && SinceRestart(2, 2) == 2;
    assert SharedPrefix([0x61], [0x61, 0x62]) >= 1;
  }

  lemma ThreeEntriesEncoded()
    ensures Encoded(2, ThreeEntries()) == [0, 1, 1, 0x61, 0x31] + [1, 1, 1, 0x62, 0x32] + [0, 1, 1, 0x62, 0x33]
    ensures Offset(2, ThreeEntries(), 2) == 10
  {
    hide EncodedEntry, SharedAt;
    var es := ThreeEntries();
    assert Front(es) == es[..2] && Front(es[..2]) == es[..1] && Front(es[..1]) == [];
    ThreeEntriesShare();
    ShortEntry(0, es[0]);
    ShortEntry(1, es[1]);
    ShortEntry(0, es[2]);
    assert Encoded(2, es[..1]) == [] + EncodedEntry(0, es[0]);
    assert Encoded(2, es[..2]) == Encoded(2, es[..1]) + EncodedEntry(1, es[1]);
  }

  /** The documented layout, byte by byte: three entries with a restart every two, the
      second sharing one byte with the first. */
  lemma LayoutOfThree(crc: Checksum)
    ensures var body := [0, 1, 1, 0x61, 0x31] + [1, 1, 1, 0x62, 0x32] + [0, 1, 1, 0x62, 0x33]
                          + [0, 0, 0, 0, 10, 0, 0, 0] + [2, 0, 0, 0];
            Finished(crc, 2, ThreeEntries()) == body + ToLE(crc(body), 4)
  {
    hide ToLE, Encoded;
    var es := ThreeEntries();
    ThreeEntriesEncoded();
    assert Front(es) == es[..2] && SinceRestart(2, 1) == 1 && SinceRestart(2, 2) == 2;
    assert Restarts(2, es[..2]) == [0];
    assert Restarts(2, es) == [0, 10];
    assert Front([0, 10]) == [0] && Front([0]) == [];
    FourBytes(0);
    FourBytes(10);
    FourBytes(2);
    assert RestartBytes([0]) == [] + ToLE(0, 4);
    assert RestartBytes([0, 10]) == [0, 0, 0, 0, 10, 0, 0, 0];
  }

  function EstimatedSize(r: nat, es: seq<Entry>): nat
    requires r >= 1
  {
    |Encoded(r, es)| + 4 * |Restarts(r, es)| + 8
  }

  /** The builder's size check: the first entry always goes in. */
  predicate HasRoom(maxSize: u32, r: nat, es: seq<Entry>, e: Entry)
    requires r >= 1
  {
    es == [] || EstimatedSize(r, es) + 5 + |e.key| + |e.value| <= maxSize
  }

  /** What the 32-bit length fields of an entry can hold. */
  ghost predicate LengthsFit(es: seq<Entry>) {
    forall e :: e in es ==> |e.key| < U32_LIMIT && |e.value| < U32_LIMIT
  }

  /** What the 32-bit restart array can hold. */
  ghost predicate RestartsFit(r: nat, es: seq<Entry>)
    requires r >= 1
  {
    && (forall i :: 0 <= i < |Restarts(r, es)| ==> Restarts(r, es)[i] < U32_LIMIT)
    && |Restarts(r, es)| < U32_LIMIT
  }

  /** The three varints take 3 to 15 bytes, and at a restart point at most 11. */
  lemma EntryLength(shared: nat, e: Entry)
    requires shared <= |e.key|
    ensures |EncodedEntry(shared, e)| <= 15 + |e.key| + |e.value|
    ensures shared == 0 ==> |EncodedEntry(shared, e)| <= 11 + |e.key| + |e.value|
  {
    Varint.EncodedLength(AsU32(shared));
    Varint.EncodedLength(AsU32(|e.key| - shared));
    Varint.EncodedLength(AsU32(|e.value|));
  }

  /** How the section and the restart array grow by one entry. */
  lemma AppendEntry(r: nat, es: seq<Entry>, e: Entry)
    requires r >= 1
    ensures Encoded(r, es + [e]) == Encoded(r, es) + EncodedEntry(SharedAt(r, es + [e], |es|), e)
    ensures Restarts(r, es + [e]) ==
            if es != [] && IsRestart(r, |es|) then Restarts(r, es) + [|Encoded(r, es)|] else Restarts(r, es)
  {
    var all := es + [e];
    assert Front(all) == es && Last(all) == e && all[..|es|] == es;
  }

  /** An entry that passed the size check leaves the block at most 10 bytes above
      the limit: the check counts 5 bytes for the three varints and nothing for a
      new restart. */
  lemma RoomBoundsSize(maxSize: u32, r: nat, es: seq<Entry>, e: Entry)
    requires r >= 1 && es != [] && HasRoom(maxSize, r, es, e)
    ensures EstimatedSize(r, es + [e]) <= maxSize + 10
    ensures RestartsFit(r, es) ==> RestartsFit(r, es + [e])
  {
    AppendEntry(r, es, e);
    EntryLength(SharedAt(r, es + [e], |es|), e);
  }

  /** The bytes an entry takes beside its key and value: three varints, and four
      more when it adds a restart. */
  function Overhead(r: nat, es: seq<Entry>, e: Entry): nat
    requires r >= 1
  {
    var shared := SharedAt(r, es + [e], |es|);
    |Varint.Encoded(AsU32(shared))| + |Varint.Encoded(AsU32(|e.key| - shared))| + |Varint.Encoded(AsU32(|e.value|))|
      + if es != [] && IsRestart(r, |es|) then 4 else 0
  }

  /** What the size check would total for the next entry. */
  function CheckedTotal(r: nat, es: seq<Entry>, e: Entry): nat
    requires r >= 1
  {
    EstimatedSize(r, es) + 5 + |e.key| + |e.value|
  }

  lemma GrowthIsExact(r: nat, es: seq<Entry>, e: Entry)
    requires r >= 1
    ensures EstimatedSize(r, es + [e]) ==
            CheckedTotal(r, es, e) + Overhead(r, es, e) - 5 - SharedAt(r, es + [e], |es|)
  {
    hide Varint.Encoded, SharedAt, IsRestart, Encoded, Restarts;
    AppendEntry(r, es, e);
  }

  /** Which limits accept an entry, by the size the block would have with it. */
  lemma RoomIff(maxSize: u32, r: nat, es: seq<Entry>, e: Entry)
    requires r >= 1
    ensures HasRoom(maxSize, r, es, e) <==>
            es == [] || EstimatedSize(r, es + [e]) + 5 + SharedAt(r, es + [e], |es|) <= maxSize + Overhead(r, es, e)
  {
    hide Overhead, SharedAt, EstimatedSize;
    GrowthIsExact(r, es, e);
  }

  /** A refused entry was close to the limit at least: counting its shared prefix and
      two bytes more, the block with it would lie above. */
  lemma RefusedWouldOverfill(maxSize: u32, r: nat, es: seq<Entry>, e: Entry)
    requires r >= 1 && !HasRoom(maxSize, r, es, e)
    ensures es != [] && EstimatedSize(r, es + [e]) + 2 + SharedAt(r, es + [e], |es|) > maxSize
  {
    hide Varint.Encoded, SharedAt, EstimatedSize;
    RoomIff(maxSize, r, es, e);
  }

  /** Exactly when an entry the check accepts keeps the block within the limit: the
      overhead it did not count is no more than the room it left. The first entry is
      accepted unchecked, and the same comparison says when it fits. */
  lemma LimitIsKeptIff(maxSize: u32, r: nat, es: seq<Entry>, e: Entry)
    requires r >= 1 && HasRoom(maxSize, r, es, e)
    ensures EstimatedSize(r, es + [e]) <= maxSize <==>
            Overhead(r, es, e) - 5 - SharedAt(r, es + [e], |es|) <= maxSize - CheckedTotal(r, es, e)
  {
    hide Overhead, SharedAt, EstimatedSize;
    GrowthIsExact(r, es, e);
  }

  /** Whatever the limit: a checked entry keeps the block within every limit that
      accepts it exactly when its overhead is at most 5 bytes and its shared prefix. */
  lemma EveryLimitIsKeptIff(r: nat, es: seq<Entry>, e: Entry)
    requires r >= 1 && es != [] && CheckedTotal(r, es, e) < U32_LIMIT
    ensures (forall maxSize: u32 :: HasRoom(maxSize, r, es, e) ==> EstimatedSize(r, es + [e]) <= maxSize) <==>
            Overhead(r, es, e) <= 5 + SharedAt(r, es + [e], |es|)
  {
    hide Overhead, SharedAt, EstimatedSize;
    GrowthIsExact(r, es, e);
    assert HasRoom(CheckedTotal(r, es, e), r, es, e);
  }

  // ---------------------------------------------------------------------
  // Where the entries lie
  // ---------------------------------------------------------------------

  /** The section of a prefix of the list is a prefix of the section. */
  lemma {:induction false} EncodedPrefix(r: nat, es: seq<Entry>, i: nat)
    requires r >= 1 && i <= |es|
    ensures Offset(r, es, i) <= |Encoded(r, es)|
    ensures Encoded(r, es)[..Offset(r, es, i)] == Encoded(r, es[..i])
    decreases |es|
  {
    if i == |es| {
      assert es[..i] == es;
    } else {
      EncodedPrefix(r, Front(es), i);
      assert Front(es)[..i] == es[..i];
    }
  }

  lemma {:induction false} OffsetStep(r: nat, es: seq<Entry>, i: nat)
    requires r >= 1 && i < |es|
    ensures Offset(r, es, i + 1) == Offset(r, es, i) + |EncodedEntry(SharedAt(r, es, i), es[i])|
    ensures Offset(r, es, i + 1) <= |Encoded(r, es)|
    ensures Encoded(r, es)[Offset(r, es, i)..Offset(r, es, i + 1)] == EncodedEntry(SharedAt(r, es, i), es[i])
  {
    var upto := es[..i + 1];
    assert Front(upto) == es[..i] && Last(upto) == es[i];
    assert SharedAt(r, upto, i) == SharedAt(r, es, i);
    EncodedPrefix(r, es, i + 1);
    EncodedPrefix(r, es, i);
    var whole := Encoded(r, es);
    assert whole[Offset(r, es, i)..Offset(r, es, i + 1)] == Encoded(r, upto)[Offset(r, es, i)..];
  }

  lemma {:induction false} OffsetsRise(r: nat, es: seq<Entry>, i: nat, j: nat)
    requires r >= 1 && i <= j <= |es|
    ensures Offset(r, es, i) + 3 * (j - i) <= Offset(r, es, j) <= |Encoded(r, es)|
    decreases j - i
  {
    hide Encoded, EncodedEntry;
    EncodedPrefix(r, es, j);
    if i < j {
      OffsetStep(r, es, j - 1);
      OffsetsRise(r, es, i, j - 1);
    }
  }

  // ---------------------------------------------------------------------
  // The restart array
  // ---------------------------------------------------------------------

  lemma TimesIsMonotone(a: nat, b: nat, r: nat)
    requires a <= b
    ensures a * r <= b * r
  {
    assert (b - a) * r >= 0;
  }

  lemma MultiplesAreOrdered(a: nat, b: nat, r: nat)
    requires r >= 1
    ensures a <= b <==> a * r <= b * r
    ensures a < b ==> a * r + r <= b * r
  {
    assert (a + 1) * r == a * r + r && (b + 1) * r == b * r + r;
    if a < b {
      TimesIsMonotone(a + 1, b, r);
    } else if b < a {
      TimesIsMonotone(b + 1, a, r);
    }
  }

  /** In the window above the last restart, the multiples of r are its upper end. */
  lemma MultipleStep(n: nat, k: nat, r: nat)
    requires r >= 1 && k >= 1
    requires (k - 1) * r < n <= k * r
    ensures n % r == 0 <==> n == k * r
  {
    var q, m := n / r, n % r;
    assert n == q * r + m;
    MultiplesAreOrdered(q, k, r);
    MultiplesAreOrdered(k, q, r);
    MultiplesAreOrdered(q, k - 1, r);
  }

  lemma {:induction false} CompleteIntervals(r: nat, n: nat) returns (k: nat)
    requires r >= 1 && n >= 1
    ensures n == k * r + SinceRestart(r, n)
  {
    if n == 1 {
      k := 0;
    } else {
      k := CompleteIntervals(r, n - 1);
      if SinceRestart(r, n - 1) >= r {
        assert (k + 1) * r == k * r + r;
        k := k + 1;
      }
    }
  }

  /** Every r-th entry is a restart point, and no other. */
  lemma RestartsAreMultiples(r: nat, n: nat)
    requires r >= 1
    ensures IsRestart(r, n) <==> n % r == 0
  {
    if n > 0 {
      var k := CompleteIntervals(r, n);
      assert (k + 1) * r == k * r + r;
      MultipleStep(n, k + 1, r);
    }
  }

  /** One more entry, and one more restart when the ones before filled theirs. */
  lemma CountStep(n: nat, k: nat, r: nat)
    requires r >= 1 && k >= 1 && (k - 1) * r < n <= k * r
    ensures n % r == 0 ==> k * r < n + 1 <= (k + 1) * r
    ensures n % r != 0 ==> (k - 1) * r < n + 1 <= k * r
  {
    MultipleStep(n, k, r);
    assert (k + 1) * r == k * r + r;
  }

  /** The restarts number the entry count divided by r, rounded up. */
  lemma {:induction false} RestartCount(r: nat, es: seq<Entry>)
    requires r >= 1 && es != []
    ensures (|Restarts(r, es)| - 1) * r < |es| <= |Restarts(r, es)| * r
  {
    hide Encoded, IsRestart;
    if |es| > 1 {
      var init := Front(es);
      RestartCount(r, init);
      RestartsAreMultiples(r, |init|);
      CountStep(|init|, |Restarts(r, init)|, r);
      assert |Restarts(r, es)| == |Restarts(r, init)| + if |init| % r == 0 then 1 else 0;
    }
  }

  lemma RestartIndex(r: nat, es: seq<Entry>, i: nat)
    requires r >= 1 && es != [] && i < |Restarts(r, es)|
    ensures i * r < |es|
  {
    hide Restarts;
    RestartCount(r, es);
    TimesIsMonotone(i, |Restarts(r, es)| - 1, r);
  }

  lemma FirstOffset(r: nat, es: seq<Entry>)
    requires r >= 1
    ensures Offset(r, es, 0) == 0
  {
  }

  /** Restart i is the offset of entry i * r. */
  lemma {:induction false} RestartOffset(r: nat, es: seq<Entry>, i: nat)
    requires r >= 1 && es != [] && i < |Restarts(r, es)|
    ensures i * r < |es| && Restarts(r, es)[i] == Offset(r, es, i * r)
  {
    hide Encoded, IsRestart;
    RestartIndex(r, es, i);
    FirstOffset(r, es);
    if |es| > 1 {
      var init := Front(es);
      if i < |Restarts(r, init)| {
        RestartOffset(r, init, i);
        assert init[..i * r] == es[..i * r];
      } else {
        RestartCount(r, init);
        MultipleStep(|init|, i, r);
        RestartsAreMultiples(r, |init|);
      }
    }
  }

  lemma MultipleOf(i: nat, r: nat)
    requires r >= 1
    ensures (i * r) % r == 0
  {
    var q, m := (i * r) / r, (i * r) % r;
    MultiplesAreOrdered(q, i, r);
    MultiplesAreOrdered(i, q, r);
  }

  /** The restart invariant: with interval r, n entries have n / r restarts, rounded
      up; restart i is the offset of entry i * r, and that entry stands there with
      its whole key. */
  lemma RestartInvariant(r: nat, es: seq<Entry>, i: nat)
    requires r >= 1 && es != [] && i < |Restarts(r, es)|
    ensures (|Restarts(r, es)| - 1) * r < |es| <= |Restarts(r, es)| * r
    ensures i * r < |es| && Restarts(r, es)[i] == Offset(r, es, i * r)
    ensures At(Encoded(r, es), Restarts(r, es)[i], EncodedEntry(0, es[i * r]))
  {
    hide Encoded, Restarts, EncodedEntry, IsRestart, SharedAt;
    RestartCount(r, es);
    RestartOffset(r, es, i);
    var n := i * r;
    assert SharedAt(r, es, n) == 0 by {
      MultipleOf(i, r);
      RestartsAreMultiples(r, n);
    }
    OffsetStep(r, es, n);
  }
}
