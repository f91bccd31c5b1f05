/** The bytes of a segment, as a function of the entries added to it: where the
    block boundaries fall, the directory over the blocks, and the layout. */
module SegmentFormat {
  import opened ByteStrings
  import opened Entries
  import opened BlockFormat
  import opened Libraries
  import Footers

  datatype Options = Options(blockSize: u32, restartInterval: u32, enableBloom: bool) {
    /** The block builder takes an interval of 0 for 1. */
    function Interval(): (r: u32)
      ensures r >= 1
    {
      if restartInterval == 0 then 1 else restartInterval
    }
  }

  type Blocks = seq<seq<Entry>>

  function Flatten(blocks: Blocks): seq<Entry> {
    if blocks == [] then [] else Flatten(Front(blocks)) + Last(blocks)
  }

  /** The finished blocks laid end to end. */
  function BlockBytes(crc: Checksum, r: nat, blocks: Blocks): Bytes
    requires r >= 1
  {
    if blocks == [] then [] else BlockBytes(crc, r, Front(blocks)) + Finished(crc, r, Last(blocks))
  }

  /** The byte offset of block i; the end of the last block when i is their count. */
  function BlockOffset(crc: Checksum, r: nat, blocks: Blocks, i: nat): nat
    requires r >= 1 && i <= |blocks|
  {
    |BlockBytes(crc, r, blocks[..i])|
  }

  function LastKey(block: seq<Entry>): Bytes {
    if block == [] then [] else Last(block).key
  }

  /** Each block's last key with the block's offset. */
  function DirectoryOf(crc: Checksum, r: nat, blocks: Blocks): (d: Directory)
    requires r >= 1
    ensures |d| == |blocks|
  {
    if blocks == [] then []
    else DirectoryOf(crc, r, Front(blocks)) + [Pair(LastKey(Last(blocks)), |BlockBytes(crc, r, Front(blocks))|)]
  }

  // ---------------------------------------------------------------------
  // Where the block boundaries fall
  // ---------------------------------------------------------------------

  /** The writer's state after some adds: blocks it flushed and the one it fills. */
  datatype Split = Split(closed: Blocks, current: seq<Entry>)

  /** An entry without room closes the current block and opens the next. */
  function SplitOf(o: Options, es: seq<Entry>): Split {
    if es == [] then Split([], [])
    else
      var s, e := SplitOf(o, Front(es)), Last(es);
      if HasRoom(o.blockSize, o.Interval(), s.current, e) then Split(s.closed, s.current + [e])
      else Split(s.closed + [s.current], [e])
  }

  /** The blocks of a finished segment: an empty last block is not flushed. */
  function BlocksOf(o: Options, es: seq<Entry>): Blocks {
    var s := SplitOf(o, es);
    if s.current == [] then s.closed else s.closed + [s.current]
  }

  // ---------------------------------------------------------------------
  // The layout
  // ---------------------------------------------------------------------

  function FilterBytes(libs: Libs, o: Options, es: seq<Entry>): Bytes {
    if o.enableBloom then libs.BuildFilter(Keys(es)) else []
  }

  /** The footer of a segment whose three sections have these lengths. */
  function FooterFor(dataLen: nat, filterLen: nat, fstLen: nat, keyCount: u32): Footers.Footer {
    Footers.Footer(
      Footers.FORMAT_VERSION, 0, AsU64(dataLen), AsU64(dataLen), AsU64(filterLen), AsU64(dataLen + filterLen),
      AsU64(fstLen), keyCount, 0)
  }

  /** data blocks | filter | directory | footer */
  function Layout(crc: Checksum, data: Bytes, filter: Bytes, fst: Bytes, keyCount: u32): Bytes {
    data + filter + fst + Footers.Encoded(crc, FooterFor(|data|, |filter|, |fst|, keyCount))
  }

  /** The segment written for these entries. */
  function SegmentOf(libs: Libs, o: Options, es: seq<Entry>): Bytes {
    var r, blocks := o.Interval(), BlocksOf(o, es);
    Layout(libs.crc, BlockBytes(libs.crc, r, blocks), FilterBytes(libs, o, es),
           libs.fstBuild(DirectoryOf(libs.crc, r, blocks)), AsU32(|es|))
  }

  // ---------------------------------------------------------------------
  // What every split keeps
  // ---------------------------------------------------------------------

  ghost predicate GoodBlock(r: nat, block: seq<Entry>)
    requires r >= 1
  {
    block != [] && RestartsFit(r, block)
  }

  ghost predicate GoodBlocks(r: nat, blocks: Blocks)
    requires r >= 1
  {
    forall i :: 0 <= i < |blocks| ==> GoodBlock(r, blocks[i])
  }

  lemma GoodBlockGrows(maxSize: u32, r: nat, block: seq<Entry>, e: Entry)
    requires r >= 1 && HasRoom(maxSize, r, block, e)
    requires block == [] || GoodBlock(r, block)
    ensures GoodBlock(r, block + [e])
  {
    hide Encoded, Restarts, EstimatedSize;
    if block != [] {
      RoomBoundsSize(maxSize, r, block, e);
    } else {
      SingleEntryFits(r, e);
    }
  }

  lemma SingleEntryFits(r: nat, e: Entry)
    requires r >= 1
    ensures RestartsFit(r, [] + [e])
  {
    assert Restarts(r, [] + [e]) == [0];
  }

  lemma FlattenAppend(blocks: Blocks, block: seq<Entry>)
    ensures Flatten(blocks + [block]) == Flatten(blocks) + block
  {
    assert Front(blocks + [block]) == blocks;
  }

  /** Wherever the boundaries fall: the blocks hold the added entries in order,
      none is empty, and each fits its 32-bit restart array. */
  ghost predicate Splits(r: nat, s: Split, es: seq<Entry>)
    requires r >= 1
  {
    && Flatten(s.closed) + s.current == es
    && GoodBlocks(r, s.closed)
    && (es == [] <==> s.current == [])
    && (es == [] || GoodBlock(r, s.current))
  }

  lemma CurrentBlockGrows(r: nat, s: Split, es: seq<Entry>, e: Entry)
    requires r >= 1 && Splits(r, s, es) && GoodBlock(r, s.current + [e])
    ensures Splits(r, Split(s.closed, s.current + [e]), es + [e])
  {
    hide GoodBlocks, GoodBlock, Flatten;
    assert Flatten(s.closed) + (s.current + [e]) == es + [e];
  }

  lemma CurrentBlockCloses(r: nat, s: Split, es: seq<Entry>, e: Entry)
    requires r >= 1 && Splits(r, s, es) && es != [] && GoodBlock(r, [e])
    ensures Splits(r, Split(s.closed + [s.current], [e]), es + [e])
  {
    hide GoodBlock, Flatten;
    FlattenAppend(s.closed, s.current);
  }

  lemma {:induction false} SplitShape(o: Options, es: seq<Entry>)
    ensures Splits(o.Interval(), SplitOf(o, es), es)
  {
    hide GoodBlock, Splits, Encoded, Restarts;
    if es == [] {
      EmptySplit(o.Interval());
    } else {
      var r, before, e := o.Interval(), SplitOf(o, Front(es)), Last(es);
      assert es == Front(es) + [e];
      SplitShape(o, Front(es));
      CurrentIsGood(r, before, Front(es));
      if HasRoom(o.blockSize, r, before.current, e) {
        GoodBlockGrows(o.blockSize, r, before.current, e);
        CurrentBlockGrows(r, before, Front(es), e);
      } else {
        GoodBlockGrows(o.blockSize, r, [], e);
        assert [] + [e] == [e];
        CurrentBlockCloses(r, before, Front(es), e);
      }
    }
  }

  lemma EmptySplit(r: nat)
    requires r >= 1
    ensures Splits(r, Split([], []), [])
  {
  }

  lemma CurrentIsGood(r: nat, s: Split, es: seq<Entry>)
    requires r >= 1 && Splits(r, s, es)
    ensures es == [] <==> s.current == []
    ensures es == [] || GoodBlock(r, s.current)
  {
  }

  lemma BlocksShape(o: Options, es: seq<Entry>)
    ensures Flatten(BlocksOf(o, es)) == es && GoodBlocks(o.Interval(), BlocksOf(o, es))
  {
    hide SplitOf, GoodBlock, Flatten;
    SplitShape(o, es);
    var s := SplitOf(o, es);
    FlattenAppend(s.closed, s.current);
    assert Flatten(s.closed) + [] == Flatten(s.closed);
  }

  /** Each block took its entries while it had room, and was closed by one it had no
      room for. */
  ghost predicate Greedy(o: Options, blocks: Blocks) {
    && (forall i, k :: 0 <= i < |blocks| && 0 < k < |blocks[i]| ==>
          HasRoom(o.blockSize, o.Interval(), blocks[i][..k], blocks[i][k]))
    && (forall i :: 0 <= i < |blocks| - 1 && blocks[i + 1] != [] ==>
          !HasRoom(o.blockSize, o.Interval(), blocks[i], blocks[i + 1][0]))
  }

  lemma GreedyGrows(o: Options, closed: Blocks, block: seq<Entry>, e: Entry)
    requires Greedy(o, closed + [block]) && HasRoom(o.blockSize, o.Interval(), block, e)
    requires block == [] ==> closed == []
    ensures Greedy(o, closed + [block + [e]])
  {
    hide HasRoom;
    var before, after := closed + [block], closed + [block + [e]];
    forall i, k | 0 <= i < |after| && 0 < k < |after[i]|
      ensures HasRoom(o.blockSize, o.Interval(), after[i][..k], after[i][k])
    {
      assert k <= |before[i]| && after[i][..k] == before[i][..k];
      assert k == |before[i]| ==> i == |closed| && before[i][..k] == block;
    }
    forall i | 0 <= i < |after| - 1 && after[i + 1] != []
      ensures !HasRoom(o.blockSize, o.Interval(), after[i], after[i + 1][0])
    {
      assert before[i] == after[i] && before[i + 1] != [] && before[i + 1][0] == after[i + 1][0];
    }
  }

  lemma GreedyCloses(o: Options, closed: Blocks, block: seq<Entry>, e: Entry)
    requires Greedy(o, closed + [block]) && !HasRoom(o.blockSize, o.Interval(), block, e)
    ensures Greedy(o, closed + [block] + [[e]])
  {
    hide HasRoom;
  }

  lemma {:induction false} SplitIsGreedy(o: Options, es: seq<Entry>)
    ensures Greedy(o, SplitOf(o, es).closed + [SplitOf(o, es).current])
  {
    hide HasRoom, Greedy, GoodBlocks, GoodBlock, Flatten;
    if es == [] {
      EmptyIsGreedy(o);
    } else {
      var before, e := SplitOf(o, Front(es)), Last(es);
      SplitIsGreedy(o, Front(es));
      if HasRoom(o.blockSize, o.Interval(), before.current, e) {
        FirstBlockIsOpen(o, Front(es));
        GreedyGrows(o, before.closed, before.current, e);
      } else {
        GreedyCloses(o, before.closed, before.current, e);
      }
    }
  }

  lemma EmptyIsGreedy(o: Options)
    ensures Greedy(o, [] + [[]])
  {
  }

  lemma FirstBlockIsOpen(o: Options, es: seq<Entry>)
    ensures SplitOf(o, es).current == [] ==> SplitOf(o, es).closed == []
  {
    hide HasRoom;
  }

  /** No block is flushed early and none late: a block of two or more entries is at
      most 10 bytes above the block size, and a block with a successor is within the
      next entry's key, value and 5 bytes of it. */
  lemma BlocksFillUp(crc: Checksum, o: Options, es: seq<Entry>, i: nat)
    requires i < |BlocksOf(o, es)|
    ensures var blocks := BlocksOf(o, es);
            && Greedy(o, blocks)
            && (|blocks[i]| >= 2 ==> |Finished(crc, o.Interval(), blocks[i])| <= o.blockSize + 10)
            && (i + 1 < |blocks| && blocks[i + 1] != [] ==>
                  var next := blocks[i + 1][0];
                  |Finished(crc, o.Interval(), blocks[i])| + 5 + |next.key| + |next.value| > o.blockSize)
  {
    hide SplitOf, Encoded, Restarts, RestartsFit;
    var r, s, blocks := o.Interval(), SplitOf(o, es), BlocksOf(o, es);
    SplitIsGreedy(o, es);
    FirstBlockIsOpen(o, es);
    var block := blocks[i];
    if |block| >= 2 {
      var n := |block| - 1;
      assert block[..n] + [block[n]] == block;
      RoomBoundsSize(o.blockSize, r, block[..n], block[n]);
    }
  }

  // ---------------------------------------------------------------------
  // Offsets and keys of the directory
  // ---------------------------------------------------------------------

  lemma {:induction false} BlockAt(crc: Checksum, r: nat, blocks: Blocks, i: nat)
    requires r >= 1 && i < |blocks|
    ensures At(BlockBytes(crc, r, blocks), BlockOffset(crc, r, blocks, i), Finished(crc, r, blocks[i]))
    ensures BlockOffset(crc, r, blocks, i + 1) == BlockOffset(crc, r, blocks, i) + |Finished(crc, r, blocks[i])|
    decreases |blocks|
  {
    hide Finished;
    var init, n := Front(blocks), |blocks|;
    if i == n - 1 {
      assert blocks[..n] == blocks && blocks[..n - 1] == init;
    } else {
      BlockAt(crc, r, init, i);
      assert init[..i] == blocks[..i] && init[..i + 1] == blocks[..i + 1];
    }
  }

  lemma {:induction false} DirectoryAt(crc: Checksum, r: nat, blocks: Blocks, i: nat)
    requires r >= 1 && i < |blocks|
    ensures DirectoryOf(crc, r, blocks)[i] == Pair(LastKey(blocks[i]), BlockOffset(crc, r, blocks, i))
    decreases |blocks|
  {
    hide Finished, BlockBytes, LastKey;
    var init := Front(blocks);
    if i < |init| {
      DirectoryAt(crc, r, init, i);
      assert init[..i] == blocks[..i];
    }
  }

  lemma {:induction false} BlockOffsetsRise(crc: Checksum, r: nat, blocks: Blocks, i: nat, j: nat)
    requires r >= 1 && i <= j <= |blocks|
    ensures BlockOffset(crc, r, blocks, i) <= BlockOffset(crc, r, blocks, j) <= |BlockBytes(crc, r, blocks)|
    ensures i < j ==> BlockOffset(crc, r, blocks, i) < BlockOffset(crc, r, blocks, j)
    decreases |blocks| - i
  {
    hide Finished, BlockBytes;
    if i < j {
      BlockAt(crc, r, blocks, i);
      BlockOffsetsRise(crc, r, blocks, i + 1, j);
    } else if j < |blocks| {
      BlockAt(crc, r, blocks, j);
      BlockOffsetsRise(crc, r, blocks, j + 1, j + 1);
    } else {
      assert blocks[..j] == blocks;
    }
  }

  lemma {:induction false} FlattenHolds(blocks: Blocks, i: nat, e: Entry)
    requires i < |blocks| && e in blocks[i]
    ensures e in Flatten(blocks)
    decreases |blocks|
  {
    if i < |blocks| - 1 {
      FlattenHolds(Front(blocks), i, e);
    }
  }

  lemma {:induction false} FlattenFinds(blocks: Blocks, e: Entry) returns (i: nat)
    requires e in Flatten(blocks)
    ensures i < |blocks| && e in blocks[i]
  {
    if e in Last(blocks) {
      i := |blocks| - 1;
    } else {
      i := FlattenFinds(Front(blocks), e);
    }
  }

  /** Every key of a block lies below every key of a later block. */
  lemma {:induction false} BlocksAreOrdered(blocks: Blocks, i: nat, j: nat, e: Entry, f: Entry)
    requires Ascending(Flatten(blocks)) && i < j < |blocks| && e in blocks[i] && f in blocks[j]
    ensures Below(e.key, f.key)
    decreases |blocks|
  {
    hide Ascending;
    AscendingParts(Flatten(Front(blocks)), Last(blocks), e, f);
    if j == |blocks| - 1 {
      FlattenHolds(Front(blocks), i, e);
    } else {
      BlocksAreOrdered(Front(blocks), i, j, e, f);
    }
  }

  lemma {:induction false} BlockIsAscending(blocks: Blocks, i: nat)
    requires Ascending(Flatten(blocks)) && i < |blocks|
    ensures Ascending(blocks[i])
    decreases |blocks|
  {
    hide Ascending;
    AscendingParts(Flatten(Front(blocks)), Last(blocks), Pair([], []), Pair([], []));
    if i < |blocks| - 1 {
      BlockIsAscending(Front(blocks), i);
    }
  }

  lemma AtMostLastKey(block: seq<Entry>, e: Entry)
    requires Ascending(block) && e in block
    ensures AtMost(e.key, LastKey(block)) && Last(block) in block
  {
    var i :| 0 <= i < |block| && block[i] == e;
  }

  /** The directory's keys rise strictly, so the transducer build accepts it. */
  lemma DirectoryAscends(crc: Checksum, r: nat, blocks: Blocks)
    requires r >= 1 && GoodBlocks(r, blocks) && Ascending(Flatten(blocks))
    ensures Ascending(DirectoryOf(crc, r, blocks))
  {
    hide Finished, BlockBytes, Flatten, RestartsFit, DirectoryOf;
    var d := DirectoryOf(crc, r, blocks);
    forall i, j | 0 <= i < j < |d|
      ensures Below(d[i].key, d[j].key)
    {
      assert GoodBlock(r, blocks[i]) && GoodBlock(r, blocks[j]);
      DirectoryAt(crc, r, blocks, i);
      DirectoryAt(crc, r, blocks, j);
      BlocksAreOrdered(blocks, i, j, Last(blocks[i]), Last(blocks[j]));
    }
  }

  lemma DirectoryFits(crc: Checksum, r: nat, blocks: Blocks)
    requires r >= 1 && |BlockBytes(crc, r, blocks)| < U64_LIMIT
    ensures OffsetsFit(DirectoryOf(crc, r, blocks))
  {
    hide Finished, BlockBytes, DirectoryOf;
    forall i | 0 <= i < |blocks|
      ensures DirectoryOf(crc, r, blocks)[i].value < U64_LIMIT
    {
      DirectoryAt(crc, r, blocks, i);
      BlockOffsetsRise(crc, r, blocks, i, |blocks|);
    }
  }

  /** What the writer keeps over every run: no block is empty, directory offsets
      start at 0 and rise strictly, and every key of a block lies above the previous
      block's last key and at or below its own. */
  lemma DirectoryInvariant(crc: Checksum, o: Options, es: seq<Entry>, i: nat, e: Entry)
    requires Ascending(es) && i < |BlocksOf(o, es)| && e in BlocksOf(o, es)[i]
    ensures var blocks, d := BlocksOf(o, es), DirectoryOf(crc, o.Interval(), BlocksOf(o, es));
            && Flatten(blocks) == es && blocks[i] != [] && Ascending(d)
            && d[0].value == 0 && AtMost(e.key, d[i].key)
            && (i > 0 ==> d[i - 1].value < d[i].value && Below(d[i - 1].key, e.key))
  {
    hide BlocksOf, DirectoryOf, BlockBytes, Finished, Flatten, RestartsFit, Below, Ascending;
    var r, blocks := o.Interval(), BlocksOf(o, es);
    BlocksShape(o, es);
    assert GoodBlock(r, blocks[i]);
    DirectoryAscends(crc, r, blocks);
    DirectoryAt(crc, r, blocks, 0);
    DirectoryAt(crc, r, blocks, i);
    FirstOffsetIsZero(crc, r, blocks);
    BlockIsAscending(blocks, i);
    AtMostLastKey(blocks[i], e);
    if i > 0 {
      assert GoodBlock(r, blocks[i - 1]);
      DirectoryAt(crc, r, blocks, i - 1);
      BlockOffsetsRise(crc, r, blocks, i - 1, i);
      BlocksAreOrdered(blocks, i - 1, i, Last(blocks[i - 1]), e);
    }
  }

  lemma FirstOffsetIsZero(crc: Checksum, r: nat, blocks: Blocks)
    requires r >= 1
    ensures BlockOffset(crc, r, blocks, 0) == 0
  {
  }
}
