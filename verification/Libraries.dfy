/** What the engine uses of libraries it does not contain: a checksum, an ordered
    map serialised as a finite-state transducer and a membership filter. They are
    arbitrary functions; `Lawful` is all that is ever assumed about them. Beside
    them, whether the build has debug assertions, on which nothing depends but where
    a reader stops on damaged bytes. */
module Libraries {
  import opened ByteStrings
  import opened Results
  import opened Entries
  import opened BlockFormat

  /** Last key of a block -> byte offset of the block (a u64 in the source). */
  type Directory = seq<Pair<nat>>

  ghost predicate OffsetsFit(d: Directory) {
    forall i :: 0 <= i < |d| ==> d[i].value < U64_LIMIT
  }

  datatype Libs = Libs(
    crc: Checksum,
    fstBuild: Directory -> Bytes,
    fstParse: Bytes -> Option<Directory>,
    filterBuild: seq<Bytes> -> Bytes,
    filterTest: (Bytes, Bytes) -> bool,
    debug: bool)
  {
    /** A transducer built from an ascending directory parses back to it; a filter
        has no false negatives. False positives and collisions are not ruled out. */
    ghost predicate Lawful() {
      && (forall d :: Ascending(d) && OffsetsFit(d) ==> fstParse(fstBuild(d)) == Some(d))
      && (forall keys, key :: key in keys ==> filterTest(filterBuild(keys), key))
    }

    /** bloom::build_filter */
    function BuildFilter(keys: seq<Bytes>): Bytes {
      if keys == [] then [] else filterBuild(keys)
    }

    /** bloom::might_contain: a missing filter rules nothing out. */
    predicate MightContain(filter: Bytes, key: Bytes) {
      filter == [] || filterTest(filter, key)
    }
  }
}
