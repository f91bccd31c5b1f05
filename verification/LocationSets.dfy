/** The value codec of secondary indexes: all locations of one key. */
module LocationSets {
  import opened ByteStrings
  import opened Results

  /** Strings are byte strings for which this test of the standard library holds. */
  type Utf8Test = Bytes -> bool

  datatype ValueDecodeError = TooShort | InvalidUtf8 | InvalidFormat

  datatype EntityLocation = EntityLocation(fileKey: Bytes, rowGroup: u32, rowOffset: u32) {
    ghost predicate IsString(utf8: Utf8Test) {
      utf8(fileKey)
    }

    /** What the 16-bit length field can hold. */
    predicate Fits() {
      |fileKey| < U16_LIMIT
    }
  }

  function EncodedLocation(loc: EntityLocation): (b: Bytes)
    ensures |b| == 10 + |loc.fileKey|
  {
    ToLE(AsU16(|loc.fileKey|), 2) + loc.fileKey + ToLE(loc.rowGroup, 4) + ToLE(loc.rowOffset, 4)
  }

  function EncodedLocations(locs: seq<EntityLocation>): (b: Bytes)
    ensures |b| >= 10 * |locs|
  {
    if locs == [] then [] else EncodedLocation(locs[0]) + EncodedLocations(locs[1..])
  }

  function Encoded(locs: seq<EntityLocation>): Bytes {
    ToLE(AsU32(|locs|), 4) + EncodedLocations(locs)
  }

  /** One location at an offset, and where the next one would start. */
  function LocationAt(utf8: Utf8Test, data: Bytes, offset: nat): (r: Result<Read<EntityLocation>, ValueDecodeError>)
    ensures r.Ok? ==> r.value.value.Fits()
  {
    if offset + 2 > |data| then Err(TooShort)
    else
      var start, len := offset + 2, U16At(data, offset);
      if start + len + 8 > |data| then Err(TooShort)
      else if !utf8(data[start..start + len]) then Err(InvalidUtf8)
      else
        var end := start + len;
        Ok(Read(EntityLocation(data[start..end], U32At(data, end), U32At(data, end + 4)), end + 8))
  }

  function LocationsAt(utf8: Utf8Test, data: Bytes, offset: nat, count: nat)
    : (r: Result<Read<seq<EntityLocation>>, ValueDecodeError>)
    ensures r.Ok? ==> |r.value.value| == count
    decreases count
  {
    if count == 0 then Ok(Read([], offset))
    else
      var first :- LocationAt(utf8, data, offset);
      var rest :- LocationsAt(utf8, data, first.pos, count - 1);
      Ok(Read([first.value] + rest.value, rest.pos))
  }

  function Decoded(utf8: Utf8Test, data: Bytes): (r: Result<seq<EntityLocation>, ValueDecodeError>)
    ensures r.Ok? ==> |r.value| < U32_LIMIT
  {
    if |data| < 4 then Err(TooShort)
    else
      var read :- LocationsAt(utf8, data, 4, U32At(data, 0));
      Ok(read.value)
  }

  // ---------------------------------------------------------------------
  // The loops
  // ---------------------------------------------------------------------

  lemma {:induction false} EncodedAppend(locs: seq<EntityLocation>, loc: EntityLocation)
    ensures EncodedLocations(locs + [loc]) == EncodedLocations(locs) + EncodedLocation(loc)
  {
    hide EncodedLocation;
    if locs == [] {
      assert [loc][1..] == [];
    } else {
      EncodedAppend(locs[1..], loc);
      assert (locs + [loc])[1..] == locs[1..] + [loc];
    }
  }

  method Encode(locs: seq<EntityLocation>) returns (buf: Bytes)
    ensures buf == Encoded(locs)
  {
    hide ToLE;
    buf := ToLE(AsU32(|locs|), 4);
    for i := 0 to |locs|
      invariant buf == ToLE(AsU32(|locs|), 4) + EncodedLocations(locs[..i])
    {
      ghost var before := buf;
      var loc := locs[i];
      buf := buf + ToLE(AsU16(|loc.fileKey|), 2);
      buf := buf + loc.fileKey;
      buf := buf + ToLE(loc.rowGroup, 4);
      buf := buf + ToLE(loc.rowOffset, 4);
      EncodedAppend(locs[..i], loc);
      assert locs[..i + 1] == locs[..i] + [loc];
      assert buf == before + EncodedLocation(loc);
    }
    assert locs[..|locs|] == locs;
  }

  method Decode(utf8: Utf8Test, data: Bytes) returns (r: Result<seq<EntityLocation>, ValueDecodeError>)
    ensures r == Decoded(utf8, data)
  {
    hide FromLE;
    if |data| < 4 {
      return Err(TooShort);
    }
    var count: nat := U32At(data, 0);
    var offset := 4;
    var locations := [];
    PrependNothing(LocationsAt(utf8, data, 4, count));
    for i := 0 to count
      invariant LocationsAt(utf8, data, 4, count) == Prepend(locations, LocationsAt(utf8, data, offset, count - i))
    {
      if offset + 2 > |data| {
        return Err(TooShort);
      }
      var fileKeyLen := U16At(data, offset);
      var start := offset + 2;
      if start + fileKeyLen + 8 > |data| {
        return Err(TooShort);
      }
      var end := start + fileKeyLen;
      if !utf8(data[start..end]) {
        return Err(InvalidUtf8);
      }
      var loc := EntityLocation(data[start..end], U32At(data, end), U32At(data, end + 4));
      assert LocationAt(utf8, data, offset) == Ok(Read(loc, end + 8));
      PrependStep(locations, loc, LocationsAt(utf8, data, end + 8, count - i - 1));
      locations := locations + [loc];
      offset := end + 8;
    }
    assert locations + [] == locations;
    return Ok(locations);
  }

  // ---------------------------------------------------------------------
  // Round trip
  // ---------------------------------------------------------------------

  /** A location reads back exactly when its file key fits the length field; one
      that does not is never mistaken for the original. */
  lemma LocationReadsBack(utf8: Utf8Test, data: Bytes, offset: nat, loc: EntityLocation)
    requires At(data, offset, EncodedLocation(loc)) && loc.IsString(utf8)
    ensures loc.Fits() ==>
              LocationAt(utf8, data, offset) == Ok(Read(loc, offset + |EncodedLocation(loc)|))
    ensures !loc.Fits() && LocationAt(utf8, data, offset).Ok? ==> LocationAt(utf8, data, offset).value.value != loc
  {
    hide ToLE, FromLE;
    var len := ToLE(AsU16(|loc.fileKey|), 2);
    AtSplits(data, offset, len + loc.fileKey + ToLE(loc.rowGroup, 4), ToLE(loc.rowOffset, 4));
    AtSplits(data, offset, len + loc.fileKey, ToLE(loc.rowGroup, 4));
    AtSplits(data, offset, len, loc.fileKey);
    U16RoundTrip(AsU16(|loc.fileKey|));
    U32RoundTrip(loc.rowGroup);
    U32RoundTrip(loc.rowOffset);
  }

  ghost predicate AllFit(locs: seq<EntityLocation>) {
    forall i :: 0 <= i < |locs| ==> locs[i].Fits()
  }

  ghost predicate AllStrings(utf8: Utf8Test, locs: seq<EntityLocation>) {
    forall i :: 0 <= i < |locs| ==> locs[i].IsString(utf8)
  }

  lemma {:induction false} LocationsReadBack(utf8: Utf8Test, data: Bytes, offset: nat, locs: seq<EntityLocation>)
    requires At(data, offset, EncodedLocations(locs)) && AllStrings(utf8, locs)
    ensures AllFit(locs) ==>
              LocationsAt(utf8, data, offset, |locs|) == Ok(Read(locs, offset + |EncodedLocations(locs)|))
    ensures !AllFit(locs) && LocationsAt(utf8, data, offset, |locs|).Ok? ==>
              LocationsAt(utf8, data, offset, |locs|).value.value != locs
    decreases |locs|
  {
    hide LocationAt, EncodedLocation, At, EntityLocation.Fits, EntityLocation.IsString;
    if locs != [] {
      var rest := locs[1..];
      assert locs == [locs[0]] + rest;
      AtSplits(data, offset, EncodedLocation(locs[0]), EncodedLocations(rest));
      LocationReadsBack(utf8, data, offset, locs[0]);
      if locs[0].Fits() {
        LocationsReadBack(utf8, data, offset + |EncodedLocation(locs[0])|, rest);
        assert AllFit(rest) <==> AllFit(locs);
      }
    }
  }

  /** Whatever bytes follow, decoding the encoding returns the locations in order
      exactly when their count fits 32 bits and every file key 16. */
  lemma RoundTrip(utf8: Utf8Test, locs: seq<EntityLocation>, suffix: Bytes)
    requires AllStrings(utf8, locs)
    ensures Decoded(utf8, Encoded(locs) + suffix) == Ok(locs) <==> |locs| < U32_LIMIT && AllFit(locs)
  {
    hide LocationsAt, EncodedLocations, ToLE, FromLE;
    var data := Encoded(locs) + suffix;
    WholeIsAt(data);
    AtSplits(data, 0, Encoded(locs), suffix);
    AtSplits(data, 0, ToLE(AsU32(|locs|), 4), EncodedLocations(locs));
    U32RoundTrip(AsU32(|locs|));
    if |locs| < U32_LIMIT {
      LocationsReadBack(utf8, data, 4, locs);
    }
  }

  // ---------------------------------------------------------------------
  // Foreign bytes
  // ---------------------------------------------------------------------

  /** A location read from any bytes stands there encoded. */
  lemma ReadLocationStands(utf8: Utf8Test, data: Bytes, offset: nat)
    requires LocationAt(utf8, data, offset).Ok?
    ensures var read := LocationAt(utf8, data, offset).value;
            && read.value.IsString(utf8) && At(data, offset, EncodedLocation(read.value))
            && read.pos == offset + |EncodedLocation(read.value)|
  {
    hide ToLE, FromLE;
    var loc := LocationAt(utf8, data, offset).value.value;
    var end := offset + 2 + |loc.fileKey|;
    U16Stands(data, offset);
    U32Stands(data, end);
    U32Stands(data, end + 4);
    AtJoins(data, offset, ToLE(AsU16(|loc.fileKey|), 2), loc.fileKey);
    AtJoins(data, offset, ToLE(AsU16(|loc.fileKey|), 2) + loc.fileKey, ToLE(loc.rowGroup, 4));
    AtJoins(data, offset, ToLE(AsU16(|loc.fileKey|), 2) + loc.fileKey + ToLE(loc.rowGroup, 4), ToLE(loc.rowOffset, 4));
  }

  lemma {:induction false} ReadLocationsStand(utf8: Utf8Test, data: Bytes, offset: nat, count: nat)
    requires offset <= |data| && LocationsAt(utf8, data, offset, count).Ok?
    ensures var read := LocationsAt(utf8, data, offset, count).value;
            AllStrings(utf8, read.value) && AllFit(read.value) && At(data, offset, EncodedLocations(read.value))
    decreases count
  {
    hide LocationAt, EncodedLocation, EntityLocation.Fits, EntityLocation.IsString;
    if count > 0 {
      var first := LocationAt(utf8, data, offset).value;
      ReadLocationStands(utf8, data, offset);
      ReadLocationsStand(utf8, data, first.pos, count - 1);
      var rest := LocationsAt(utf8, data, first.pos, count - 1).value.value;
      assert ([first.value] + rest)[1..] == rest;
      AtJoins(data, offset, EncodedLocation(first.value), EncodedLocations(rest));
    }
  }

  /** Decoding accepts exactly the encodings: any bytes yield a list exactly when the
      list is encodable and its encoding stands at their front. */
  lemma DecodedIff(utf8: Utf8Test, data: Bytes, locs: seq<EntityLocation>)
    ensures Decoded(utf8, data) == Ok(locs) <==>
            && AllStrings(utf8, locs) && AllFit(locs) && |locs| < U32_LIMIT
            && At(data, 0, Encoded(locs))
  {
    hide LocationsAt, EncodedLocations, AllFit, AllStrings, ToLE, FromLE;
    if Decoded(utf8, data) == Ok(locs) {
      U32Stands(data, 0);
      ReadLocationsStand(utf8, data, 4, U32At(data, 0));
      AtJoins(data, 0, ToLE(U32At(data, 0), 4), EncodedLocations(locs));
    }
    if AllStrings(utf8, locs) && AllFit(locs) && |locs| < U32_LIMIT && At(data, 0, Encoded(locs)) {
      AtSuffix(data, 0, Encoded(locs));
      assert data[0..] == data;
      RoundTrip(utf8, locs, data[|Encoded(locs)|..]);
    }
  }

  lemma CutLocationIsTooShort(utf8: Utf8Test, data: Bytes, n: nat, offset: nat, loc: EntityLocation)
    requires At(data, offset, EncodedLocation(loc)) && loc.Fits()
    requires offset <= n < offset + |EncodedLocation(loc)|
    ensures LocationAt(utf8, data[..n], offset) == Err(TooShort)
  {
    hide ToLE, FromLE;
    var len, rest := ToLE(AsU16(|loc.fileKey|), 2), loc.fileKey + ToLE(loc.rowGroup, 4) + ToLE(loc.rowOffset, 4);
    assert EncodedLocation(loc) == len + rest;
    AtSplits(data, offset, len, rest);
    U16RoundTrip(AsU16(|loc.fileKey|));
    if offset + 2 <= n {
      AtInPrefix(data, n, offset, len);
    }
  }

  lemma {:induction false} CutLocationsAreTooShort(
    utf8: Utf8Test, data: Bytes, n: nat, offset: nat, locs: seq<EntityLocation>)
    requires At(data, offset, EncodedLocations(locs)) && AllStrings(utf8, locs) && AllFit(locs)
    requires offset <= n < offset + |EncodedLocations(locs)|
    ensures LocationsAt(utf8, data[..n], offset, |locs|) == Err(TooShort)
    decreases |locs|
  {
    hide LocationAt, EncodedLocation, At, EntityLocation.Fits, EntityLocation.IsString;
    var first, rest := locs[0], locs[1..];
    AtSplits(data, offset, EncodedLocation(first), EncodedLocations(rest));
    AtIsWithin(data, offset, EncodedLocations(locs));
    if offset + |EncodedLocation(first)| <= n {
      AtInPrefix(data, n, offset, EncodedLocation(first));
      LocationReadsBack(utf8, data[..n], offset, first);
      CutLocationsAreTooShort(utf8, data, n, offset + |EncodedLocation(first)|, rest);
    } else {
      CutLocationIsTooShort(utf8, data, n, offset, first);
    }
  }

  /** An encoding cut anywhere is refused as too short. */
  lemma CutIsTooShort(utf8: Utf8Test, locs: seq<EntityLocation>, n: nat)
    requires AllStrings(utf8, locs) && AllFit(locs) && |locs| < U32_LIMIT && n < |Encoded(locs)|
    ensures Decoded(utf8, Encoded(locs)[..n]) == Err(TooShort)
  {
    hide LocationsAt, EncodedLocations, AllFit, AllStrings, ToLE, FromLE;
    var data := Encoded(locs);
    WholeIsAt(data);
    AtSplits(data, 0, ToLE(|locs|, 4), EncodedLocations(locs));
    U32RoundTrip(|locs|);
    if n >= 4 {
      AtInPrefix(data, n, 0, ToLE(|locs|, 4));
      CutLocationsAreTooShort(utf8, data, n, 4, locs);
    }
  }

  lemma {:induction false} OtherThanTextIsRefused(
    utf8: Utf8Test, data: Bytes, offset: nat, locs: seq<EntityLocation>)
    requires At(data, offset, EncodedLocations(locs)) && AllFit(locs) && !AllStrings(utf8, locs)
    ensures LocationsAt(utf8, data, offset, |locs|) == Err(InvalidUtf8)
    decreases |locs|
  {
    hide EncodedLocation, At, LocationAt, EntityLocation.IsString;
    var first, rest := locs[0], locs[1..];
    AtSplits(data, offset, EncodedLocation(first), EncodedLocations(rest));
    if first.IsString(utf8) {
      LocationReadsBack(utf8, data, offset, first);
      OtherThanTextIsRefused(utf8, data, offset + |EncodedLocation(first)|, rest);
    } else {
      KeyOtherThanTextIsRefused(utf8, data, offset, first);
    }
  }

  lemma KeyOtherThanTextIsRefused(utf8: Utf8Test, data: Bytes, offset: nat, loc: EntityLocation)
    requires At(data, offset, EncodedLocation(loc)) && loc.Fits() && !loc.IsString(utf8)
    ensures LocationAt(utf8, data, offset) == Err(InvalidUtf8)
  {
    hide ToLE, FromLE;
    var len, rest := ToLE(AsU16(|loc.fileKey|), 2), ToLE(loc.rowGroup, 4) + ToLE(loc.rowOffset, 4);
    assert EncodedLocation(loc) == len + loc.fileKey + rest;
    AtSplits(data, offset, len + loc.fileKey, rest);
    AtSplits(data, offset, len, loc.fileKey);
    U16RoundTrip(AsU16(|loc.fileKey|));
  }

  /** Locations that fit are refused for their file keys exactly when one of them is
      not UTF-8, whatever bytes follow. */
  lemma InvalidUtf8Iff(utf8: Utf8Test, locs: seq<EntityLocation>, suffix: Bytes)
    requires AllFit(locs) && |locs| < U32_LIMIT
    ensures Decoded(utf8, Encoded(locs) + suffix) == Err(InvalidUtf8) <==> !AllStrings(utf8, locs)
  {
    hide LocationsAt, EncodedLocations, AllFit, AllStrings, ToLE, FromLE;
    if AllStrings(utf8, locs) {
      RoundTrip(utf8, locs, suffix);
    } else {
      var data := Encoded(locs) + suffix;
      WholeIsAt(data);
      AtSplits(data, 0, Encoded(locs), suffix);
      AtSplits(data, 0, ToLE(|locs|, 4), EncodedLocations(locs));
      U32RoundTrip(|locs|);
      OtherThanTextIsRefused(utf8, data, 4, locs);
    }
  }

  /** The documented layout, byte by byte, of one location. */
  lemma LayoutOfOne()
    ensures Encoded([EntityLocation([0x66, 0x67], 0x04030201, 0x08070605)]) ==
            [1, 0, 0, 0, 2, 0, 0x66, 0x67, 1, 2, 3, 4, 5, 6, 7, 8]
  {
    hide ToLE;
    var locs := [EntityLocation([0x66, 0x67], 0x04030201, 0x08070605)];
    assert EncodedLocations(locs) == EncodedLocation(locs[0]) + EncodedLocations([]);
    FourBytes(0x04030201);
    FourBytes(0x08070605);
    FourBytes(1);
    TwoBytes(2);
  }
}
