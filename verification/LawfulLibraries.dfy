/** The laws assumed of the libraries can be met: a plain directory codec and a
    filter that rejects nothing are one way. */
module LawfulLibraries {
  import opened ByteStrings
  import opened Results
  import opened Entries
  import opened Libraries

  /** A key, each byte behind a 1, closed by a 0. */
  function KeyCode(key: Bytes): Bytes {
    if key == [] then [0] else [1, key[0]] + KeyCode(key[1..])
  }

  function Code(d: Directory): Bytes {
    if d == [] then [] else KeyCode(d[0].key) + ToLE(d[0].value, 8) + Code(d[1..])
  }

  datatype KeyParse = KeyParse(key: Bytes, rest: Bytes)

  function ParsedKey(data: Bytes): (r: Option<KeyParse>)
    ensures r.Some? ==> |r.value.rest| < |data|
  {
    if data == [] then None
    else if data[0] == 0 then Some(KeyParse([], data[1..]))
    else if |data| == 1 then None
    else
      var tail := ParsedKey(data[2..]);
      if tail.None? then None else Some(KeyParse([data[1]] + tail.value.key, tail.value.rest))
  }

  function Parsed(data: Bytes): Option<Directory>
    decreases |data|
  {
    if data == [] then Some([])
    else
      var key := ParsedKey(data);
      if key.None? || |key.value.rest| < 8 then None
      else
        var tail := Parsed(key.value.rest[8..]);
        if tail.None? then None else Some([Pair(key.value.key, FromLE(key.value.rest[..8]))] + tail.value)
  }

  lemma {:induction false} KeyParses(key: Bytes, rest: Bytes)
    ensures ParsedKey(KeyCode(key) + rest) == Some(KeyParse(key, rest))
  {
    var data := KeyCode(key) + rest;
    if key == [] {
      assert data[1..] == rest;
    } else {
      KeyParses(key[1..], rest);
      assert data[2..] == KeyCode(key[1..]) + rest;
      assert [key[0]] + key[1..] == key;
    }
  }

  lemma {:induction false} DirectoryParses(d: Directory)
    requires OffsetsFit(d)
    ensures Parsed(Code(d)) == Some(d)
  {
    hide ToLE, FromLE, KeyCode, ParsedKey;
    if d != [] {
      var offset, tail := ToLE(d[0].value, 8), Code(d[1..]);
      assert Code(d) == KeyCode(d[0].key) + (offset + tail);
      KeyParses(d[0].key, offset + tail);
      assert (offset + tail)[..8] == offset && (offset + tail)[8..] == tail;
      U64RoundTrip(d[0].value);
      DirectoryParses(d[1..]);
      assert [d[0]] + d[1..] == d;
    }
  }

  lemma LawfulLibrariesExist(debug: bool)
    ensures exists libs: Libs :: libs.Lawful() && libs.debug == debug
  {
    var libs := Libs(_ => 0, d => Code(d), data => Parsed(data), _ => [], (_, _) => true, debug);
    forall d | Ascending(d) && OffsetsFit(d)
      ensures libs.fstParse(libs.fstBuild(d)) == Some(d)
    {
      DirectoryParses(d);
    }
    assert libs.Lawful();
  }
}
