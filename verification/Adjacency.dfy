/** The graph value codec: outgoing and incoming edges of one entity. */
module Adjacency {
  import opened ByteStrings
  import opened Results
  import opened LocationSets

  datatype RelKind = Calls | Imports | Extends | Implements | Contains | Uses | TypeOf | Custom(name: Bytes) {
    function ToByte(): byte {
      match this
      case Calls => 0
      case Imports => 1
      case Extends => 2
      case Implements => 3
      case Contains => 4
      case Uses => 5
      case TypeOf => 6
      case Custom(_) => 255
    }
  }

  datatype Edge = Edge(entityId: Bytes, relKind: RelKind) {
    ghost predicate IsString(utf8: Utf8Test) {
      utf8(entityId) && (relKind.Custom? ==> utf8(relKind.name))
    }

    /** What the 16-bit length fields can hold. */
    ghost predicate Fits() {
      |entityId| < U16_LIMIT && (relKind.Custom? ==> |relKind.name| < U16_LIMIT)
    }
  }

  datatype AdjacencyList = AdjacencyList(outgoing: seq<Edge>, incoming: seq<Edge>)

  function EncodedName(s: Bytes): (b: Bytes)
    ensures |b| == 2 + |s|
  {
    ToLE(AsU16(|s|), 2) + s
  }

  function EncodedKind(k: RelKind): Bytes {
    [k.ToByte()] + if k.Custom? then EncodedName(k.name) else []
  }

  function EncodedEdge(e: Edge): Bytes {
    EncodedName(e.entityId) + EncodedKind(e.relKind)
  }

  function EncodedEdges(edges: seq<Edge>): Bytes {
    if edges == [] then [] else EncodedEdge(edges[0]) + EncodedEdges(edges[1..])
  }

  function Encoded(adj: AdjacencyList): Bytes {
    ToLE(AsU16(|adj.outgoing|), 2) + ToLE(AsU16(|adj.incoming|), 2)
      + EncodedEdges(adj.outgoing) + EncodedEdges(adj.incoming)
  }

  // ---------------------------------------------------------------------
  // Decoding
  // ---------------------------------------------------------------------

  /** RelKind::from_byte, at the position behind the kind byte. */
  function KindAt(utf8: Utf8Test, kind: byte, data: Bytes, pos: nat): (r: Result<Read<RelKind>, ValueDecodeError>)
    requires pos <= |data|
    ensures r.Ok? ==> pos <= r.value.pos <= |data|
    ensures r.Ok? && r.value.value.Custom? ==> |r.value.value.name| < U16_LIMIT
  {
    match kind
    case 0 => Ok(Read(Calls, pos))
    case 1 => Ok(Read(Imports, pos))
    case 2 => Ok(Read(Extends, pos))
    case 3 => Ok(Read(Implements, pos))
    case 4 => Ok(Read(Contains, pos))
    case 5 => Ok(Read(Uses, pos))
    case 6 => Ok(Read(TypeOf, pos))
    case 255 =>
      if pos + 2 > |data| then Err(TooShort)
      else
        var start, len := pos + 2, U16At(data, pos);
        if start + len > |data| then Err(TooShort)
        else if !utf8(data[start..start + len]) then Err(InvalidUtf8)
        else Ok(Read(Custom(data[start..start + len]), start + len))
    case _ => Err(InvalidFormat)
  }

  function EdgeAt(utf8: Utf8Test, data: Bytes, pos: nat): (r: Result<Read<Edge>, ValueDecodeError>)
    ensures r.Ok? ==> pos < r.value.pos <= |data| && r.value.value.Fits()
  {
    if pos + 2 > |data| then Err(TooShort)
    else
      var start, len := pos + 2, U16At(data, pos);
      if start + len + 1 > |data| then Err(TooShort)
      else if !utf8(data[start..start + len]) then Err(InvalidUtf8)
      else
        var kind :- KindAt(utf8, data[start + len], data, start + len + 1);
        Ok(Read(Edge(data[start..start + len], kind.value), kind.pos))
  }

  function EdgesAt(utf8: Utf8Test, data: Bytes, pos: nat, count: nat): (r: Result<Read<seq<Edge>>, ValueDecodeError>)
    ensures r.Ok? ==> |r.value.value| == count
    decreases count
  {
    if count == 0 then Ok(Read([], pos))
    else
      var first :- EdgeAt(utf8, data, pos);
      var rest :- EdgesAt(utf8, data, first.pos, count - 1);
      Ok(Read([first.value] + rest.value, rest.pos))
  }

  function Decoded(utf8: Utf8Test, data: Bytes): (r: Result<AdjacencyList, ValueDecodeError>)
    ensures r.Ok? ==> |r.value.outgoing| < U16_LIMIT && |r.value.incoming| < U16_LIMIT
  {
    if |data| < 4 then Err(TooShort)
    else
      var outgoing :- EdgesAt(utf8, data, 4, U16At(data, 0));
      var incoming :- EdgesAt(utf8, data, outgoing.pos, U16At(data, 2));
      Ok(AdjacencyList(outgoing.value, incoming.value))
  }

  // ---------------------------------------------------------------------
  // The loops
  // ---------------------------------------------------------------------

  method EncodeEdge(buf: Bytes, e: Edge) returns (out: Bytes)
    ensures out == buf + EncodedEdge(e)
  {
    hide ToLE;
    out := buf + ToLE(AsU16(|e.entityId|), 2);
    out := out + e.entityId;
    out := out + [e.relKind.ToByte()];
    if e.relKind.Custom? {
      out := out + ToLE(AsU16(|e.relKind.name|), 2);
      out := out + e.relKind.name;
    }
  }

  lemma {:induction false} EncodedAppend(edges: seq<Edge>, e: Edge)
    ensures EncodedEdges(edges + [e]) == EncodedEdges(edges) + EncodedEdge(e)
  {
    hide EncodedEdge;
    if edges == [] {
      assert [e][1..] == [];
    } else {
      EncodedAppend(edges[1..], e);
      assert (edges + [e])[1..] == edges[1..] + [e];
    }
  }

  method EncodeEdges(buf: Bytes, edges: seq<Edge>) returns (out: Bytes)
    ensures out == buf + EncodedEdges(edges)
  {
    hide EncodedEdge;
    out := buf;
    for i := 0 to |edges|
      invariant out == buf + EncodedEdges(edges[..i])
    {
      EncodedAppend(edges[..i], edges[i]);
      assert edges[..i + 1] == edges[..i] + [edges[i]];
      out := EncodeEdge(out, edges[i]);
    }
    assert edges[..|edges|] == edges;
  }

  method Encode(adj: AdjacencyList) returns (buf: Bytes)
    ensures buf == Encoded(adj)
  {
    hide ToLE, EncodedEdges;
    buf := ToLE(AsU16(|adj.outgoing|), 2);
    buf := buf + ToLE(AsU16(|adj.incoming|), 2);
    buf := EncodeEdges(buf, adj.outgoing);
    buf := EncodeEdges(buf, adj.incoming);
  }

  method DecodeEdges(utf8: Utf8Test, data: Bytes, start: nat, count: nat)
    returns (r: Result<Read<seq<Edge>>, ValueDecodeError>)
    ensures r == EdgesAt(utf8, data, start, count)
  {
    hide EdgeAt;
    var pos, edges := start, [];
    PrependNothing(EdgesAt(utf8, data, start, count));
    for i := 0 to count
      invariant EdgesAt(utf8, data, start, count) == Prepend(edges, EdgesAt(utf8, data, pos, count - i))
    {
      var edge := EdgeAt(utf8, data, pos);
      if edge.Err? {
        return Err(edge.error);
      }
      PrependStep(edges, edge.value.value, EdgesAt(utf8, data, edge.value.pos, count - i - 1));
      edges := edges + [edge.value.value];
      pos := edge.value.pos;
    }
    assert edges + [] == edges;
    return Ok(Read(edges, pos));
  }

  method Decode(utf8: Utf8Test, data: Bytes) returns (r: Result<AdjacencyList, ValueDecodeError>)
    ensures r == Decoded(utf8, data)
  {
    hide EdgesAt, FromLE;
    if |data| < 4 {
      return Err(TooShort);
    }
    var outgoing := DecodeEdges(utf8, data, 4, U16At(data, 0));
    if outgoing.Err? {
      return Err(outgoing.error);
    }
    var incoming := DecodeEdges(utf8, data, outgoing.value.pos, U16At(data, 2));
    if incoming.Err? {
      return Err(incoming.error);
    }
    return Ok(AdjacencyList(outgoing.value.value, incoming.value.value));
  }

  // ---------------------------------------------------------------------
  // Round trip
  // ---------------------------------------------------------------------

  lemma NameReadsBack(data: Bytes, pos: nat, s: Bytes)
    requires At(data, pos, EncodedName(s))
    ensures U16At(data, pos) == AsU16(|s|) && At(data, pos + 2, s)
  {
    AtSplits(data, pos, ToLE(AsU16(|s|), 2), s);
    U16RoundTrip(AsU16(|s|));
  }

  lemma CustomReadsBack(utf8: Utf8Test, data: Bytes, pos: nat, name: Bytes)
    requires At(data, pos, EncodedName(name)) && utf8(name) && |name| < U16_LIMIT
    ensures KindAt(utf8, 255, data, pos) == Ok(Read(Custom(name), pos + |EncodedName(name)|))
  {
    hide ToLE, FromLE;
    NameReadsBack(data, pos, name);
    assert data[pos + 2..pos + 2 + |name|] == name;
  }

  lemma KindReadsBack(utf8: Utf8Test, data: Bytes, pos: nat, k: RelKind)
    requires At(data, pos, EncodedKind(k)) && (k.Custom? ==> utf8(k.name) && |k.name| < U16_LIMIT)
    ensures pos < |data| && data[pos] == k.ToByte()
    ensures KindAt(utf8, k.ToByte(), data, pos + 1) == Ok(Read(k, pos + |EncodedKind(k)|))
  {
    hide EncodedName;
    var name := if k.Custom? then EncodedName(k.name) else [];
    AtSplits(data, pos, [k.ToByte()], name);
    assert data[pos] == data[pos..pos + 1][0];
    if k.Custom? {
      CustomReadsBack(utf8, data, pos + 1, k.name);
    }
  }

  /** An edge reads back exactly when its strings fit their length fields, using
      exactly the bytes its encoding wrote; one that does not fit is never mistaken
      for the original. */
  lemma EdgeReadsBack(utf8: Utf8Test, data: Bytes, pos: nat, e: Edge)
    requires At(data, pos, EncodedEdge(e)) && e.IsString(utf8)
    ensures e.Fits() ==> EdgeAt(utf8, data, pos) == Ok(Read(e, pos + |EncodedEdge(e)|))
    ensures !e.Fits() && EdgeAt(utf8, data, pos).Ok? ==> EdgeAt(utf8, data, pos).value.value != e
  {
    hide EncodedName, EncodedKind, KindAt, FromLE;
    if e.Fits() {
      AtSplits(data, pos, EncodedName(e.entityId), EncodedKind(e.relKind));
      NameReadsBack(data, pos, e.entityId);
      KindReadsBack(utf8, data, pos + 2 + |e.entityId|, e.relKind);
    }
  }

  ghost predicate AllFit(edges: seq<Edge>) {
    forall i :: 0 <= i < |edges| ==> edges[i].Fits()
  }

  ghost predicate AllStrings(utf8: Utf8Test, edges: seq<Edge>) {
    forall i :: 0 <= i < |edges| ==> edges[i].IsString(utf8)
  }

  lemma {:induction false} EdgesReadBack(utf8: Utf8Test, data: Bytes, pos: nat, edges: seq<Edge>)
    requires At(data, pos, EncodedEdges(edges)) && AllStrings(utf8, edges)
    ensures AllFit(edges) ==> EdgesAt(utf8, data, pos, |edges|) == Ok(Read(edges, pos + |EncodedEdges(edges)|))
    ensures !AllFit(edges) && EdgesAt(utf8, data, pos, |edges|).Ok? ==>
              EdgesAt(utf8, data, pos, |edges|).value.value != edges
    decreases |edges|
  {
    hide EdgeAt, EncodedEdge, At, Edge.Fits, Edge.IsString;
    if edges != [] {
      var rest := edges[1..];
      assert edges == [edges[0]] + rest;
      AtSplits(data, pos, EncodedEdge(edges[0]), EncodedEdges(rest));
      EdgeReadsBack(utf8, data, pos, edges[0]);
      if edges[0].Fits() {
        EdgesReadBack(utf8, data, pos + |EncodedEdge(edges[0])|, rest);
        assert AllFit(rest) <==> AllFit(edges);
      }
    }
  }

  /** Whatever bytes follow, decoding the encoding returns both edge lists in
      order exactly when the counts and all strings fit 16 bits. */
  lemma RoundTrip(utf8: Utf8Test, adj: AdjacencyList, suffix: Bytes)
    requires AllStrings(utf8, adj.outgoing) && AllStrings(utf8, adj.incoming)
    ensures Decoded(utf8, Encoded(adj) + suffix) == Ok(adj) <==>
            && |adj.outgoing| < U16_LIMIT && |adj.incoming| < U16_LIMIT
            && AllFit(adj.outgoing) && AllFit(adj.incoming)
  {
    hide EdgesAt, EncodedEdges, ToLE, FromLE, AllFit;
    var data := Encoded(adj) + suffix;
    var counts := ToLE(AsU16(|adj.outgoing|), 2) + ToLE(AsU16(|adj.incoming|), 2);
    var outgoing, incoming := EncodedEdges(adj.outgoing), EncodedEdges(adj.incoming);
    WholeIsAt(data);
    AtSplits(data, 0, Encoded(adj), suffix);
    AtSplits(data, 0, counts + outgoing, incoming);
    AtSplits(data, 0, counts, outgoing);
    AtSplits(data, 0, ToLE(AsU16(|adj.outgoing|), 2), ToLE(AsU16(|adj.incoming|), 2));
    U16RoundTrip(AsU16(|adj.outgoing|));
    U16RoundTrip(AsU16(|adj.incoming|));
    if |adj.outgoing| < U16_LIMIT && |adj.incoming| < U16_LIMIT {
      EdgesReadBack(utf8, data, 4, adj.outgoing);
      if AllFit(adj.outgoing) {
        EdgesReadBack(utf8, data, 4 + |outgoing|, adj.incoming);
      }
    }
  }

  // ---------------------------------------------------------------------
  // Foreign bytes
  // ---------------------------------------------------------------------

  lemma NameStands(data: Bytes, pos: nat, s: Bytes)
    requires pos + 2 <= |data| && U16At(data, pos) == |s| && At(data, pos + 2, s)
    ensures At(data, pos, EncodedName(s))
  {
    hide ToLE, FromLE;
    U16Stands(data, pos);
    AtJoins(data, pos, ToLE(AsU16(|s|), 2), s);
  }

  /** A kind read from any bytes stands there encoded. */
  lemma ReadKindStands(utf8: Utf8Test, data: Bytes, pos: nat)
    requires pos < |data| && KindAt(utf8, data[pos], data, pos + 1).Ok?
    ensures var read := KindAt(utf8, data[pos], data, pos + 1).value;
            && (read.value.Custom? ==> utf8(read.value.name))
            && At(data, pos, EncodedKind(read.value)) && read.pos == pos + |EncodedKind(read.value)|
  {
    hide EncodedName, FromLE;
    var kind := KindAt(utf8, data[pos], data, pos + 1).value.value;
    assert data[pos..pos + 1] == [data[pos]];
    if kind.Custom? {
      NameStands(data, pos + 1, kind.name);
      AtJoins(data, pos, [data[pos]], EncodedName(kind.name));
    }
  }

  /** An edge read from any bytes stands there encoded. */
  lemma ReadEdgeStands(utf8: Utf8Test, data: Bytes, pos: nat)
    requires EdgeAt(utf8, data, pos).Ok?
    ensures var read := EdgeAt(utf8, data, pos).value;
            && read.value.IsString(utf8) && At(data, pos, EncodedEdge(read.value))
            && read.pos == pos + |EncodedEdge(read.value)|
  {
    hide EncodedName, EncodedKind, KindAt, FromLE;
    var edge := EdgeAt(utf8, data, pos).value.value;
    NameStands(data, pos, edge.entityId);
    ReadKindStands(utf8, data, pos + 2 + |edge.entityId|);
    AtJoins(data, pos, EncodedName(edge.entityId), EncodedKind(edge.relKind));
  }

  lemma {:induction false} ReadEdgesStand(utf8: Utf8Test, data: Bytes, pos: nat, count: nat)
    requires pos <= |data| && EdgesAt(utf8, data, pos, count).Ok?
    ensures var read := EdgesAt(utf8, data, pos, count).value;
            && AllStrings(utf8, read.value) && AllFit(read.value)
            && At(data, pos, EncodedEdges(read.value)) && read.pos == pos + |EncodedEdges(read.value)|
    decreases count
  {
    hide EdgeAt, EncodedEdge, Edge.Fits, Edge.IsString;
    if count > 0 {
      var first := EdgeAt(utf8, data, pos).value;
      ReadEdgeStands(utf8, data, pos);
      ReadEdgesStand(utf8, data, first.pos, count - 1);
      var rest := EdgesAt(utf8, data, first.pos, count - 1).value.value;
      assert ([first.value] + rest)[1..] == rest;
      AtJoins(data, pos, EncodedEdge(first.value), EncodedEdges(rest));
    }
  }

  /** Both lists can be encoded and read back. */
  ghost predicate Encodable(utf8: Utf8Test, adj: AdjacencyList) {
    && AllStrings(utf8, adj.outgoing) && AllStrings(utf8, adj.incoming)
    && AllFit(adj.outgoing) && AllFit(adj.incoming)
    && |adj.outgoing| < U16_LIMIT && |adj.incoming| < U16_LIMIT
  }

  /** Decoding accepts exactly the encodings: any bytes yield an adjacency list exactly
      when it is encodable and its encoding stands at their front. */
  lemma DecodedIff(utf8: Utf8Test, data: Bytes, adj: AdjacencyList)
    ensures Decoded(utf8, data) == Ok(adj) <==> Encodable(utf8, adj) && At(data, 0, Encoded(adj))
  {
    hide EdgesAt, EncodedEdges, AllFit, AllStrings, ToLE, FromLE;
    if Decoded(utf8, data) == Ok(adj) {
      var outgoing, incoming := EncodedEdges(adj.outgoing), EncodedEdges(adj.incoming);
      U16Stands(data, 0);
      U16Stands(data, 2);
      ReadEdgesStand(utf8, data, 4, U16At(data, 0));
      AtIsWithin(data, 4, outgoing);
      ReadEdgesStand(utf8, data, 4 + |outgoing|, U16At(data, 2));
      AtJoins(data, 0, ToLE(U16At(data, 0), 2), ToLE(U16At(data, 2), 2));
      AtJoins(data, 0, ToLE(U16At(data, 0), 2) + ToLE(U16At(data, 2), 2), outgoing);
      AtJoins(data, 0, ToLE(U16At(data, 0), 2) + ToLE(U16At(data, 2), 2) + outgoing, incoming);
    }
    if Encodable(utf8, adj) && At(data, 0, Encoded(adj)) {
      AtSuffix(data, 0, Encoded(adj));
      assert data[0..] == data;
      RoundTrip(utf8, adj, data[|Encoded(adj)|..]);
    }
  }

  /** A name read from data cut inside it: the cut lies in its length or in its bytes. */
  lemma CutName(data: Bytes, n: nat, pos: nat, s: Bytes)
    requires At(data, pos, EncodedName(s)) && |s| < U16_LIMIT && pos + 2 <= n <= |data|
    ensures U16At(data[..n], pos) == |s|
    ensures pos + 2 + |s| <= n ==> At(data[..n], pos, EncodedName(s))
  {
    hide ToLE, FromLE;
    NameReadsBack(data, pos, s);
    assert data[..n][pos..pos + 2] == data[pos..pos + 2];
  }

  lemma CutKindIsTooShort(utf8: Utf8Test, data: Bytes, n: nat, pos: nat, k: RelKind)
    requires At(data, pos, EncodedKind(k)) && (k.Custom? ==> |k.name| < U16_LIMIT)
    requires pos < n < pos + |EncodedKind(k)|
    ensures data[pos] == k.ToByte() && KindAt(utf8, data[pos], data[..n], pos + 1) == Err(TooShort)
  {
    hide EncodedName, FromLE;
    AtSplits(data, pos, [k.ToByte()], EncodedName(k.name));
    assert data[pos] == data[pos..pos + 1][0];
    AtIsWithin(data, pos, EncodedKind(k));
    if pos + 3 <= n {
      CutName(data, n, pos + 1, k.name);
    }
  }

  lemma CutEdgeIsTooShort(utf8: Utf8Test, data: Bytes, n: nat, pos: nat, e: Edge)
    requires At(data, pos, EncodedEdge(e)) && e.Fits() && e.IsString(utf8)
    requires pos <= n < pos + |EncodedEdge(e)|
    ensures EdgeAt(utf8, data[..n], pos) == Err(TooShort)
  {
    hide EncodedName, EncodedKind, KindAt, FromLE, At;
    AtSplits(data, pos, EncodedName(e.entityId), EncodedKind(e.relKind));
    AtIsWithin(data, pos, EncodedEdge(e));
    var kindPos := pos + 2 + |e.entityId|;
    if pos + 2 <= n {
      CutName(data, n, pos, e.entityId);
      if kindPos < n {
        NameReadsBack(data[..n], pos, e.entityId);
        NameText(data[..n], pos, e.entityId);
        CutKindIsTooShort(utf8, data, n, kindPos, e.relKind);
      }
    }
  }

  lemma NameText(data: Bytes, pos: nat, s: Bytes)
    requires At(data, pos + 2, s)
    ensures data[pos + 2..pos + 2 + |s|] == s
  {
  }

  lemma {:induction false} CutEdgesAreTooShort(utf8: Utf8Test, data: Bytes, n: nat, pos: nat, edges: seq<Edge>)
    requires At(data, pos, EncodedEdges(edges)) && AllStrings(utf8, edges) && AllFit(edges)
    requires pos <= n < pos + |EncodedEdges(edges)|
    ensures EdgesAt(utf8, data[..n], pos, |edges|) == Err(TooShort)
    decreases |edges|
  {
    hide EdgeAt, EncodedEdge, At, Edge.Fits, Edge.IsString;
    var first, rest := edges[0], edges[1..];
    AtSplits(data, pos, EncodedEdge(first), EncodedEdges(rest));
    AtIsWithin(data, pos, EncodedEdges(edges));
    if pos + |EncodedEdge(first)| <= n {
      AtInPrefix(data, n, pos, EncodedEdge(first));
      EdgeReadsBack(utf8, data[..n], pos, first);
      CutEdgesAreTooShort(utf8, data, n, pos + |EncodedEdge(first)|, rest);
    } else {
      CutEdgeIsTooShort(utf8, data, n, pos, first);
    }
  }

  /** An encoding cut anywhere is refused as too short. */
  lemma CutIsTooShort(utf8: Utf8Test, adj: AdjacencyList, n: nat)
    requires Encodable(utf8, adj) && n < |Encoded(adj)|
    ensures Decoded(utf8, Encoded(adj)[..n]) == Err(TooShort)
  {
    hide EdgesAt, EncodedEdges, AllFit, AllStrings, ToLE, FromLE;
    var data := Encoded(adj);
    var a, b := ToLE(|adj.outgoing|, 2), ToLE(|adj.incoming|, 2);
    var outgoing, incoming := EncodedEdges(adj.outgoing), EncodedEdges(adj.incoming);
    WholeIsAt(data);
    AtSplits(data, 0, a + b + outgoing, incoming);
    AtSplits(data, 0, a + b, outgoing);
    AtSplits(data, 0, a, b);
    U16RoundTrip(|adj.outgoing|);
    U16RoundTrip(|adj.incoming|);
    if n >= 4 {
      AtInPrefix(data, n, 0, a);
      AtInPrefix(data, n, 2, b);
      if n < 4 + |outgoing| {
        CutEdgesAreTooShort(utf8, data, n, 4, adj.outgoing);
      } else {
        AtInPrefix(data, n, 4, outgoing);
        EdgesReadBack(utf8, data[..n], 4, adj.outgoing);
        CutEdgesAreTooShort(utf8, data, n, 4 + |outgoing|, adj.incoming);
      }
    }
  }

  lemma KindOtherThanTextIsRefused(utf8: Utf8Test, data: Bytes, pos: nat, k: RelKind)
    requires At(data, pos, EncodedKind(k)) && k.Custom? && |k.name| < U16_LIMIT && !utf8(k.name)
    ensures data[pos] == k.ToByte() && KindAt(utf8, data[pos], data, pos + 1) == Err(InvalidUtf8)
  {
    hide EncodedName, FromLE;
    AtSplits(data, pos, [k.ToByte()], EncodedName(k.name));
    assert data[pos] == data[pos..pos + 1][0];
    NameReadsBack(data, pos + 1, k.name);
    NameText(data, pos + 1, k.name);
  }

  lemma EdgeOtherThanTextIsRefused(utf8: Utf8Test, data: Bytes, pos: nat, e: Edge)
    requires At(data, pos, EncodedEdge(e)) && e.Fits() && !e.IsString(utf8)
    ensures EdgeAt(utf8, data, pos) == Err(InvalidUtf8)
  {
    hide EncodedName, EncodedKind, KindAt, FromLE, At;
    AtSplits(data, pos, EncodedName(e.entityId), EncodedKind(e.relKind));
    AtIsWithin(data, pos, EncodedEdge(e));
    NameReadsBack(data, pos, e.entityId);
    NameText(data, pos, e.entityId);
    KindIsNotEmpty(e.relKind);
    if utf8(e.entityId) {
      KindOtherThanTextIsRefused(utf8, data, pos + 2 + |e.entityId|, e.relKind);
    }
  }

  lemma KindIsNotEmpty(k: RelKind)
    ensures |EncodedKind(k)| >= 1
  {
  }

  lemma {:induction false} OtherThanTextIsRefused(utf8: Utf8Test, data: Bytes, pos: nat, edges: seq<Edge>)
    requires At(data, pos, EncodedEdges(edges)) && AllFit(edges) && !AllStrings(utf8, edges)
    ensures EdgesAt(utf8, data, pos, |edges|) == Err(InvalidUtf8)
    decreases |edges|
  {
    hide EncodedEdge, At, EdgeAt, Edge.IsString, Edge.Fits;
    var first, rest := edges[0], edges[1..];
    AtSplits(data, pos, EncodedEdge(first), EncodedEdges(rest));
    if first.IsString(utf8) {
      EdgeReadsBack(utf8, data, pos, first);
      OtherThanTextIsRefused(utf8, data, pos + |EncodedEdge(first)|, rest);
    } else {
      EdgeOtherThanTextIsRefused(utf8, data, pos, first);
    }
  }

  /** Lists that fit are refused for their strings exactly when one of these is not
      UTF-8, whatever bytes follow. */
  lemma InvalidUtf8Iff(utf8: Utf8Test, adj: AdjacencyList, suffix: Bytes)
    requires AllFit(adj.outgoing) && AllFit(adj.incoming)
    requires |adj.outgoing| < U16_LIMIT && |adj.incoming| < U16_LIMIT
    ensures Decoded(utf8, Encoded(adj) + suffix) == Err(InvalidUtf8) <==>
            !(AllStrings(utf8, adj.outgoing) && AllStrings(utf8, adj.incoming))
  {
    hide EdgesAt, EncodedEdges, AllFit, AllStrings, ToLE, FromLE;
    if AllStrings(utf8, adj.outgoing) && AllStrings(utf8, adj.incoming) {
      RoundTrip(utf8, adj, suffix);
    } else {
      var data := Encoded(adj) + suffix;
      var a, b := ToLE(|adj.outgoing|, 2), ToLE(|adj.incoming|, 2);
      var outgoing, incoming := EncodedEdges(adj.outgoing), EncodedEdges(adj.incoming);
      WholeIsAt(data);
      AtSplits(data, 0, Encoded(adj), suffix);
      AtSplits(data, 0, a + b + outgoing, incoming);
      AtSplits(data, 0, a + b, outgoing);
      AtSplits(data, 0, a, b);
      U16RoundTrip(|adj.outgoing|);
      U16RoundTrip(|adj.incoming|);
      if AllStrings(utf8, adj.outgoing) {
        EdgesReadBack(utf8, data, 4, adj.outgoing);
        OtherThanTextIsRefused(utf8, data, 4 + |outgoing|, adj.incoming);
      } else {
        OtherThanTextIsRefused(utf8, data, 4, adj.outgoing);
      }
    }
  }

  /** A kind byte outside the dictionary is refused, after any entity id. */
  lemma UnknownKindIsRefused(utf8: Utf8Test, data: Bytes, pos: nat, id: Bytes, kind: byte)
    requires At(data, pos, EncodedName(id) + [kind]) && utf8(id) && |id| < U16_LIMIT && 7 <= kind < 255
    ensures EdgeAt(utf8, data, pos) == Err(InvalidFormat)
  {
    hide EncodedName, FromLE;
    AtSplits(data, pos, EncodedName(id), [kind]);
    NameReadsBack(data, pos, id);
    NameText(data, pos, id);
    assert data[pos + 2 + |id|] == data[pos + 2 + |id|..pos + 2 + |id| + 1][0];
  }

  /** The documented kind dictionary, after an empty entity id. */
  lemma Dictionary(utf8: Utf8Test, kind: byte)
    requires utf8([]) && kind < 7
    ensures EdgeAt(utf8, [0, 0, kind], 0) ==
            Ok(Read(Edge([], [Calls, Imports, Extends, Implements, Contains, Uses, TypeOf][kind]), 3))
  {
    assert [0, 0, kind][0..2] == [0, 0] && FromLE([0, 0]) == 0;
    assert [0, 0, kind][2..2] == [];
  }

  /** The documented layout, byte by byte: one edge out, one of a kind of its own in. */
  lemma LayoutOfTwo()
    ensures Encoded(AdjacencyList([Edge([0x61], Imports)], [Edge([0x62], Custom([0x63, 0x64]))])) ==
            [1, 0, 1, 0] + [1, 0, 0x61, 1] + [1, 0, 0x62, 255, 2, 0, 0x63, 0x64]
  {
    LoneEdge(Edge([0x61], Imports));
    LoneEdge(Edge([0x62], Custom([0x63, 0x64])));
    assert ToLE(0, 1) == [0];
  }

  lemma LoneEdge(e: Edge)
    ensures EncodedEdges([e]) == EncodedEdge(e)
  {
    assert EncodedEdges([e]) == EncodedEdge(e) + EncodedEdges([]);
  }
}
