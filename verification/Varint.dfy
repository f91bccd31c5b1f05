/** The block codec's variable-length integers (unsigned LEB128). */
module Varint {
  import opened ByteStrings
  import opened Results

  /** Seven bits a byte, least significant first; the top bit says another byte follows. */
  function Encoded(v: nat): (r: Bytes)
    ensures |r| >= 1
  {
    if v < 128 then [v] else [v % 128 + 128] + Encoded(v / 128)
  }

  /** 2 to the power 7 * i: the weight of the i-th byte. */
  function Weight(i: nat): (w: nat)
    ensures w >= 1
  {
    if i == 0 then 1 else 128 * Weight(i - 1)
  }

  /** n shifted left by i groups of seven bits. */
  function Weighted(n: nat, i: nat): nat {
    n * Weight(i)
  }

  lemma WeightValues()
    ensures Weight(1) == 128 && Weight(2) == 16384 && Weight(3) == 2097152
    ensures Weight(4) == 268435456 && 16 * Weight(4) == U32_LIMIT
  {
    assert Weight(2) == 128 * Weight(1);
    assert Weight(3) == 128 * Weight(2);
    assert Weight(4) == 128 * Weight(3);
  }

  /** One step of `result |= (byte & 0x7F) << shift` on a u32. The bits gathered
      so far lie below the weight of byte i, so the `|` of the source is a sum. */
  function Accumulated(acc: nat, b: byte, i: nat): (r: u32)
    requires i < 5 && acc < Weight(i)
    ensures r < Weight(i + 1)
  {
    WeightValues();
    acc + Weighted(b % 128, i) % U32_LIMIT
  }

  datatype Decoding = Decoding(value: u32, consumed: nat)

  /** decode_varint from byte i on, with `acc` gathered so far. A sixth byte is an
      error whatever it holds; the bits a fifth byte shifts past 32 are lost. */
  function DecodedFrom(data: Bytes, i: nat, acc: u32): (r: Result<Decoding, BlockError>)
    requires i <= |data| && i <= 5 && acc < Weight(i)
    ensures r.Ok? ==> i < r.value.consumed <= |data|
    decreases |data| - i
  {
    if i == |data| then Err(UnexpectedEof)
    else if i == 5 then Err(InvalidVarint)
    else
      var acc' := Accumulated(acc, data[i], i);
      if data[i] < 128 then Ok(Decoding(acc', i + 1)) else DecodedFrom(data, i + 1, acc')
  }

  function Decoded(data: Bytes): (r: Result<Decoding, BlockError>)
    ensures r.Ok? ==> 0 < r.value.consumed <= |data|
  {
    DecodedFrom(data, 0, 0)
  }

  /** encode_varint: push seven bits at a time. */
  method Encode(v: u32, buf: Bytes) returns (out: Bytes, written: nat)
    ensures out == buf + Encoded(v)
    ensures written == |Encoded(v)|
  {
    out := buf;
    var val: nat := v;
    while val >= 128
      invariant out + Encoded(val) == buf + Encoded(v)
    {
      var before := out;
      out := out + [val % 128 + 128];
      assert out + Encoded(val / 128) == before + Encoded(val);
      val := val / 128;
    }
    out := out + [val];
    written := |out| - |buf|;
  }

  /** decode_varint: one pass with a running shift. */
  method Decode(data: Bytes) returns (r: Result<Decoding, BlockError>)
    ensures r == Decoded(data)
  {
    var result: u32 := 0;
    var shift := 0;
    ghost var read := 0;
    for i := 0 to |data|
      invariant shift == 7 * read && i == read <= 5
      invariant result < Weight(i)
      invariant DecodedFrom(data, i, result) == Decoded(data)
    {
      if shift >= 35 {
        return Err(InvalidVarint);
      }
      result := Accumulated(result, data[i], i);
      if data[i] < 128 {
        return Ok(Decoding(result, i + 1));
      }
      shift := shift + 7;
      read := read + 1;
    }
    return Err(UnexpectedEof);
  }

  lemma {:induction false} EncodedLength(v: u32)
    ensures |Encoded(v)| <= 5
    ensures v < 128 <==> |Encoded(v)| == 1
  {
    var a, b, c, d := v / 128, v / 128 / 128, v / 128 / 128 / 128, v / 128 / 128 / 128 / 128;
    assert d < 16;
    assert |Encoded(d)| == 1 && |Encoded(c)| <= 2 && |Encoded(b)| <= 3 && |Encoded(a)| <= 4;
  }

  /** What the low seven bits of the first n bytes are worth. */
  function Payload(data: Bytes, n: nat): nat
    requires n <= |data|
  {
    if n == 0 then 0 else Payload(data, n - 1) + Weighted(data[n - 1] % 128, n - 1)
  }

  /** Bytes 0 to n all say that another byte follows. */
  ghost predicate AllContinue(data: Bytes, n: nat) {
    n <= |data| && forall i :: 0 <= i < n ==> data[i] >= 128
  }

  lemma {:induction false} PayloadIsGathered(data: Bytes, i: nat, acc: u32, n: nat)
    requires i <= n && n <= 4 && n < |data| && AllContinue(data, n) && data[n] < 128
    requires acc < Weight(i) && acc == Payload(data, i)
    ensures DecodedFrom(data, i, acc) == Ok(Decoding(Payload(data, n + 1) % U32_LIMIT, n + 1))
    decreases n - i
  {
    hide Weighted;
    var acc' := Accumulated(acc, data[i], i);
    LowBitsStay(acc, data[i], i);
    if i < n {
      PayloadIsGathered(data, i + 1, acc', n);
    }
  }

  lemma LowBitsStay(acc: nat, b: byte, i: nat)
    requires i < 5 && acc < Weight(i)
    ensures Accumulated(acc, b, i) == (acc + Weighted(b % 128, i)) % U32_LIMIT
    ensures i < 4 ==> Accumulated(acc, b, i) == acc + Weighted(b % 128, i)
  {
    WeightValues();
    if i == 4 {
      var w, q := Weighted(b % 128, 4), (b % 128) / 16;
      assert w == q * U32_LIMIT + ((b % 128) % 16) * Weight(4);
      assert w % U32_LIMIT == ((b % 128) % 16) * Weight(4);
      assert (acc + w) % U32_LIMIT == acc + w % U32_LIMIT;
    }
  }

  lemma {:induction false} ContinuesFrom(data: Bytes, i: nat, acc: u32, n: nat)
    requires i <= n && n <= 5 && AllContinue(data, n) && acc < Weight(i)
    requires n == |data| || n == 5
    ensures DecodedFrom(data, i, acc) == Err(if n == |data| then UnexpectedEof else InvalidVarint)
    decreases n - i
  {
    hide Weight, Accumulated;
    if i < n {
      ContinuesFrom(data, i + 1, Accumulated(acc, data[i], i), n);
    }
  }

  /** Decoding any bytes, n of them in front of the first that ends a code: the low
      seven bits of the first n + 1, as a u32, when n is at most 4; otherwise the data
      ended early, or went on behind five bytes. */
  lemma DecodedExactly(data: Bytes, n: nat)
    requires AllContinue(data, n) && (n < |data| ==> data[n] < 128)
    ensures Decoded(data) ==
            if n < |data| && n <= 4 then Ok(Decoding(Payload(data, n + 1) % U32_LIMIT, n + 1))
            else if |data| <= 5 then Err(UnexpectedEof)
            else Err(InvalidVarint)
  {
    hide DecodedFrom;
    if n < |data| && n <= 4 {
      PayloadIsGathered(data, 0, 0, n);
    } else {
      ContinuesFrom(data, 0, 0, if n <= 5 then n else 5);
    }
  }

  lemma StepArithmetic(acc: u32, i: nat, v: nat)
    requires i < 5 && acc < Weight(i)
    requires acc + Weighted(v, i) < U32_LIMIT
    ensures acc + Weighted(v % 128, i) < Weight(i + 1)
    ensures Weighted(v % 128, i) < U32_LIMIT
    ensures acc + Weighted(v % 128, i) + Weighted(v / 128, i + 1) == acc + Weighted(v, i)
    ensures i == 4 ==> v < 128
  {
    WeightValues();
  }

  lemma {:induction false} DecodesFrom(data: Bytes, i: nat, acc: u32, v: nat)
    requires i < 5 && acc < Weight(i)
    requires acc + Weighted(v, i) < U32_LIMIT
    requires i + |Encoded(v)| <= |data| && data[i..i + |Encoded(v)|] == Encoded(v)
    ensures DecodedFrom(data, i, acc) == Ok(Decoding(acc + Weighted(v, i), i + |Encoded(v)|))
    decreases v
  {
    hide Weighted;
    var code := Encoded(v);
    assert data[i] == code[0];
    StepArithmetic(acc, i, v);
    if v >= 128 {
      assert data[i + 1..i + |code|] == code[1..];
      assert Accumulated(acc, data[i], i) == acc + Weighted(v % 128, i);
      DecodesFrom(data, i + 1, acc + Weighted(v % 128, i), v / 128);
    }
  }

  /** Whatever bytes follow, decoding an encoded u32 returns it and exactly its
      length: codes are prefix-free. */
  lemma RoundTrip(v: u32, suffix: Bytes)
    ensures Decoded(Encoded(v) + suffix) == Ok(Decoding(v, |Encoded(v)|))
    ensures 1 <= |Encoded(v)| <= 5
  {
    EncodedLength(v);
    DecodesFrom(Encoded(v) + suffix, 0, 0, v);
  }
}
