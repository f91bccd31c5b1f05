/** Byte strings: the lexicographic order every sorted structure of the engine
    relies on, and the little-endian integers every format is made of. */
module ByteStrings {

  type byte = b: int | 0 <= b < 256
  type Bytes = seq<byte>

  const U16_LIMIT := 0x1_0000
  const U32_LIMIT := 0x1_0000_0000
  const U64_LIMIT := 0x1_0000_0000_0000_0000

  type u16 = n: int | 0 <= n < U16_LIMIT
  type u32 = n: int | 0 <= n < U32_LIMIT
  type u64 = n: int | 0 <= n < U64_LIMIT

  /** The source's `as u16`, `as u32` and `as u64`: they keep the low bits. */
  function AsU16(n: nat): u16 { n % U16_LIMIT }

  function AsU32(n: nat): u32 { n % U32_LIMIT }

  function AsU64(n: nat): u64 { n % U64_LIMIT }

  // ---------------------------------------------------------------------
  // Lexicographic order
  // ---------------------------------------------------------------------

  datatype Ordering = Less | Equal | Greater

  /** a is strictly below b. */
  predicate Below(a: Bytes, b: Bytes)
    decreases |b|
  {
    b != [] && (a == [] || a[0] < b[0] || (a[0] == b[0] && Below(a[1..], b[1..])))
  }

  predicate AtMost(a: Bytes, b: Bytes) {
    a == b || Below(a, b)
  }

  function Compare(a: Bytes, b: Bytes): Ordering {
    if a == b then Equal else if Below(a, b) then Less else Greater
  }

  lemma {:induction false} BelowIsIrreflexive(a: Bytes)
    ensures !Below(a, a)
    decreases |a|
  {
    if a != [] {
      BelowIsIrreflexive(a[1..]);
    }
  }

  lemma {:induction false} BelowIsTransitive(a: Bytes, b: Bytes, c: Bytes)
    requires Below(a, b) && Below(b, c)
    ensures Below(a, c)
    decreases |c|
  {
    if a != [] && a[0] == b[0] && b[0] == c[0] {
      BelowIsTransitive(a[1..], b[1..], c[1..]);
    }
  }

  lemma {:induction false} BelowIsTotal(a: Bytes, b: Bytes)
    ensures a == b || Below(a, b) || Below(b, a)
    decreases |a|
  {
    if a != [] && b != [] && a[0] == b[0] {
      BelowIsTotal(a[1..], b[1..]);
      assert a == [a[0]] + a[1..] && b == [b[0]] + b[1..];
    }
  }

  lemma BelowIsAsymmetric(a: Bytes, b: Bytes)
    requires Below(a, b)
    ensures a != b && !Below(b, a)
  {
    BelowIsIrreflexive(a);
    if Below(b, a) {
      BelowIsTransitive(a, b, a);
    }
  }

  /** The order is linear, so any two of the three answers of a comparison decide it. */
  lemma CompareIsLinear(a: Bytes, b: Bytes)
    ensures Compare(a, b) == Less <==> Below(a, b)
    ensures Compare(a, b) == Equal <==> a == b
    ensures Compare(a, b) == Greater <==> Below(b, a)
  {
    BelowIsTotal(a, b);
    if Below(a, b) {
      BelowIsAsymmetric(a, b);
    }
    if Below(b, a) {
      BelowIsAsymmetric(b, a);
    }
  }

  lemma AtMostBelow(a: Bytes, b: Bytes, c: Bytes)
    requires AtMost(a, b) && Below(b, c)
    ensures Below(a, c)
  {
    if a != b {
      BelowIsTransitive(a, b, c);
    }
  }

  lemma BelowAtMost(a: Bytes, b: Bytes, c: Bytes)
    requires Below(a, b) && AtMost(b, c)
    ensures Below(a, c)
  {
    if b != c {
      BelowIsTransitive(a, b, c);
    }
  }

  /** The order is lexicographic on unsigned bytes: a shorter string comes before its
      extensions, and otherwise the first byte that differs decides. */
  lemma {:induction false} BelowAtDifference(a: Bytes, b: Bytes, n: nat)
    requires n <= |a| && n <= |b| && a[..n] == b[..n] && (n < |a| && n < |b| ==> a[n] != b[n])
    ensures Below(a, b) <==> n < |b| && (n == |a| || a[n] < b[n])
    decreases n
  {
    if n > 0 {
      assert a[0] == a[..n][0] && b[0] == b[..n][0];
      assert a[1..][..n - 1] == a[..n][1..] && b[1..][..n - 1] == b[..n][1..];
      BelowAtDifference(a[1..], b[1..], n - 1);
    }
  }

  lemma AtMostBothWays(a: Bytes, b: Bytes)
    requires AtMost(a, b) && AtMost(b, a)
    ensures a == b
  {
    if a != b {
      BelowIsAsymmetric(a, b);
    }
  }

  lemma EmptyIsLeast(v: Bytes)
    ensures AtMost([], v)
  {
  }

  // ---------------------------------------------------------------------
  // Slices
  // ---------------------------------------------------------------------

  /** The bytes of `part` stand in `data` from `pos` on. */
  ghost predicate At(data: Bytes, pos: nat, part: Bytes) {
    pos + |part| <= |data| && data[pos..pos + |part|] == part
  }

  lemma WholeIsAt(data: Bytes)
    ensures At(data, 0, data)
  {
  }

  lemma SliceIsAt(data: Bytes, i: nat, j: nat)
    requires i <= j <= |data|
    ensures At(data, i, data[i..j])
  {
  }

  lemma AtSplits(data: Bytes, pos: nat, a: Bytes, b: Bytes)
    requires At(data, pos, a + b)
    ensures At(data, pos, a) && At(data, pos + |a|, b)
  {
    var whole := data[pos..pos + |a + b|];
    assert forall k :: 0 <= k < |a| ==> data[pos + k] == whole[k] == a[k];
    assert forall k :: 0 <= k < |b| ==> data[pos + |a| + k] == whole[|a| + k] == b[k];
  }

  lemma NothingIsAt(data: Bytes, pos: nat)
    requires pos <= |data|
    ensures At(data, pos, [])
  {
  }

  lemma AtJoins(data: Bytes, pos: nat, a: Bytes, b: Bytes)
    requires At(data, pos, a) && At(data, pos + |a|, b)
    ensures At(data, pos, a + b)
  {
    assert data[pos..pos + |a + b|] == data[pos..pos + |a|] + data[pos + |a|..pos + |a + b|];
  }

  /** What stands before a cut still stands there after it. */
  lemma AtInPrefix(data: Bytes, n: nat, pos: nat, part: Bytes)
    requires At(data, pos, part) && pos + |part| <= n <= |data|
    ensures At(data[..n], pos, part)
  {
  }

  lemma AtSuffix(data: Bytes, pos: nat, part: Bytes)
    requires At(data, pos, part)
    ensures data[pos..] == part + data[pos + |part|..]
  {
  }

  lemma AtIsWithin(data: Bytes, pos: nat, part: Bytes)
    requires At(data, pos, part)
    ensures pos + |part| <= |data|
  {
  }

  /** A suffix of the data holds what lies behind its start. */
  lemma AtInSuffix(data: Bytes, start: nat, pos: nat, part: Bytes)
    requires At(data, pos, part) && start <= pos
    ensures At(data[start..], pos - start, part)
  {
  }

  lemma AtWithin(data: Bytes, pos: nat, part: Bytes, i: nat, j: nat)
    requires At(data, pos, part) && i <= j <= |part|
    ensures At(data, pos + i, part[i..j])
  {
    assert part == part[..i] + (part[i..j] + part[j..]);
    AtSplits(data, pos, part[..i], part[i..j] + part[j..]);
    AtSplits(data, pos + i, part[i..j], part[j..]);
  }

  // ---------------------------------------------------------------------
  // Little-endian integers
  // ---------------------------------------------------------------------

  function Pow256(width: nat): (p: nat)
    ensures p >= 1
  {
    if width == 0 then 1 else 256 * Pow256(width - 1)
  }

  /** The low `width` bytes of n, least significant first. */
  function ToLE(n: nat, width: nat): (r: Bytes)
    ensures |r| == width
  {
    if width == 0 then [] else [n % 256] + ToLE(n / 256, width - 1)
  }

  function FromLE(s: Bytes): (n: nat)
    ensures n < Pow256(|s|)
  {
    if s == [] then 0 else s[0] + 256 * FromLE(s[1..])
  }

  lemma {:induction false} LittleEndianRoundTrip(n: nat, width: nat)
    requires n < Pow256(width)
    ensures FromLE(ToLE(n, width)) == n
  {
    if width != 0 {
      LittleEndianRoundTrip(n / 256, width - 1);
      assert ToLE(n, width)[1..] == ToLE(n / 256, width - 1);
    }
  }

  lemma LowByte(b: byte, n: nat, width: nat)
    ensures ToLE(b + 256 * n, width + 1) == [b] + ToLE(n, width)
  {
    assert (b + 256 * n) % 256 == b && (b + 256 * n) / 256 == n;
  }

  /** Every string of that width is the code of its value. */
  lemma {:induction false} LittleEndianIsOnto(s: Bytes)
    ensures ToLE(FromLE(s), |s|) == s
  {
    hide ToLE;
    if s == [] {
      assert |ToLE(FromLE(s), 0)| == 0;
    } else {
      LittleEndianIsOnto(s[1..]);
      LowByte(s[0], FromLE(s[1..]), |s| - 1);
      assert [s[0]] + s[1..] == s;
    }
  }

  /** n times 256 to the power i. */
  function Raised(n: nat, i: nat): nat {
    if i == 0 then n else 256 * Raised(n, i - 1)
  }

  /** The first bytes are the low ones. */
  lemma {:induction false} LittleEndianParts(a: Bytes, b: Bytes)
    ensures FromLE(a + b) == FromLE(a) + Raised(FromLE(b), |a|)
  {
    if a == [] {
      assert a + b == b;
    } else {
      LittleEndianParts(a[1..], b);
      assert (a + b)[1..] == a[1..] + b;
    }
  }

  /** The code of a u16, byte by byte. */
  lemma TwoBytes(n: u16)
    ensures ToLE(n, 2) == [n % 256, n / 256 % 256]
  {
    assert ToLE(n / 256, 1) == [n / 256 % 256];
  }

  /** The code of a u32, byte by byte. */
  lemma FourBytes(n: u32)
    ensures ToLE(n, 4) == [n % 256, n / 256 % 256, n / 256 / 256 % 256, n / 256 / 256 / 256 % 256]
  {
    assert ToLE(n / 256 / 256 / 256, 1) == [n / 256 / 256 / 256 % 256];
    assert ToLE(n / 256 / 256, 2) == [n / 256 / 256 % 256] + ToLE(n / 256 / 256 / 256, 1);
  }

  lemma Pow256Values()
    ensures Pow256(2) == U16_LIMIT && Pow256(4) == U32_LIMIT && Pow256(8) == U64_LIMIT
  {
    assert Pow256(1) == 256;
    assert Pow256(3) == 256 * Pow256(2);
    assert Pow256(5) == 256 * Pow256(4);
    assert Pow256(6) == 256 * Pow256(5);
    assert Pow256(7) == 256 * Pow256(6);
  }

  /** u16::from_le_bytes, u32::from_le_bytes and u64::from_le_bytes. */
  function U16At(data: Bytes, pos: nat): u16
    requires pos + 2 <= |data|
  {
    Pow256Values();
    FromLE(data[pos..pos + 2])
  }

  function U32At(data: Bytes, pos: nat): u32
    requires pos + 4 <= |data|
  {
    Pow256Values();
    FromLE(data[pos..pos + 4])
  }

  function U64At(data: Bytes, pos: nat): u64
    requires pos + 8 <= |data|
  {
    Pow256Values();
    FromLE(data[pos..pos + 8])
  }

  /** The integers read are coded by the bytes they were read from. */
  lemma U16Stands(data: Bytes, pos: nat)
    requires pos + 2 <= |data|
    ensures At(data, pos, ToLE(U16At(data, pos), 2))
  {
    LittleEndianIsOnto(data[pos..pos + 2]);
  }

  lemma U32Stands(data: Bytes, pos: nat)
    requires pos + 4 <= |data|
    ensures At(data, pos, ToLE(U32At(data, pos), 4))
  {
    LittleEndianIsOnto(data[pos..pos + 4]);
  }

  lemma U64Stands(data: Bytes, pos: nat)
    requires pos + 8 <= |data|
    ensures At(data, pos, ToLE(U64At(data, pos), 8))
  {
    LittleEndianIsOnto(data[pos..pos + 8]);
  }

  lemma U16RoundTrip(n: u16)
    ensures FromLE(ToLE(n, 2)) == n
  {
    Pow256Values();
    LittleEndianRoundTrip(n, 2);
  }

  lemma U32RoundTrip(n: u32)
    ensures FromLE(ToLE(n, 4)) == n
  {
    Pow256Values();
    LittleEndianRoundTrip(n, 4);
  }

  lemma U64RoundTrip(n: u64)
    ensures FromLE(ToLE(n, 8)) == n
  {
    Pow256Values();
    LittleEndianRoundTrip(n, 8);
  }
}
