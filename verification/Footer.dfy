/** The 64-byte footer that ends every segment. */
module Footers {
  import opened ByteStrings
  import opened Results
  import opened BlockFormat

  const MAGIC: Bytes := [0x53, 0x33, 0x49, 0x58]
  const FORMAT_VERSION: u16 := 1
  const FOOTER_SIZE: nat := 64

  datatype Footer = Footer(
    formatVersion: u16,
    dataBlocksOffset: u64,
    dataBlocksLength: u64,
    bloomOffset: u64,
    bloomLength: u64,
    fstOffset: u64,
    fstLength: u64,
    keyCount: u32,
    checksum: u32)

  datatype FormatError =
    | InvalidMagic
    | UnsupportedVersion(version: u16)
    | FooterChecksumMismatch(stored: u32, computed: u32)
    | TooSmall(size: nat)

  /** The 60 bytes the footer checksum covers. */
  function Head(f: Footer): (b: Bytes)
    ensures |b| == 60
  {
    MAGIC + ToLE(f.formatVersion, 2) + [0, 0] + ToLE(f.dataBlocksOffset, 8) + ToLE(f.dataBlocksLength, 8)
      + ToLE(f.bloomOffset, 8) + ToLE(f.bloomLength, 8) + ToLE(f.fstOffset, 8) + ToLE(f.fstLength, 8)
      + ToLE(f.keyCount, 4)
  }

  function Encoded(crc: Checksum, f: Footer): (b: Bytes)
    ensures |b| == FOOTER_SIZE
  {
    Head(f) + ToLE(crc(Head(f)), 4)
  }

  /** Footer::from_bytes: magic, then version, then checksum. */
  function Decoded(crc: Checksum, buf: Bytes): Result<Footer, FormatError>
    requires |buf| == FOOTER_SIZE
  {
    if buf[0..4] != MAGIC then Err(InvalidMagic)
    else if U16At(buf, 4) != FORMAT_VERSION then Err(UnsupportedVersion(U16At(buf, 4)))
    else if U32At(buf, 60) != crc(buf[0..60]) then Err(FooterChecksumMismatch(U32At(buf, 60), crc(buf[0..60])))
    else Ok(Footer(
              U16At(buf, 4), U64At(buf, 8), U64At(buf, 16), U64At(buf, 24), U64At(buf, 32), U64At(buf, 40),
              U64At(buf, 48), U32At(buf, 56), U32At(buf, 60)))
  }

  /** copy_from_slice into buf[at..]. */
  method Put(buf: array<byte>, at: nat, src: Bytes)
    requires at + |src| <= buf.Length
    modifies buf
    ensures buf[..at + |src|] == old(buf[..at]) + src
    ensures forall i :: at + |src| <= i < buf.Length ==> buf[i] == old(buf[i])
  {
    forall i | 0 <= i < |src| {
      buf[at + i] := src[i];
    }
  }

  /** Fills the 60 bytes the checksum covers; the two reserved bytes stay zero. */
  method PutHead(buf: array<byte>, f: Footer)
    requires buf.Length == FOOTER_SIZE && buf[6] == buf[7] == 0
    modifies buf
    ensures buf[..60] == Head(f)
  {
    hide ToLE;
    Put(buf, 0, MAGIC);
    Put(buf, 4, ToLE(f.formatVersion, 2));
    assert buf[..8] == buf[..6] + [0, 0];
    Put(buf, 8, ToLE(f.dataBlocksOffset, 8));
    Put(buf, 16, ToLE(f.dataBlocksLength, 8));
    Put(buf, 24, ToLE(f.bloomOffset, 8));
    Put(buf, 32, ToLE(f.bloomLength, 8));
    Put(buf, 40, ToLE(f.fstOffset, 8));
    Put(buf, 48, ToLE(f.fstLength, 8));
    Put(buf, 56, ToLE(f.keyCount, 4));
  }

  /** Footer::to_bytes: a zeroed buffer filled field by field. */
  method ToBytes(crc: Checksum, f: Footer) returns (buf: array<byte>)
    ensures fresh(buf) && buf[..] == Encoded(crc, f)
  {
    hide ToLE, Head;
    buf := new byte[FOOTER_SIZE](_ => 0);
    PutHead(buf, f);
    assert buf[0..60] == buf[..60];
    Put(buf, 60, ToLE(crc(buf[0..60]), 4));
    assert buf[..] == buf[..64];
  }

  /** Where each field of an encoded footer lies. */
  lemma FieldsAt(crc: Checksum, f: Footer, buf: Bytes)
    requires buf == Encoded(crc, f)
    ensures At(buf, 0, MAGIC) && At(buf, 4, ToLE(f.formatVersion, 2))
    ensures At(buf, 8, ToLE(f.dataBlocksOffset, 8)) && At(buf, 16, ToLE(f.dataBlocksLength, 8))
    ensures At(buf, 24, ToLE(f.bloomOffset, 8)) && At(buf, 32, ToLE(f.bloomLength, 8))
    ensures At(buf, 40, ToLE(f.fstOffset, 8)) && At(buf, 48, ToLE(f.fstLength, 8))
    ensures At(buf, 56, ToLE(f.keyCount, 4)) && At(buf, 0, Head(f)) && At(buf, 60, ToLE(crc(Head(f)), 4))
  {
    hide ToLE, At;
    var a := MAGIC + ToLE(f.formatVersion, 2);
    var b := a + [0, 0];
    var c := b + ToLE(f.dataBlocksOffset, 8);
    var d := c + ToLE(f.dataBlocksLength, 8);
    var e := d + ToLE(f.bloomOffset, 8);
    var g := e + ToLE(f.bloomLength, 8);
    var h := g + ToLE(f.fstOffset, 8);
    var i := h + ToLE(f.fstLength, 8);
    WholeIsAt(buf);
    AtSplits(buf, 0, Head(f), ToLE(crc(Head(f)), 4));
    AtSplits(buf, 0, i, ToLE(f.keyCount, 4));
    AtSplits(buf, 0, h, ToLE(f.fstLength, 8));
    AtSplits(buf, 0, g, ToLE(f.fstOffset, 8));
    AtSplits(buf, 0, e, ToLE(f.bloomLength, 8));
    AtSplits(buf, 0, d, ToLE(f.bloomOffset, 8));
    AtSplits(buf, 0, c, ToLE(f.dataBlocksLength, 8));
    AtSplits(buf, 0, b, ToLE(f.dataBlocksOffset, 8));
    AtSplits(buf, 0, a, [0, 0]);
    AtSplits(buf, 0, MAGIC, ToLE(f.formatVersion, 2));
  }

  /** Which 64 bytes decode: the magic "S3IX", version 1 and a correct checksum. The
      first that is wrong, in that order, names the error. */
  lemma DecodesIff(crc: Checksum, buf: Bytes)
    requires |buf| == 64
    ensures Decoded(crc, buf).Ok? <==>
            buf[..4] == [0x53, 0x33, 0x49, 0x58] && U16At(buf, 4) == 1 && U32At(buf, 60) == crc(buf[..60])
    ensures Decoded(crc, buf) == Err(InvalidMagic) <==> buf[..4] != [0x53, 0x33, 0x49, 0x58]
    ensures Decoded(crc, buf).Err? && Decoded(crc, buf).error.FooterChecksumMismatch? ==>
              U16At(buf, 4) == 1 &&
              Decoded(crc, buf).error == FooterChecksumMismatch(U32At(buf, 60), crc(buf[..60]))
  {
    hide FromLE;
    assert buf[0..4] == buf[..4] && buf[0..60] == buf[..60];
  }

  /** Decoding loses nothing: bytes with zeros in the reserved place decode to a footer
      exactly when they are its encoding and it carries their checksum. */
  lemma DecodedIff(crc: Checksum, buf: Bytes, f: Footer)
    requires |buf| == FOOTER_SIZE
    ensures Decoded(crc, buf) == Ok(f) && buf[6..8] == [0, 0] <==>
            f.formatVersion == FORMAT_VERSION && f.checksum == crc(Head(f)) && buf == Encoded(crc, f)
  {
    hide ToLE, FromLE;
    if Decoded(crc, buf) == Ok(f) && buf[6..8] == [0, 0] {
      HeadStands(crc, buf, f);
      U32Stands(buf, 60);
      assert buf == buf[0..60] + buf[60..64];
    }
    if f.formatVersion == FORMAT_VERSION && f.checksum == crc(Head(f)) && buf == Encoded(crc, f) {
      RoundTrip(crc, f);
      FieldsAt(crc, f, buf);
      assert buf[6..8] == [0, 0] by { ReservedAreZero(crc, f); }
    }
  }

  lemma ReservedAreZero(crc: Checksum, f: Footer)
    ensures Encoded(crc, f)[6..8] == [0, 0]
  {
    hide ToLE;
    assert Encoded(crc, f)[6] == 0 && Encoded(crc, f)[7] == 0;
  }

  lemma HeadStands(crc: Checksum, buf: Bytes, f: Footer)
    requires |buf| == FOOTER_SIZE && Decoded(crc, buf) == Ok(f) && buf[6..8] == [0, 0]
    ensures At(buf, 0, Head(f))
  {
    hide ToLE, FromLE, At;
    var a := MAGIC + ToLE(f.formatVersion, 2);
    var b := a + [0, 0];
    var c := b + ToLE(f.dataBlocksOffset, 8);
    var d := c + ToLE(f.dataBlocksLength, 8);
    var e := d + ToLE(f.bloomOffset, 8);
    var g := e + ToLE(f.bloomLength, 8);
    var h := g + ToLE(f.fstOffset, 8);
    var i := h + ToLE(f.fstLength, 8);
    SliceIsAt(buf, 0, 4);
    SliceIsAt(buf, 6, 8);
    U16Stands(buf, 4);
    U64Stands(buf, 8);
    U64Stands(buf, 16);
    U64Stands(buf, 24);
    U64Stands(buf, 32);
    U64Stands(buf, 40);
    U64Stands(buf, 48);
    U32Stands(buf, 56);
    AtJoins(buf, 0, MAGIC, ToLE(f.formatVersion, 2));
    AtJoins(buf, 0, a, [0, 0]);
    AtJoins(buf, 0, b, ToLE(f.dataBlocksOffset, 8));
    AtJoins(buf, 0, c, ToLE(f.dataBlocksLength, 8));
    AtJoins(buf, 0, d, ToLE(f.bloomOffset, 8));
    AtJoins(buf, 0, e, ToLE(f.bloomLength, 8));
    AtJoins(buf, 0, g, ToLE(f.fstOffset, 8));
    AtJoins(buf, 0, h, ToLE(f.fstLength, 8));
    AtJoins(buf, 0, i, ToLE(f.keyCount, 4));
  }

  /** A footer of the current version reads back with its computed checksum; any
      other version is refused by name. */
  lemma RoundTrip(crc: Checksum, f: Footer)
    ensures Decoded(crc, Encoded(crc, f)) ==
            if f.formatVersion == FORMAT_VERSION then Ok(f.(checksum := crc(Head(f))))
            else Err(UnsupportedVersion(f.formatVersion))
  {
    hide ToLE, FromLE, Head, Encoded;
    var buf := Encoded(crc, f);
    FieldsAt(crc, f, buf);
    U16RoundTrip(f.formatVersion);
    U64RoundTrip(f.dataBlocksOffset);
    U64RoundTrip(f.dataBlocksLength);
    U64RoundTrip(f.bloomOffset);
    U64RoundTrip(f.bloomLength);
    U64RoundTrip(f.fstOffset);
    U64RoundTrip(f.fstLength);
    U32RoundTrip(f.keyCount);
    U32RoundTrip(crc(Head(f)));
  }
}
