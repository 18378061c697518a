/** The wire format in plain numbers: which byte of a message means what. */
module WireFormat {
  import opened Bytes
  import opened StreamProtocol
  import opened StreamParser

  /** The big-endian numbers at `i`. */
  function Half(s: seq<byte>, i: nat): nat
    requires i + 2 <= |s|
  {
    var a: int, b: int := s[i], s[i + 1];
    a * 256 + b
  }

  function Word(s: seq<byte>, i: nat): nat
    requires i + 4 <= |s|
  {
    var a: int, b: int, c: int, d: int := s[i], s[i + 1], s[i + 2], s[i + 3];
    ((a * 256 + b) * 256 + c) * 256 + d
  }

  lemma GetBe16IsHalf(s: seq<byte>, i: nat)
    requires i + 2 <= |s|
    ensures GetBe16(s, i) == Half(s, i)
  {
  }

  lemma GetBe32IsWord(s: seq<byte>, i: nat)
    requires i + 4 <= |s|
    ensures GetBe32(s, i) == Word(s, i)
  {
  }

  lemma Numbers(s: seq<byte>)
    requires |s| >= 34
    ensures GetBe32(s, 8) == Word(s, 8) && GetBe32(s, 12) == Word(s, 12) && GetBe32(s, 22) == Word(s, 22)
    ensures GetBe32(s, 26) == Word(s, 26) && GetBe32(s, 30) == Word(s, 30)
    ensures GetBe16(s, 16) == Half(s, 16) && GetBe16(s, 18) == Half(s, 18) && GetBe16(s, 20) == Half(s, 20)
  {
    GetBe32IsWord(s, 8);
    GetBe32IsWord(s, 12);
    GetBe32IsWord(s, 22);
    GetBe32IsWord(s, 26);
    GetBe32IsWord(s, 30);
    GetBe16IsHalf(s, 16);
    GetBe16IsHalf(s, 18);
    GetBe16IsHalf(s, 20);
  }

  /** Exactly which messages the dashboard accepts. */
  lemma AcceptedIff(s: seq<byte>)
    ensures ParseStreamFrame(s).Ok? <==>
            && |s| >= 34
            && s[0] == 0x50 && s[1] == 0x53 && s[2] == 0x4d && s[3] == 0x47 && s[4] == 2
            && (s[5] == 1 || s[5] == 2)
            && |s| == 34 + Word(s, 30) + Word(s, 26)
  {
    if |s| >= 34 {
      MagicWord(s);
      MagicBytes(s);
      Numbers(s);
      hide GetBe32, Word, GetBe16, Half;
    }
  }

  lemma MagicBytes(s: seq<byte>)
    requires |s| >= 4
    ensures s[0..4] == MAGIC <==> s[0] == 0x50 && s[1] == 0x53 && s[2] == 0x4d && s[3] == 0x47
  {
    var m := s[0..4];
    assert m[0] == s[0] && m[1] == s[1] && m[2] == s[2] && m[3] == s[3];
  }

  /** Where the dashboard finds each field of a message it accepts. */
  lemma FieldsRead(s: seq<byte>)
    requires ParseStreamFrame(s).Ok?
    ensures |s| == 34 + Word(s, 30) + Word(s, 26)
    ensures var f := ParseStreamFrame(s).value;
            && (f.kind == KeyframeKind <==> s[5] == 1) && (f.kind == DeltaKind <==> s[5] == 2)
            && f.instanceIndex == s[6] && (f.isDeflated <==> s[7] % 2 == 1)
            && f.sequence == Word(s, 8) && f.timestampMs == Word(s, 12)
            && f.width == Half(s, 16) && f.height == Half(s, 18) && f.tileSize == Half(s, 20)
            && f.rawBytes == Word(s, 22)
            && f.metadata == s[34..34 + Word(s, 30)] && f.payload == s[34 + Word(s, 30)..]
  {
    AcceptedIff(s);
    Numbers(s);
    hide GetBe32, Word, GetBe16, Half;
    assert s[34 + Word(s, 30)..|s|] == s[34 + Word(s, 30)..];
  }

  /** The bytes of an encoded frame. */
  lemma FrameBytes(p: EncodeParams, flags: byte)
    ensures var s := Envelope(p, flags);
            && |s| == 34 + |p.metadata| + |p.payload|
            && s[0] == 0x50 && s[1] == 0x53 && s[2] == 0x4d && s[3] == 0x47 && s[4] == 2
            && s[5] == (if p.frameType == Keyframe then 1 else if p.frameType == Delta then 2 else 3)
            && s[6] == p.instanceIndex && s[7] == flags
            && Word(s, 8) == p.sequence && Word(s, 12) == p.timestampMs
            && Half(s, 16) == p.width && Half(s, 18) == p.height && Half(s, 20) == p.tileSize
            && Word(s, 22) == p.rawBytes
            && Word(s, 26) == |p.payload| % 0x1_0000_0000 && Word(s, 30) == |p.metadata| % 0x1_0000_0000
            && s[34..34 + |p.metadata|] == p.metadata && s[34 + |p.metadata|..] == p.payload
  {
    EnvelopeWhole(p, flags);
    var s := Envelope(p, flags);
    MagicBytes(s);
    Numbers(s);
    hide GetBe32, Word, GetBe16, Half, Envelope, Header;
  }

  /** Raw DEFLATE may be replaced by any codec that gives back what it was given, such
      as one that stores the bytes. */
  lemma StoredIsInvertible()
    ensures Invertible(Codec(s => s, s => Some(s)))
  {
  }

  /** Why the dashboard rejects a message: the first of these that applies. */
  lemma RejectedFor(s: seq<byte>)
    ensures |s| < 34 ==> ParseStreamFrame(s) == Err(ShorterThanHeader) && DecodeStreamFrame(s) == Err(TooShort)
    ensures |s| >= 34 && Word(s, 0) != 0x50534d47 ==>
              ParseStreamFrame(s) == Err(BadMagic) && DecodeStreamFrame(s) == Err(InvalidMagic)
    ensures |s| >= 34 && Word(s, 0) == 0x50534d47 && s[4] != 2 ==>
              ParseStreamFrame(s) == Err(BadFormat) && DecodeStreamFrame(s) == Err(InvalidFormat)
    ensures |s| >= 34 && Word(s, 0) == 0x50534d47 && s[4] == 2 && s[5] != 1 && s[5] != 2 ==>
              ParseStreamFrame(s) == Err(BadFrameType)
    ensures |s| >= 34 && Word(s, 0) == 0x50534d47 && s[4] == 2 && |s| != 34 + Word(s, 30) + Word(s, 26) ==>
              DecodeStreamFrame(s) == Err(LengthMismatch)
              && (s[5] == 1 || s[5] == 2 ==> ParseStreamFrame(s) == Err(LengthDiffers))
  {
    if |s| >= 34 {
      MagicWord(s);
      GetBe32IsWord(s, 0);
      Numbers(s);
      hide GetBe32, Word, GetBe16, Half;
    }
  }
}
