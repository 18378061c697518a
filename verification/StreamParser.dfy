/** The dashboard's envelope parser, dashboard/src/stream.ts, and its agreement
    with the gateway's encoder. */
module StreamParser {
  import opened Bytes
  import opened StreamProtocol

  const MAGIC_WORD: u32 := 0x50534d47

  datatype FrameKind = KeyframeKind | DeltaKind

  datatype StreamFrame = StreamFrame(
    kind: FrameKind, instanceIndex: byte, sequence: u32, timestampMs: u32,
    width: u16, height: u16, tileSize: u16, rawBytes: u32,
    payload: seq<byte>, metadata: seq<byte>, isDeflated: bool)

  datatype ParseError = ShorterThanHeader | BadMagic | BadFormat | BadFrameType | LengthDiffers

  function ParseFrameKind(value: byte): Option<FrameKind> {
    if value == 1 then Some(KeyframeKind)
    else if value == 2 then Some(DeltaKind)
    else None
  }

  predicate HasFlag(flags: byte, flag: byte)
    requires flag > 0
  {
    var f: int, v: int := flag, flags;
    v % (f * 2) >= f
  }

  function ParseStreamFrame(buffer: seq<byte>): Result<StreamFrame, ParseError> {
    if |buffer| < HEADER_SIZE then Err(ShorterThanHeader)
    else if GetBe32(buffer, 0) != MAGIC_WORD then Err(BadMagic)
    else if buffer[4] != STREAM_FORMAT then Err(BadFormat)
    else if ParseFrameKind(buffer[5]) == None then Err(BadFrameType)
    else
      var metadataBytes := GetBe32(buffer, 30);
      var payloadBytes := GetBe32(buffer, 26);
      var payloadOffset := HEADER_SIZE + metadataBytes;
      if |buffer| != payloadOffset + payloadBytes then Err(LengthDiffers)
      else
        Ok(StreamFrame(
             ParseFrameKind(buffer[5]).value, buffer[6], GetBe32(buffer, 8), GetBe32(buffer, 12),
             GetBe16(buffer, 16), GetBe16(buffer, 18), GetBe16(buffer, 20), GetBe32(buffer, 22),
             buffer[payloadOffset..payloadOffset + payloadBytes], buffer[HEADER_SIZE..payloadOffset],
             HasFlag(buffer[7], FLAG_DEFLATE_RAW)))
  }

  function KindOf(t: FrameType): FrameKind
    requires t != H264
  {
    if t == Keyframe then KeyframeKind else DeltaKind
  }

  /** What the viewer should see of an encoded frame. */
  function Seen(p: EncodeParams): StreamFrame
    requires p.frameType != H264
  {
    StreamFrame(KindOf(p.frameType), p.instanceIndex, p.sequence, p.timestampMs,
                p.width, p.height, p.tileSize, p.rawBytes, p.payload, p.metadata, true)
  }

  /** Both lengths fit their 32-bit header fields. */
  predicate LengthsFit(p: EncodeParams) {
    |p.payload| < TWO_32 && |p.metadata| < TWO_32
  }

  lemma EnvelopeWhole(p: EncodeParams, flags: byte)
    ensures var s := Envelope(p, flags);
            && HasHeader(s, p, flags)
            && s[HEADER_SIZE..HEADER_SIZE + |p.metadata|] == p.metadata
            && s[HEADER_SIZE + |p.metadata|..] == p.payload
  {
    HeaderFields(p, flags, p.metadata + p.payload);
    assert Envelope(p, flags) == Header(p, flags) + (p.metadata + p.payload);
  }

  lemma EnvelopeCut(p: EncodeParams, flags: byte, cut: nat)
    requires HEADER_SIZE <= cut <= |Envelope(p, flags)|
    ensures HasHeader(Envelope(p, flags)[..cut], p, flags)
  {
    var body := p.metadata + p.payload;
    HeaderFields(p, flags, body[..cut - HEADER_SIZE]);
    assert Envelope(p, flags)[..cut] == Header(p, flags) + body[..cut - HEADER_SIZE];
  }

  lemma EnvelopeExtended(p: EncodeParams, flags: byte, extra: seq<byte>)
    ensures HasHeader(Envelope(p, flags) + extra, p, flags)
  {
    var body := p.metadata + p.payload;
    HeaderFields(p, flags, body + extra);
    assert Envelope(p, flags) + extra == Header(p, flags) + (body + extra);
  }

  /** What both decoders make of bytes that start with the header of `p`. */
  lemma ParseHeadered(s: seq<byte>, p: EncodeParams)
    requires HasHeader(s, p, FLAG_DEFLATE_RAW) && p.frameType != H264
    ensures |s| != HEADER_SIZE + U32(|p.metadata|) + U32(|p.payload|) ==>
              ParseStreamFrame(s) == Err(LengthDiffers) && DecodeStreamFrame(s) == Err(LengthMismatch)
    ensures CarriesBody(s, p) ==>
              ParseStreamFrame(s) == Ok(Seen(p)) && DecodeStreamFrame(s) == Ok(Decoded(p.metadata, p.payload))
  {
    hide HasHeader, ParseStreamFrame, DecodeStreamFrame, Seen;
    GatewayParses(s, p);
    if |s| != HEADER_SIZE + U32(|p.metadata|) + U32(|p.payload|) {
      ViewerRejects(s, p);
    }
    if CarriesBody(s, p) {
      ViewerParses(s, p);
    }
  }

  lemma ViewerReads(s: seq<byte>, p: EncodeParams)
    requires HasHeader(s, p, FLAG_DEFLATE_RAW) && p.frameType != H264
    ensures |s| >= HEADER_SIZE && GetBe32(s, 0) == MAGIC_WORD && s[4] == STREAM_FORMAT
    ensures ParseFrameKind(s[5]) == Some(KindOf(p.frameType)) && HasFlag(s[7], FLAG_DEFLATE_RAW)
  {
    MagicWord(s);
    hide GetBe16, GetBe32;
    assert p.frameType == Keyframe || p.frameType == Delta;
    assert HasFlag(FLAG_DEFLATE_RAW, FLAG_DEFLATE_RAW);
  }

  /** The bytes behind the header are exactly the metadata and the payload. */
  predicate CarriesBody(s: seq<byte>, p: EncodeParams) {
    && |s| == HEADER_SIZE + |p.metadata| + |p.payload| && LengthsFit(p)
    && s[HEADER_SIZE..HEADER_SIZE + |p.metadata|] == p.metadata
    && s[HEADER_SIZE + |p.metadata|..] == p.payload
  }

  lemma ViewerRejects(s: seq<byte>, p: EncodeParams)
    requires HasHeader(s, p, FLAG_DEFLATE_RAW) && p.frameType != H264
    requires |s| != HEADER_SIZE + U32(|p.metadata|) + U32(|p.payload|)
    ensures ParseStreamFrame(s) == Err(LengthDiffers)
  {
    ViewerReads(s, p);
    hide GetBe16, GetBe32, HasFlag, ParseFrameKind, U32;
  }

  lemma ViewerParses(s: seq<byte>, p: EncodeParams)
    requires HasHeader(s, p, FLAG_DEFLATE_RAW) && p.frameType != H264 && CarriesBody(s, p)
    ensures ParseStreamFrame(s) == Ok(Seen(p))
  {
    ViewerReads(s, p);
    hide GetBe16, GetBe32, HasFlag, ParseFrameKind;
    assert U32(|p.metadata|) == |p.metadata| && U32(|p.payload|) == |p.payload|;
    hide U32;
    assert s[HEADER_SIZE + |p.metadata|..|s|] == s[HEADER_SIZE + |p.metadata|..];
  }

  lemma GatewayParses(s: seq<byte>, p: EncodeParams)
    requires HasHeader(s, p, FLAG_DEFLATE_RAW)
    ensures |s| != HEADER_SIZE + U32(|p.metadata|) + U32(|p.payload|) ==> DecodeStreamFrame(s) == Err(LengthMismatch)
    ensures CarriesBody(s, p) ==> DecodeStreamFrame(s) == Ok(Decoded(p.metadata, p.payload))
  {
    hide GetBe16, GetBe32;
  }

  lemma MagicWord(s: seq<byte>)
    requires |s| >= 4
    ensures GetBe32(s, 0) == MAGIC_WORD <==> s[0..4] == MAGIC
  {
    assert Be32(MAGIC_WORD) == MAGIC;
    if s[0..4] == MAGIC {
      Be32At(s, 0, MAGIC_WORD);
    } else if GetBe32(s, 0) == MAGIC_WORD {
      BytesOfWord(s);
    }
  }

  lemma BytesOfWord(s: seq<byte>)
    requires |s| >= 4
    ensures s[0..4] == Be32(GetBe32(s, 0))
  {
    HalfWord(s, 0);
    HalfWord(s, 2);
    Halves(GetBe16(s, 0), GetBe16(s, 2));
    hide GetBe16, Be16;
    assert s[0..4] == s[0..2] + s[2..4];
  }

  lemma HalfWord(s: seq<byte>, at: nat)
    requires at + 2 <= |s|
    ensures s[at..at + 2] == Be16(GetBe16(s, at))
  {
  }

  lemma Halves(hi: u16, lo: u16)
    ensures var h: int, l: int := hi, lo;
            (h * 0x1_0000 + l) / 0x1_0000 == h && (h * 0x1_0000 + l) % 0x1_0000 == l
  {
  }

  lemma TruncatedLengths(m: nat, n: nat)
    ensures U32(m) + U32(n) == m + n <==> m < TWO_32 && n < TWO_32
  {
  }

  /** The viewer recovers every field, the metadata and the payload of an
      encoded keyframe or delta exactly when both lengths fit 32 bits;
      a truncated length makes it reject the frame. */
  lemma EnvelopeRoundTrip(p: EncodeParams)
    requires p.frameType != H264
    ensures LengthsFit(p) ==> ParseStreamFrame(Envelope(p, FLAG_DEFLATE_RAW)) == Ok(Seen(p))
    ensures !LengthsFit(p) ==> ParseStreamFrame(Envelope(p, FLAG_DEFLATE_RAW)) == Err(LengthDiffers)
  {
    EnvelopeWhole(p, FLAG_DEFLATE_RAW);
    TruncatedLengths(|p.payload|, |p.metadata|);
    ParseHeadered(Envelope(p, FLAG_DEFLATE_RAW), p);
  }

  /** The gateway's decoder accepts the same frames and returns the same payload. */
  lemma DecodersAgree(p: EncodeParams)
    requires p.frameType != H264
    ensures LengthsFit(p) ==>
              DecodeStreamFrame(Envelope(p, FLAG_DEFLATE_RAW)) == Ok(Decoded(p.metadata, p.payload))
    ensures !LengthsFit(p) ==> DecodeStreamFrame(Envelope(p, FLAG_DEFLATE_RAW)) == Err(LengthMismatch)
  {
    EnvelopeWhole(p, FLAG_DEFLATE_RAW);
    TruncatedLengths(|p.payload|, |p.metadata|);
    ParseHeadered(Envelope(p, FLAG_DEFLATE_RAW), p);
  }

  /** On arbitrary bytes the viewer accepts no frame the gateway's decoder rejects,
      and it rejects one the decoder accepts only for its type byte. */
  lemma ParsersRelate(s: seq<byte>)
    ensures ParseStreamFrame(s).Ok? <==>
            (DecodeStreamFrame(s).Ok? && ParseFrameKind(s[5]).Some?)
    ensures ParseStreamFrame(s).Ok? ==>
              DecodeStreamFrame(s).value ==
              Decoded(ParseStreamFrame(s).value.metadata, ParseStreamFrame(s).value.payload)
  {
    if |s| >= HEADER_SIZE {
      MagicWord(s);
    }
  }

  /** Both decoders reject every proper prefix of a frame... */
  lemma PrefixRejected(p: EncodeParams, cut: nat)
    requires p.frameType != H264 && LengthsFit(p) && cut < |Envelope(p, FLAG_DEFLATE_RAW)|
    ensures ParseStreamFrame(Envelope(p, FLAG_DEFLATE_RAW)[..cut]).Err?
    ensures DecodeStreamFrame(Envelope(p, FLAG_DEFLATE_RAW)[..cut]).Err?
  {
    if cut >= HEADER_SIZE {
      EnvelopeCut(p, FLAG_DEFLATE_RAW, cut);
    }
    TooShortRejected(p, Envelope(p, FLAG_DEFLATE_RAW)[..cut]);
  }

  lemma TooShortRejected(p: EncodeParams, s: seq<byte>)
    requires p.frameType != H264 && LengthsFit(p) && |s| < HEADER_SIZE + |p.metadata| + |p.payload|
    requires |s| >= HEADER_SIZE ==> HasHeader(s, p, FLAG_DEFLATE_RAW)
    ensures ParseStreamFrame(s).Err? && DecodeStreamFrame(s).Err?
  {
    if |s| >= HEADER_SIZE {
      ParseHeadered(s, p);
    }
  }

  /** ...and every proper extension. */
  lemma ExtensionRejected(p: EncodeParams, extra: seq<byte>)
    requires p.frameType != H264 && LengthsFit(p) && extra != []
    ensures ParseStreamFrame(Envelope(p, FLAG_DEFLATE_RAW) + extra) == Err(LengthDiffers)
    ensures DecodeStreamFrame(Envelope(p, FLAG_DEFLATE_RAW) + extra) == Err(LengthMismatch)
  {
    hide Header, ParseStreamFrame, DecodeStreamFrame, HasHeader;
    EnvelopeExtended(p, FLAG_DEFLATE_RAW, extra);
    ParseHeadered(Envelope(p, FLAG_DEFLATE_RAW) + extra, p);
  }

  /** Two frames with the same bytes are the same frame. */
  lemma EnvelopeInjective(p: EncodeParams, q: EncodeParams)
    requires p.frameType != H264 && q.frameType != H264 && LengthsFit(p) && LengthsFit(q)
    requires Envelope(p, FLAG_DEFLATE_RAW) == Envelope(q, FLAG_DEFLATE_RAW)
    ensures p == q
  {
    EnvelopeRoundTrip(p);
    EnvelopeRoundTrip(q);
    assert Seen(p) == Seen(q);
  }

  /** The viewer rejects an H.264 frame whatever it carries. */
  lemma H264Rejected(p: EncodeParams)
    requires p.frameType == H264
    ensures ParseStreamFrame(Envelope(p, FLAG_H264_PAYLOAD)) == Err(BadFrameType)
  {
    EnvelopeWhole(p, FLAG_H264_PAYLOAD);
    MagicWord(Envelope(p, FLAG_H264_PAYLOAD));
  }
}
