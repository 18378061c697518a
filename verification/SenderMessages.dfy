/** What every message of a sender says about the frame it carries. */
module SenderMessages {
  import opened Bytes
  import opened TileGrid
  import opened StreamProtocol
  import opened StreamParser
  import opened Broadcast
  import opened StreamRuns
  import opened Dashboard
  import opened WireFormat

  /** A message as the dashboard reads it: the frame's own numbers in their fields. */
  predicate Describes(m: seq<byte>, f: RawFrame, kind: FrameKind, index: byte, cfg: Config) {
    && ParseStreamFrame(m).Ok?
    && var v := ParseStreamFrame(m).value;
       && v.kind == kind && v.instanceIndex == index
       && v.sequence == f.sequence % 0x1_0000_0000 && v.timestampMs == f.timestampMs % 0x1_0000_0000
       && v.width == f.geo.width % 0x1_0000 && v.height == f.geo.height % 0x1_0000
       && v.tileSize == cfg.tileSize && v.rawBytes == 4 * (f.geo.width * f.geo.height)
       && v.metadata == [] && v.isDeflated
  }

  lemma NextDescribes(l: Line, s: Sender, f: RawFrame)
    requires ValidConfig(l.cfg) && CanSend(l.cfg, s, f)
    requires |NextMessage(l.codec, l.cfg, l.index, s, f)| <= l.cfg.backpressureLimit
    ensures Describes(NextMessage(l.codec, l.cfg, l.index, s, f), f, KindOf(KindOfNext(l.cfg, s)), l.index, l.cfg)
  {
    hide NextPayload, Envelope, Header, CanSend, ParseStreamFrame, RawFrameParams, Seen, KindOfNext;
    var payload := NextPayload(l.codec, l.cfg, s, f);
    FitsCounter(l.cfg, s, f);
    ParamsDescribe(f, KindOfNext(l.cfg, s), payload, l.index, l.cfg.tileSize);
    EnvelopeRoundTrip(RawFrameParams(f, KindOfNext(l.cfg, s), payload, l.index, l.cfg.tileSize));
  }

  lemma ParamsDescribe(f: RawFrame, t: FrameType, payload: seq<byte>, index: byte, tileSize: u16)
    requires t != H264 && 4 * (f.geo.width * f.geo.height) < 0x1_0000_0000
    ensures var p := RawFrameParams(f, t, payload, index, tileSize);
            && p.frameType == t && |p.metadata| == 0 && p.payload == payload
            && var v := Seen(p);
               && v.kind == KindOf(t) && v.instanceIndex == index
               && v.sequence == f.sequence % 0x1_0000_0000 && v.timestampMs == f.timestampMs % 0x1_0000_0000
               && v.width == f.geo.width % 0x1_0000 && v.height == f.geo.height % 0x1_0000
               && v.tileSize == tileSize && v.rawBytes == 4 * (f.geo.width * f.geo.height)
               && v.metadata == [] && v.isDeflated
  {
  }

  lemma FitsCounter(cfg: Config, s: Sender, f: RawFrame)
    requires ValidConfig(cfg) && CanSend(cfg, s, f)
    ensures 4 * (f.geo.width * f.geo.height) < 0x1_0000_0000
  {
    hide Addressable, DeltaReadable, KindOfNext;
  }

  /** The extra message of an H.264 instance: type 3, flag 2, the same numbers, the
      encoder's bytes as they are. */
  predicate DescribesH264(m: seq<byte>, a: Arrival, index: byte) {
    var f := a.frame;
    && |m| == 34 + |a.nal|
    && m[0] == 0x50 && m[1] == 0x53 && m[2] == 0x4d && m[3] == 0x47 && m[4] == 2
    && m[5] == 3 && m[6] == index && m[7] == 2
    && Word(m, 8) == f.sequence % 0x1_0000_0000 && Word(m, 12) == f.timestampMs % 0x1_0000_0000
    && Half(m, 16) == f.geo.width % 0x1_0000 && Half(m, 18) == f.geo.height % 0x1_0000
    && Half(m, 20) == 0 && Word(m, 22) == 0 && Word(m, 30) == 0 && m[34..] == a.nal
  }

  lemma ExtraDescribes(a: Arrival, index: byte)
    ensures DescribesH264(H264Message(index, a), a, index)
  {
    var f := a.frame;
    FrameBytes(H264Params(a.nal, index, U32(f.sequence), U32(f.timestampMs), U16(f.geo.width), U16(f.geo.height)),
               FLAG_H264_PAYLOAD);
    hide Envelope, Word, Half;
  }

  /** Exactly what a turn sends: nothing, or one message that describes its frame, and
      behind it the H.264 message of an instance that has one and a limit that admits it. */
  lemma TurnSends(l: Line, arrivals: seq<Arrival>, i: nat)
    requires ValidConfig(l.cfg) && i < |arrivals|
    ensures var r, a := Turn(l, arrivals, i), arrivals[i];
            && (!r.delivered ==> r.messages == [])
            && (r.delivered ==>
                  && 1 <= |r.messages| <= 2
                  && (r.kind == Keyframe || r.kind == Delta)
                  && |r.messages[0]| <= l.cfg.backpressureLimit
                  && Describes(r.messages[0], a.frame, if r.kind == Keyframe then KeyframeKind else DeltaKind,
                               l.index, l.cfg)
                  && (|r.messages| == 2 <==>
                        l.cfg.h264Enabled && a.nal != [] && 34 + |a.nal| <= l.cfg.backpressureLimit)
                  && (|r.messages| == 2 ==> DescribesH264(r.messages[1], a, l.index)))
  {
    hide After;
    TryStepSends(l, After(l, arrivals[..i]), arrivals[i]);
  }

  lemma TryStepSends(l: Line, s: Sender, a: Arrival)
    requires ValidConfig(l.cfg)
    ensures var r := TryStep(l, s, a);
            && (!r.delivered ==> r.messages == [])
            && (r.delivered ==>
                  && 1 <= |r.messages| <= 2
                  && (r.kind == Keyframe || r.kind == Delta)
                  && |r.messages[0]| <= l.cfg.backpressureLimit
                  && Describes(r.messages[0], a.frame, if r.kind == Keyframe then KeyframeKind else DeltaKind,
                               l.index, l.cfg)
                  && (|r.messages| == 2 <==>
                        l.cfg.h264Enabled && a.nal != [] && 34 + |a.nal| <= l.cfg.backpressureLimit)
                  && (|r.messages| == 2 ==> DescribesH264(r.messages[1], a, l.index)))
  {
    hide Describes, NextMessage, CanSend;
    ExtraDescribes(a, l.index);
    if TryStep(l, s, a).delivered {
      NextDescribes(l, s, a.frame);
      hide H264Message, DescribesH264;
    }
  }

  /** The same for the dashboard, which sends no H.264. */
  lemma HubTurnSends(l: Line, idx: Indices, arrivals: seq<HubArrival>, i: nat)
    requires ValidConfig(l.cfg) && i < |arrivals|
    ensures var r, a := HubTurnAt(l, idx, arrivals, i), arrivals[i];
            && (!r.delivered ==> r.messages == [])
            && (r.delivered ==>
                  && a.id in idx && |r.messages| == 1
                  && (r.kind == Keyframe || r.kind == Delta)
                  && |r.messages[0]| <= l.cfg.backpressureLimit
                  && Describes(r.messages[0], a.frame, if r.kind == Keyframe then KeyframeKind else DeltaKind,
                               idx[a.id], l.cfg))
  {
    hide HubAfter, TryHubStep, TryStep, Describes;
    var h, a := HubAfter(l, idx, arrivals[..i]), arrivals[i];
    if a.id in idx {
      HubRefinesSenders(l, h, a.id, idx[a.id], a.frame);
      TryStepSends(LineOf(l, idx[a.id]), Project(h, a.id), ArrivalOf(a.frame));
      SameDescription(HubTurn(l, idx, h, a), a, l, idx[a.id]);
    }
  }

  lemma SameDescription(r: HubSent, a: HubArrival, l: Line, index: byte)
    ensures forall m, k ::
              Describes(m, a.frame, k, index, LineOf(l, index).cfg) == Describes(m, a.frame, k, index, l.cfg)
  {
  }

  /** On the dashboard an arrival of a listed instance is a turn of its own private sender. */
  lemma HubTurnIsOwnTurn(l: Line, idx: Indices, h: Hub, a: HubArrival)
    requires ValidConfig(l.cfg) && a.id in idx
    ensures var r, own := HubTurn(l, idx, h, a), TryStep(LineOf(l, idx[a.id]), Project(h, a.id), ArrivalOf(a.frame));
            && Project(r.next, a.id) == own.next && r.kind == own.kind
            && r.delivered == own.delivered && r.messages == own.messages
  {
    hide TryHubStep, TryStep;
    HubRefinesSenders(l, h, a.id, idx[a.id], a.frame);
  }

  /** A frame that can be encoded is delivered exactly when its message fits the limit;
      one that cannot ends the sender. */
  lemma SentOrEnded(l: Line, s: Sender, a: Arrival)
    requires ValidConfig(l.cfg) && !s.ended
    ensures var r := TryStep(l, s, a);
            && (r.next.ended <==> !CanSend(l.cfg, s, a.frame))
            && (CanSend(l.cfg, s, a.frame) ==>
                  (r.delivered <==> |NextMessage(l.codec, l.cfg, l.index, s, a.frame)| <= l.cfg.backpressureLimit))
  {
    hide NextMessage, CanSend;
  }

  /** Exactly when the first frame of a stream can be encoded, in numbers. */
  lemma FirstFrameEncodableIff(cfg: Config, f: RawFrame)
    requires ValidConfig(cfg)
    ensures var w, h, pitch := f.geo.width, f.geo.height, f.geo.pitch;
            CanSend(cfg, FRESH_SENDER, f) <==>
            && 4 * (w * h) < 0x1_0000_0000
            && (w > 0 && h > 0 ==>
                  && (h - 1) * pitch + 4 * w <= 0x1_0000_0000
                  && (h - 1) * pitch + 4 * w <= |f.data| + 1)
  {
  }

  /** Which configurations the senders are proved for, the default one among them. */
  lemma ValidConfigIff(cfg: Config)
    ensures ValidConfig(cfg) <==>
            cfg.keyframeInterval >= 1 && cfg.tileSize >= 1 && cfg.backpressureLimit <= 0xffff_ffff
    ensures ValidConfig(Config(60, 262144, 16, false))
  {
  }
}
