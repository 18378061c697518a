/** The per-viewer sender of crates/streaming/src/broadcast.rs. */
module Broadcast {
  import opened Bytes
  import opened Images
  import opened TileGrid
  import opened StreamProtocol

  datatype Config = Config(keyframeInterval: u32, backpressureLimit: nat, tileSize: u16, h264Enabled: bool)

  /** What the configuration loader guarantees and the sender relies on:
      no division by zero, and messages shorter than 4 GiB. */
  predicate ValidConfig(cfg: Config) {
    cfg.keyframeInterval > 0 && cfg.tileSize > 0 && cfg.backpressureLimit < TWO_32
  }

  /** The products the encoder computes in 32 bits do not overflow. */
  predicate NoOverflow(g: Geometry) {
    RawBytes(g) < TWO_32 && Needed(g) <= TWO_32
  }

  /** The sender's variables: the last delivered frame, the wrapping frame counter,
      and whether the next frame must be a keyframe; `ended` once the sender has panicked. */
  datatype Sender = Sender(prev: Option<RawFrame>, count: u32, recovery: bool, ended: bool)

  const FRESH_SENDER: Sender := Sender(None, 0, false, false)

  predicate ForceKeyframe(cfg: Config, s: Sender)
    requires ValidConfig(cfg)
  {
    U32(s.count + 1) % cfg.keyframeInterval == 1 || s.recovery
  }

  function KindOfNext(cfg: Config, s: Sender): (t: FrameType)
    requires ValidConfig(cfg)
    ensures t == Keyframe || t == Delta
  {
    if ForceKeyframe(cfg, s) || s.prev.None? then Keyframe else Delta
  }

  /** Exactly when the frame can be encoded without a panic: a keyframe needs its own
      colours, a delta what its comparisons read. */
  ghost predicate CanSend(cfg: Config, s: Sender, f: RawFrame)
    requires ValidConfig(cfg)
  {
    && !s.ended && NoOverflow(f.geo)
    && if KindOfNext(cfg, s) == Keyframe then Addressable(f.data, f.geo)
       else DeltaReadable(s.prev.value.data, f.data, f.geo, cfg.tileSize)
  }

  lemma SentIsAddressable(cfg: Config, s: Sender, f: RawFrame)
    requires ValidConfig(cfg) && CanSend(cfg, s, f)
    ensures Addressable(f.data, f.geo)
  {
    if KindOfNext(cfg, s) == Delta {
      ReadableAddressable(s.prev.value.data, f.data, f.geo, cfg.tileSize);
    }
  }

  ghost function NextPayload(codec: Codec, cfg: Config, s: Sender, f: RawFrame): seq<byte>
    requires ValidConfig(cfg) && CanSend(cfg, s, f)
  {
    SentIsAddressable(cfg, s, f);
    if KindOfNext(cfg, s) == Keyframe then codec.deflate(ImageBytes(Rgba(f.data, f.geo)))
    else
      var rs := AllChanged(s.prev.value.data, f.data, f.geo, cfg.tileSize);
      EmittedIffChanged(s.prev.value.data, f.data, f.geo, cfg.tileSize);
      codec.deflate(DeltaBytes(Rgba(f.data, f.geo), rs))
  }

  /** `encode_raw_frame`: every narrowing cast is explicit. */
  function RawFrameParams(f: RawFrame, t: FrameType, payload: seq<byte>, index: byte, tileSize: u16): EncodeParams {
    EncodeParams(t, index, U32(f.sequence), U32(f.timestampMs), U16(f.geo.width), U16(f.geo.height), tileSize,
                 U32(RawBytes(f.geo)), [], payload)
  }

  ghost function NextMessage(codec: Codec, cfg: Config, index: byte, s: Sender, f: RawFrame): seq<byte>
    requires ValidConfig(cfg) && CanSend(cfg, s, f)
  {
    Envelope(RawFrameParams(f, KindOfNext(cfg, s), NextPayload(codec, cfg, s, f), index, cfg.tileSize),
             FLAG_DEFLATE_RAW)
  }

  /** A frame from the hub, and what the H.264 encoder made of it (empty: nothing). */
  datatype Arrival = Arrival(frame: RawFrame, nal: seq<byte>)

  datatype Sent = Sent(next: Sender, kind: FrameType, delivered: bool, messages: seq<seq<byte>>)

  function H264Message(index: byte, a: Arrival): seq<byte> {
    var f := a.frame;
    Envelope(H264Params(a.nal, index, U32(f.sequence), U32(f.timestampMs), U16(f.geo.width), U16(f.geo.height)),
             FLAG_H264_PAYLOAD)
  }

  /** One turn of the send loop. A message over the limit is dropped; `prev`
      advances on delivery only; an encoded keyframe ends recovery even when it
      is dropped; a dropped delta starts it. */
  ghost function Step(codec: Codec, cfg: Config, index: byte, s: Sender, a: Arrival): Sent
    requires ValidConfig(cfg) && CanSend(cfg, s, a.frame)
  {
    var kind := KindOfNext(cfg, s);
    var message := NextMessage(codec, cfg, index, s, a.frame);
    var delivered := |message| <= cfg.backpressureLimit;
    var extra := H264Message(index, a);
    Sent(Sender(if delivered then Some(a.frame) else s.prev, U32(s.count + 1), kind == Delta && !delivered, false),
         kind, delivered,
         if !delivered then []
         else if cfg.h264Enabled && a.nal != [] && |extra| <= cfg.backpressureLimit then [message, extra]
         else [message])
  }

  /** The sender of one viewer: everything that stays fixed during a run. */
  datatype Line = Line(codec: Codec, cfg: Config, index: byte)

  ghost predicate ValidLine(l: Line) {
    Invertible(l.codec) && ValidConfig(l.cfg)
  }

  /** One turn with its panic: a frame that cannot be encoded ends the sender, which
      then sends nothing any more. */
  ghost function TryStep(l: Line, s: Sender, a: Arrival): Sent
    requires ValidConfig(l.cfg)
  {
    if CanSend(l.cfg, s, a.frame) then Step(l.codec, l.cfg, l.index, s, a)
    else if s.ended then Sent(s, Keyframe, false, [])
    else Sent(s.(count := U32(s.count + 1), ended := true), Keyframe, false, [])
  }

  datatype Encoded = Encoded(kind: FrameType, payload: seq<byte>)

  method EncodeFramePayload(codec: Codec, frame: RawFrame, prevFrame: Option<RawFrame>, forceKeyframe: bool,
                            tileSize: u16) returns (r: Option<Encoded>)
    requires tileSize > 0
    ensures r.Some? <==> if forceKeyframe || prevFrame.None? then Addressable(frame.data, frame.geo)
                         else DeltaReadable(prevFrame.value.data, frame.data, frame.geo, tileSize)
    ensures r.Some? ==>
              && Addressable(frame.data, frame.geo)
              && r.value.kind == if forceKeyframe || prevFrame.None? then Keyframe else Delta
    ensures r.Some? && r.value.kind == Keyframe ==>
              r.value.payload == codec.deflate(ImageBytes(Rgba(frame.data, frame.geo)))
    ensures r.Some? && r.value.kind == Delta ==>
              && Drawable(AllChanged(prevFrame.value.data, frame.data, frame.geo, tileSize),
                          frame.geo.width, frame.geo.height)
              && r.value.payload == codec.deflate(
                   DeltaBytes(Rgba(frame.data, frame.geo),
                              AllChanged(prevFrame.value.data, frame.data, frame.geo, tileSize)))
  {
    if forceKeyframe || prevFrame.None? {
      var payload := EncodeKeyframe(codec, frame.data, frame.geo);
      r := if payload.Some? then Some(Encoded(Keyframe, payload.value)) else None;
    } else {
      var payload := EncodeDelta(codec, prevFrame.value.data, frame.data, frame.geo, tileSize);
      r := if payload.Some? then Some(Encoded(Delta, payload.value)) else None;
    }
  }

  /** The state of one `handle_instance_stream` loop, with the keyframe cache it shares. */
  class InstanceStream {
    const line: Line
    const id: string
    var prevFrame: Option<RawFrame>
    var frameCount: u32
    var recoveryMode: bool
    var ended: bool
    var keyframeCache: map<string, seq<byte>>

    constructor (line: Line, id: string, cache: map<string, seq<byte>>)
      ensures this.line == line && this.id == id
      ensures State() == FRESH_SENDER && keyframeCache == cache
    {
      this.line, this.id := line, id;
      prevFrame, frameCount, recoveryMode, ended := None, 0, false, false;
      keyframeCache := cache;
    }

    function State(): Sender
      reads this
    {
      Sender(prevFrame, frameCount, recoveryMode, ended)
    }

    /** A loop that has ended gets no more frames. */
    method OnFrame(a: Arrival) returns (messages: seq<seq<byte>>)
      requires ValidConfig(line.cfg) && !ended && NoOverflow(a.frame.geo)
      modifies this
      ensures var r := TryStep(line, old(State()), a);
              && State() == r.next && messages == r.messages
              && keyframeCache == if !ended && r.kind == Keyframe
                                  then old(keyframeCache)[id := NextMessage(line.codec, line.cfg, line.index,
                                                                            old(State()), a.frame)]
                                  else old(keyframeCache)
    {
      hide Envelope, DeltaBytes, Addressable, DeltaReadable, AllChanged, Rgba;
      ghost var before := State();
      var cfg := line.cfg;
      messages := [];
      frameCount := U32(frameCount + 1);
      var forceKeyframe := frameCount % cfg.keyframeInterval == 1 || recoveryMode;
      var payload := EncodeFramePayload(line.codec, a.frame, prevFrame, forceKeyframe, cfg.tileSize);
      if payload.None? {
        ended := true;
        return;
      }
      var t := payload.value.kind;
      var encoded := EncodeStreamFrame(RawFrameParams(a.frame, t, payload.value.payload, line.index, cfg.tileSize));
      assert encoded == NextMessage(line.codec, cfg, line.index, before, a.frame);
      if t == Keyframe {
        keyframeCache := keyframeCache[id := encoded];
        recoveryMode := false;
      }
      if |encoded| <= cfg.backpressureLimit {
        messages := [encoded];
        if cfg.h264Enabled && a.nal != [] {
          var extra := H264Message(line.index, a);
          if |extra| <= cfg.backpressureLimit {
            messages := messages + [extra];
          }
        }
        prevFrame := Some(a.frame);
      } else if t == Delta {
        recoveryMode := true;
      }
    }
  }
}
