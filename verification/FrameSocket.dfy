/** The packed frame channel between worker and gateway: crates/ipc/src/transport.rs. */
module FrameSocket {
  import opened Bytes

  const MAX_FRAME_SIZE: nat := 64 * 1024 * 1024

  datatype Packet = Packet(width: u32, height: u32, pitch: u32, pixelFormat: byte, data: seq<byte>)

  datatype TransportError = Closed | FrameTooLarge(size: u32)

  /** The bytes of one packet; the length field is truncated to 32 bits. */
  function Encode(p: Packet): (s: seq<byte>)
    ensures |s| == 17 + |p.data|
  {
    Be32(p.width) + Be32(p.height) + Be32(p.pitch) + [p.pixelFormat] + Be32(U32(|p.data|)) + p.data
  }

  function EncodeAll(ps: seq<Packet>): seq<byte> {
    if ps == [] then [] else Encode(ps[0]) + EncodeAll(ps[1..])
  }

  datatype Received = Received(packet: Result<Packet, TransportError>, rest: seq<byte>)

  /** One `recv_frame` on a connection that will deliver `s` and then end. */
  function Receive(s: seq<byte>): (r: Received)
    ensures r.packet.Ok? ==> |r.rest| < |s|
  {
    if |s| < 17 then Received(Err(Closed), [])
    else
      var length := GetBe32(s, 13);
      if length > MAX_FRAME_SIZE then Received(Err(FrameTooLarge(length)), s[17..])
      else if |s| < 17 + length then Received(Err(Closed), [])
      else
        Received(Ok(Packet(GetBe32(s, 0), GetBe32(s, 4), GetBe32(s, 8), s[12], s[17..17 + length])), s[17 + length..])
  }

  datatype Transcript = Transcript(packets: seq<Packet>, error: TransportError)

  /** The gateway's receive loop: packets until the first error. */
  function ReceiveAll(s: seq<byte>): Transcript
    decreases |s|
  {
    var r := Receive(s);
    match r.packet
    case Err(e) => Transcript([], e)
    case Ok(p) =>
      var t := ReceiveAll(r.rest);
      Transcript([p] + t.packets, t.error)
  }

  /** Both ends of the byte stream: what was written, and what is left to read. */
  class FrameConnection {
    var outgoing: seq<byte>
    var incoming: seq<byte>

    constructor (incoming: seq<byte>)
      ensures outgoing == [] && this.incoming == incoming
    {
      this.outgoing, this.incoming := [], incoming;
    }

    method SendFrame(p: Packet)
      modifies this`outgoing
      ensures outgoing == old(outgoing) + Encode(p)
    {
      outgoing := outgoing + Be32(p.width);
      outgoing := outgoing + Be32(p.height);
      outgoing := outgoing + Be32(p.pitch);
      outgoing := outgoing + [p.pixelFormat];
      outgoing := outgoing + Be32(U32(|p.data|));
      outgoing := outgoing + p.data;
    }

    /** `read_exact`: the next `n` bytes, or the end of the stream. */
    method ReadExact(n: nat) returns (r: Option<seq<byte>>)
      modifies this`incoming
      ensures r == if |old(incoming)| >= n then Some(old(incoming)[..n]) else None
      ensures incoming == if |old(incoming)| >= n then old(incoming)[n..] else []
    {
      if |incoming| >= n {
        r := Some(incoming[..n]);
        incoming := incoming[n..];
      } else {
        r := None;
        incoming := [];
      }
    }

    method RecvFrame() returns (r: Result<Packet, TransportError>)
      modifies this`incoming
      ensures Received(r, incoming) == Receive(old(incoming))
    {
      hide GetBe32;
      ghost var s := incoming;
      var width := ReadExact(4);
      if width.None? { return Err(Closed); }
      var height := ReadExact(4);
      if height.None? { return Err(Closed); }
      NextField(s, 4, 4);
      var pitch := ReadExact(4);
      if pitch.None? { return Err(Closed); }
      NextField(s, 8, 4);
      var pixelFormat := ReadExact(1);
      if pixelFormat.None? { return Err(Closed); }
      NextField(s, 12, 1);
      var dataLen := ReadExact(4);
      if dataLen.None? { return Err(Closed); }
      NextField(s, 13, 4);
      FieldsAt(s, width.value, height.value, pitch.value, dataLen.value);
      var length := GetBe32(dataLen.value, 0);
      if length > MAX_FRAME_SIZE {
        return Err(FrameTooLarge(length));
      }
      var data := ReadExact(length);
      if data.None? { return Err(Closed); }
      NextField(s, 17, length);
      r := Ok(Packet(GetBe32(width.value, 0), GetBe32(height.value, 0), GetBe32(pitch.value, 0),
                     pixelFormat.value[0], data.value));
    }
  }

  /** Reading `n` bytes behind the first `at`. */
  lemma NextField(s: seq<byte>, at: nat, n: nat)
    requires at + n <= |s|
    ensures s[at..][..n] == s[at..at + n] && s[at..][n..] == s[at + n..]
  {
  }

  lemma FieldsAt(s: seq<byte>, width: seq<byte>, height: seq<byte>, pitch: seq<byte>, length: seq<byte>)
    requires |s| >= 17 && width == s[0..4] && height == s[4..8] && pitch == s[8..12] && length == s[13..17]
    ensures GetBe32(width, 0) == GetBe32(s, 0) && GetBe32(height, 0) == GetBe32(s, 4)
    ensures GetBe32(pitch, 0) == GetBe32(s, 8) && GetBe32(length, 0) == GetBe32(s, 13)
  {
  }

  lemma HeaderBytes(p: Packet, rest: seq<byte>)
    ensures var s := Encode(p) + rest;
            && GetBe32(s, 0) == p.width && GetBe32(s, 4) == p.height && GetBe32(s, 8) == p.pitch
            && s[12] == p.pixelFormat && GetBe32(s, 13) == U32(|p.data|)
  {
    var s := Encode(p) + rest;
    assert s[0..4] == Be32(p.width) && s[4..8] == Be32(p.height) && s[8..12] == Be32(p.pitch);
    assert s[13..17] == Be32(U32(|p.data|));
    Be32At(s, 0, p.width);
    Be32At(s, 4, p.height);
    Be32At(s, 8, p.pitch);
    Be32At(s, 13, U32(|p.data|));
  }

  /** A packet is received as it was sent, leaving what follows it, exactly when its
      data is at most 64 MiB. */
  lemma PacketRoundTrip(p: Packet, rest: seq<byte>)
    ensures Receive(Encode(p) + rest) == Received(Ok(p), rest) <==> |p.data| <= 64 * 1024 * 1024
  {
    HeaderBytes(p, rest);
    var s := Encode(p) + rest;
    var length := U32(|p.data|);
    if |p.data| <= MAX_FRAME_SIZE {
      assert s[17..17 + length] == p.data && s[17 + length..] == rest;
    }
  }

  /** A header that announces more is refused, and the announced size reported. */
  lemma TooLargeRefused(s: seq<byte>)
    requires |s| >= 17
    ensures Receive(s).packet.Err? && Receive(s).packet.error.FrameTooLarge? <==> GetBe32(s, 13) > 64 * 1024 * 1024
    ensures GetBe32(s, 13) > 64 * 1024 * 1024 ==> Receive(s) == Received(Err(FrameTooLarge(GetBe32(s, 13))), s[17..])
  {
  }

  lemma ReceiveNext(p: Packet, rest: seq<byte>)
    requires |p.data| <= MAX_FRAME_SIZE
    ensures var t := ReceiveAll(rest);
            ReceiveAll(Encode(p) + rest) == Transcript([p] + t.packets, t.error)
  {
    PacketRoundTrip(p, rest);
    hide Encode, Receive;
  }

  predicate AllSmall(ps: seq<Packet>) {
    forall i :: 0 <= i < |ps| ==> |ps[i].data| <= 64 * 1024 * 1024
  }

  lemma {:induction false} OnlySmallReceived(s: seq<byte>)
    ensures AllSmall(ReceiveAll(s).packets)
    decreases |s|
  {
    var r := Receive(s);
    if r.packet.Ok? {
      OnlySmallReceived(r.rest);
    }
  }

  /** Receiving repeatedly from the concatenation of some packets returns exactly
      those packets, then the end of the stream, if and only if each holds at most
      64 MiB of data. */
  lemma StreamRoundTrip(ps: seq<Packet>)
    ensures ReceiveAll(EncodeAll(ps)) == Transcript(ps, Closed)
       <==> forall i :: 0 <= i < |ps| ==> |ps[i].data| <= 64 * 1024 * 1024
  {
    if AllSmall(ps) {
      SmallStreamRoundTrip(ps);
    } else {
      OnlySmallReceived(EncodeAll(ps));
    }
  }

  lemma {:induction false} SmallStreamRoundTrip(ps: seq<Packet>)
    requires AllSmall(ps)
    ensures ReceiveAll(EncodeAll(ps)) == Transcript(ps, Closed)
  {
    hide Encode;
    if ps == [] {
    } else {
      hide Receive, ReceiveAll;
      SmallStreamRoundTrip(ps[1..]);
      ReceiveNext(ps[0], EncodeAll(ps[1..]));
    }
  }

  /** How many packets lie completely before the cut. */
  function Complete(ps: seq<Packet>, cut: nat): (n: nat)
    ensures n <= |ps|
  {
    if ps == [] || cut < |Encode(ps[0])| then 0 else 1 + Complete(ps[1..], cut - |Encode(ps[0])|)
  }

  lemma CutPacket(p: Packet, rest: seq<byte>, cut: nat)
    requires |p.data| <= MAX_FRAME_SIZE && cut < |Encode(p)|
    ensures Receive((Encode(p) + rest)[..cut]) == Received(Err(Closed), [])
  {
    var s := Encode(p) + rest;
    var t := s[..cut];
    if cut >= 17 {
      HeaderBytes(p, rest);
      assert GetBe32(t, 13) == GetBe32(s, 13);
    }
  }

  /** A stream cut anywhere yields the complete packets before the cut, in order,
      and never a partial one. */
  lemma {:induction false} CutStream(ps: seq<Packet>, cut: nat)
    requires forall i :: 0 <= i < |ps| ==> |ps[i].data| <= 64 * 1024 * 1024
    requires cut <= |EncodeAll(ps)|
    ensures ReceiveAll(EncodeAll(ps)[..cut]) == Transcript(ps[..Complete(ps, cut)], Closed)
  {
    if ps == [] {
    } else {
      var first, rest := Encode(ps[0]), EncodeAll(ps[1..]);
      if cut < |first| {
        hide Encode, Receive;
        CutPacket(ps[0], rest, cut);
      } else {
        hide Encode, Receive, ReceiveAll, EncodeAll;
        var left := cut - |first|;
        CutStream(ps[1..], left);
        CutLater(first, rest, cut);
        ReceiveNext(ps[0], rest[..left]);
        OneMorePacket(ps, Complete(ps[1..], left));
      }
    }
  }

  lemma CutLater(first: seq<byte>, rest: seq<byte>, cut: nat)
    requires |first| <= cut <= |first| + |rest|
    ensures (first + rest)[..cut] == first + rest[..cut - |first|]
  {
  }

  lemma OneMorePacket(ps: seq<Packet>, n: nat)
    requires n < |ps|
    ensures ps[..n + 1] == [ps[0]] + ps[1..][..n]
  {
  }
}
