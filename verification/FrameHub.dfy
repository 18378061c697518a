/** The latest-value frame hub of crates/streaming/src/frame_hub.rs: one watch
    channel and one sequence counter per instance, each map under its own lock. */
module FrameHub {
  import opened Bytes
  import opened TileGrid

  type Id = string

  /** A tokio watch channel: how often it was written, and the last value. */
  datatype Watch = Watch(version: nat, value: Option<RawFrame>)

  /** `channels` holds shared references into `watches`, so a channel outlives its
      entry for as long as somebody still reads it. */
  datatype Hub = Hub(watches: seq<Watch>, channels: map<Id, nat>, sequences: map<Id, nat>)

  predicate ValidHub(h: Hub) {
    && (forall id :: id in h.channels ==> h.channels[id] < |h.watches|)
    && (forall a, b :: a in h.channels && b in h.channels && h.channels[a] == h.channels[b] ==> a == b)
  }

  function InsertChannel(h: Hub, id: Id): Hub {
    h.(watches := h.watches + [Watch(0, None)], channels := h.channels[id := |h.watches|])
  }

  function InsertSequence(h: Hub, id: Id): Hub {
    h.(sequences := h.sequences[id := 0])
  }

  function NextSequence(h: Hub, id: Id): nat {
    (if id in h.sequences then h.sequences[id] else 0) + 1
  }

  /** The first critical section of a push. */
  function Stamped(h: Hub, id: Id): Hub {
    h.(sequences := h.sequences[id := NextSequence(h, id)])
  }

  /** The second one: `send_replace` on the channel registered by then, if any. */
  function Sent(h: Hub, id: Id, frame: RawFrame): Hub
    requires ValidHub(h)
  {
    if id !in h.channels then h
    else
      var c := h.channels[id];
      h.(watches := h.watches[c := Watch(h.watches[c].version + 1, Some(frame))])
  }

  class FrameHub {
    var watches: seq<Watch>
    var channels: map<Id, nat>
    var sequences: map<Id, nat>

    ghost function Value(): Hub
      reads this
    {
      Hub(watches, channels, sequences)
    }

    ghost predicate Valid()
      reads this
    {
      ValidHub(Value())
    }

    constructor ()
      ensures Valid() && Value() == Hub([], map[], map[])
    {
      watches, channels, sequences := [], map[], map[];
    }

    method RegisterInstance(id: Id)
      requires Valid()
      modifies this
      ensures Valid() && Value() == InsertSequence(InsertChannel(old(Value()), id), id)
    {
      watches := watches + [Watch(0, None)];
      channels := channels[id := |watches| - 1];
      sequences := sequences[id := 0];
    }

    method UnregisterInstance(id: Id)
      requires Valid()
      modifies this`channels, this`sequences
      ensures Valid()
      ensures channels == old(channels) - {id} && sequences == old(sequences) - {id}
    {
      channels := channels - {id};
      sequences := sequences - {id};
    }

    /** A whole push; `now` is the wall clock. */
    method PushFrame(id: Id, frame: RawFrame, now: nat)
      requires Valid()
      modifies this`sequences, this`watches
      ensures Valid()
      ensures var h := old(Value());
              Value() == Sent(Stamped(h, id), id, frame.(sequence := NextSequence(h, id), timestampMs := now))
    {
      var seqNo := 1;
      if id in sequences {
        seqNo := sequences[id] + 1;
      }
      sequences := sequences[id := seqNo];
      if id in channels {
        var c := channels[id];
        watches := watches[c := Watch(watches[c].version + 1, Some(frame.(sequence := seqNo, timestampMs := now)))];
      }
    }

    method Subscribe(id: Id) returns (rx: Option<FrameReceiver>)
      requires Valid()
      ensures rx.Some? <==> id in channels
      ensures rx.Some? ==> fresh(rx.value) && rx.value.hub == this && rx.value.channel == channels[id]
                           && rx.value.seen == watches[channels[id]].version
    {
      if id in channels {
        var r := new FrameReceiver(this, channels[id]);
        rx := Some(r);
      } else {
        rx := None;
      }
    }

    method LatestFrame(id: Id) returns (frame: Option<RawFrame>)
      requires Valid()
      ensures frame == if id in channels then watches[channels[id]].value else None
    {
      frame := None;
      if id in channels {
        frame := watches[channels[id]].value;
      }
    }
  }

  /** A watch receiver: the version it has seen. */
  class FrameReceiver {
    const hub: FrameHub
    const channel: nat
    var seen: nat

    ghost predicate Valid()
      reads this, hub
    {
      channel < |hub.watches|
    }

    constructor (hub: FrameHub, channel: nat)
      requires channel < |hub.watches|
      ensures Valid() && this.hub == hub && this.channel == channel && seen == hub.watches[channel].version
    {
      this.hub, this.channel, this.seen := hub, channel, hub.watches[channel].version;
    }

    /** `changed()` at an instant: ready exactly when something unseen was written,
        which it marks as seen. */
    method Changed() returns (ready: bool)
      requires Valid()
      modifies this
      ensures Valid() && ready == (old(seen) != hub.watches[channel].version)
      ensures seen == hub.watches[channel].version
    {
      ready := seen != hub.watches[channel].version;
      seen := hub.watches[channel].version;
    }

    method BorrowAndUpdate() returns (frame: Option<RawFrame>)
      requires Valid()
      modifies this
      ensures Valid() && frame == hub.watches[channel].value && seen == hub.watches[channel].version
    {
      frame := hub.watches[channel].value;
      seen := hub.watches[channel].version;
    }
  }
}
