/** The dashboard's shared stream: one sender loop for every instance, one page
    with a canvas per instance (crates/streaming/src/broadcast.rs). */
module Dashboard {
  import opened Bytes
  import opened TileGrid
  import opened StreamProtocol
  import opened Viewer
  import opened Broadcast
  import opened StreamRuns

  type Id = string

  /** The loop's three maps, and whether the sender has panicked. */
  datatype Hub = Hub(prevs: map<Id, RawFrame>, counts: map<Id, u32>, recovery: set<Id>, ended: bool)

  const FRESH_HUB: Hub := Hub(map[], map[], {}, false)

  /** One instance's view of the shared state. */
  function Project(h: Hub, id: Id): Sender {
    Sender(if id in h.prevs then Some(h.prevs[id]) else None,
           if id in h.counts then h.counts[id] else 0,
           id in h.recovery,
           h.ended)
  }

  /** The dashboard never sends H.264. */
  function LineOf(l: Line, index: byte): Line {
    Line(l.codec, l.cfg.(h264Enabled := false), index)
  }

  function ArrivalOf(f: RawFrame): Arrival {
    Arrival(f, [])
  }

  datatype HubSent = HubSent(next: Hub, kind: FrameType, delivered: bool, messages: seq<seq<byte>>)

  /** One changed receiver: the source's map updates, key by key. */
  ghost function HubStep(l: Line, h: Hub, id: Id, index: byte, f: RawFrame): HubSent
    requires ValidConfig(l.cfg) && CanSend(l.cfg, Project(h, id), f)
  {
    var s := Project(h, id);
    var kind := KindOfNext(l.cfg, s);
    var message := NextMessage(l.codec, l.cfg, index, s, f);
    var delivered := |message| <= l.cfg.backpressureLimit;
    HubSent(
      Hub(if delivered then h.prevs[id := f] else h.prevs,
          h.counts[id := U32(s.count + 1)],
          if kind == Keyframe then h.recovery - {id}
          else if !delivered then h.recovery + {id} else h.recovery,
          false),
      kind, delivered, if delivered then [message] else [])
  }

  /** With its panic: a frame that cannot be encoded ends the loop, and with it the
      streams of all instances. */
  ghost function TryHubStep(l: Line, h: Hub, id: Id, index: byte, f: RawFrame): HubSent
    requires ValidConfig(l.cfg)
  {
    if CanSend(l.cfg, Project(h, id), f) then HubStep(l, h, id, index, f)
    else if h.ended then HubSent(h, Keyframe, false, [])
    else HubSent(h.(counts := h.counts[id := U32(Project(h, id).count + 1)], ended := true), Keyframe, false, [])
  }

  /** The shared loop refines one private sender per instance: the stepped instance
      behaves like its own sender, and the others are unaffected except that a panic
      ends them too. */
  lemma HubRefinesSenders(l: Line, h: Hub, id: Id, index: byte, f: RawFrame)
    requires ValidConfig(l.cfg)
    ensures var r := TryHubStep(l, h, id, index, f);
            var own := TryStep(LineOf(l, index), Project(h, id), ArrivalOf(f));
            && Project(r.next, id) == own.next && r.messages == own.messages
            && r.delivered == own.delivered && r.kind == own.kind
            && (r.next.ended <==> h.ended || !CanSend(l.cfg, Project(h, id), f))
            && forall other :: other != id ==> Project(r.next, other) == Project(h, other).(ended := r.next.ended)
  {
    hide Envelope, DeltaBytes, Addressable, DeltaReadable, AllChanged, Rgba;
    var own := LineOf(l, index).cfg;
    var s := Project(h, id);
    assert CanSend(l.cfg, s, f) == CanSend(own, s, f);
    if CanSend(l.cfg, s, f) {
      SentIsAddressable(l.cfg, s, f);
      SameMessage(l, index, s, f);
    }
  }

  lemma SameMessage(l: Line, index: byte, s: Sender, f: RawFrame)
    requires ValidConfig(l.cfg) && CanSend(l.cfg, s, f)
    ensures CanSend(LineOf(l, index).cfg, s, f)
    ensures NextMessage(l.codec, LineOf(l, index).cfg, index, s, f) == NextMessage(l.codec, l.cfg, index, s, f)
  {
    hide Envelope, DeltaBytes, Addressable, DeltaReadable, AllChanged, Rgba;
    SentIsAddressable(l.cfg, s, f);
    assert NextPayload(l.codec, LineOf(l, index).cfg, s, f) == NextPayload(l.codec, l.cfg, s, f);
  }

  /** `handle_dashboard_stream`'s variables. */
  class DashboardStream {
    const codec: Codec
    const cfg: Config
    var prevFrames: map<Id, RawFrame>
    var frameCounts: map<Id, u32>
    var recoveryInstances: set<Id>
    var ended: bool
    var keyframeCache: map<Id, seq<byte>>

    constructor (codec: Codec, cfg: Config, cache: map<Id, seq<byte>>)
      ensures this.codec == codec && this.cfg == cfg
      ensures State() == FRESH_HUB && keyframeCache == cache
    {
      this.codec, this.cfg := codec, cfg;
      prevFrames, frameCounts, recoveryInstances, ended := map[], map[], {}, false;
      keyframeCache := cache;
    }

    function State(): Hub
      reads this
    {
      Hub(prevFrames, frameCounts, recoveryInstances, ended)
    }

    /** A loop that has ended gets no more frames. */
    method OnFrame(id: Id, index: byte, frame: RawFrame) returns (messages: seq<seq<byte>>)
      requires ValidConfig(cfg) && !ended && NoOverflow(frame.geo)
      modifies this
      ensures var r := TryHubStep(Line(codec, cfg, index), old(State()), id, index, frame);
              && State() == r.next && messages == r.messages
              && keyframeCache ==
                 if !ended && r.kind == Keyframe
                 then old(keyframeCache)[id := NextMessage(codec, cfg, index, Project(old(State()), id), frame)]
                 else old(keyframeCache)
    {
      hide Envelope, DeltaBytes, Addressable, DeltaReadable, AllChanged, Rgba;
      ghost var before := Project(State(), id);
      messages := [];
      var count: u32 := if id in frameCounts then frameCounts[id] else 0;
      count := U32(count + 1);
      frameCounts := frameCounts[id := count];
      var forceKeyframe := count % cfg.keyframeInterval == 1 || id in recoveryInstances;
      var prev := if id in prevFrames then Some(prevFrames[id]) else None;
      var payload := EncodeFramePayload(codec, frame, prev, forceKeyframe, cfg.tileSize);
      if payload.None? {
        ended := true;
        return;
      }
      var t := payload.value.kind;
      var encoded := EncodeStreamFrame(RawFrameParams(frame, t, payload.value.payload, index, cfg.tileSize));
      assert encoded == NextMessage(codec, cfg, index, before, frame);
      hide NextMessage, NextPayload, RawFrameParams, NoOverflow;
      messages := Deliver(id, frame, t, encoded);
    }

    /** The cache, the send and its bookkeeping. */
    method Deliver(id: Id, frame: RawFrame, t: FrameType, encoded: seq<byte>) returns (messages: seq<seq<byte>>)
      requires t != H264
      modifies this`prevFrames, this`recoveryInstances, this`keyframeCache
      ensures messages == if |encoded| <= cfg.backpressureLimit then [encoded] else []
      ensures prevFrames == if |encoded| <= cfg.backpressureLimit then old(prevFrames)[id := frame] else old(prevFrames)
      ensures recoveryInstances == if t == Keyframe then old(recoveryInstances) - {id}
                                   else if |encoded| > cfg.backpressureLimit then old(recoveryInstances) + {id}
                                   else old(recoveryInstances)
      ensures keyframeCache == if t == Keyframe then old(keyframeCache)[id := encoded] else old(keyframeCache)
    {
      if t == Keyframe {
        keyframeCache := keyframeCache[id := encoded];
        recoveryInstances := recoveryInstances - {id};
      }
      messages := [];
      if |encoded| <= cfg.backpressureLimit {
        messages := [encoded];
        prevFrames := prevFrames[id := frame];
      } else if t == Delta {
        recoveryInstances := recoveryInstances + {id};
      }
    }
  }

  /** A frame of one instance. */
  datatype HubArrival = HubArrival(id: Id, frame: RawFrame)

  /** Which index each subscribed instance was given. */
  type Indices = map<Id, byte>

  predicate Distinct(idx: Indices) {
    forall a, b :: a in idx && b in idx && idx[a] == idx[b] ==> a == b
  }

  ghost function HubAfter(l: Line, idx: Indices, arrivals: seq<HubArrival>): Hub
    requires ValidConfig(l.cfg)
  {
    if arrivals == [] then FRESH_HUB
    else HubTurn(l, idx, HubAfter(l, idx, arrivals[..|arrivals| - 1]), arrivals[|arrivals| - 1]).next
  }

  /** One arrival; nobody listens to an instance without an index. */
  ghost function HubTurn(l: Line, idx: Indices, h: Hub, a: HubArrival): HubSent
    requires ValidConfig(l.cfg)
  {
    if a.id in idx then TryHubStep(l, h, a.id, idx[a.id], a.frame) else HubSent(h, Keyframe, false, [])
  }

  /** What arrival `i` made the loop do. */
  ghost function HubTurnAt(l: Line, idx: Indices, arrivals: seq<HubArrival>, i: nat): HubSent
    requires ValidConfig(l.cfg) && i < |arrivals|
  {
    HubTurn(l, idx, HubAfter(l, idx, arrivals[..i]), arrivals[i])
  }

  ghost function HubDisplay(l: Line, idx: Indices, arrivals: seq<HubArrival>, screens: Screens): (r: Screens)
    requires ValidConfig(l.cfg)
    ensures r.Keys == screens.Keys
  {
    if arrivals == [] then screens
    else
      ShowMessages(l.codec, HubDisplay(l, idx, arrivals[..|arrivals| - 1], screens),
                   HubTurnAt(l, idx, arrivals, |arrivals| - 1).messages)
  }

  ghost predicate HubDelivered(l: Line, idx: Indices, arrivals: seq<HubArrival>, i: nat)
    requires ValidConfig(l.cfg) && i < |arrivals|
  {
    HubTurnAt(l, idx, arrivals, i).delivered
  }

  /** From arrival `k` on, the viewer can follow every frame of instance `id` that is
      delivered. Nothing is asked of the other instances. */
  ghost predicate HubFollowedFrom(l: Line, idx: Indices, arrivals: seq<HubArrival>, id: Id, k: nat)
    requires ValidConfig(l.cfg)
  {
    forall i :: k <= i < |arrivals| && arrivals[i].id == id && HubDelivered(l, idx, arrivals, i) ==>
      Followable(l.cfg, Project(HubAfter(l, idx, arrivals[..i]), id), arrivals[i].frame)
  }

  lemma HubPrefix(l: Line, idx: Indices, arrivals: seq<HubArrival>, n: nat)
    requires ValidConfig(l.cfg) && n <= |arrivals|
    ensures forall i :: 0 <= i < n ==> HubTurnAt(l, idx, arrivals[..n], i) == HubTurnAt(l, idx, arrivals, i)
    ensures forall i :: 0 <= i < n ==> HubDelivered(l, idx, arrivals[..n], i) == HubDelivered(l, idx, arrivals, i)
    ensures forall id, k :: HubFollowedFrom(l, idx, arrivals, id, k) ==> HubFollowedFrom(l, idx, arrivals[..n], id, k)
  {
    assert forall i :: 0 <= i < n ==> arrivals[..n][..i] == arrivals[..i];
  }

  /** One arrival repaints at most its own instance's canvas, whatever frame it is. */
  lemma HubTurnTouchesOwnCanvas(l: Line, idx: Indices, h: Hub, a: HubArrival, screens: Screens)
    requires ValidLine(l)
    ensures var r := HubTurn(l, idx, h, a);
            var shown := ShowMessages(l.codec, screens, r.messages);
            && (!r.delivered ==> shown == screens)
            && forall j :: j in screens && (a.id in idx ==> j != idx[a.id]) ==> shown[j] == screens[j]
  {
    hide TryHubStep, TryStep, ShowMessages;
    if a.id in idx {
      HubRefinesSenders(l, h, a.id, idx[a.id], a.frame);
      TurnTouchesOwnCanvas(LineOf(l, idx[a.id]), Project(h, a.id), ArrivalOf(a.frame), screens);
    } else {
      ShowNothing(l.codec, screens);
    }
  }

  lemma ShowNothing(codec: Codec, screens: Screens)
    ensures ShowMessages(codec, screens, []) == screens
  {
  }

  /** Non-interference: an arrival of one instance, whatever frame it brings, changes no
      other instance's canvas or sender variables. Only a panic reaches the others. */
  lemma NonInterference(l: Line, idx: Indices, arrivals: seq<HubArrival>, screens: Screens, other: Id)
    requires ValidLine(l) && Distinct(idx) && arrivals != []
    requires other in idx && other != arrivals[|arrivals| - 1].id
    ensures var init, a := arrivals[..|arrivals| - 1], arrivals[|arrivals| - 1];
            var before, after := HubAfter(l, idx, init), HubAfter(l, idx, arrivals);
            && Project(after, other) == Project(before, other).(ended := after.ended)
            && (after.ended <==> before.ended || (a.id in idx && !CanSend(l.cfg, Project(before, a.id), a.frame)))
            && (idx[other] in screens ==>
                  HubDisplay(l, idx, arrivals, screens)[idx[other]] == HubDisplay(l, idx, init, screens)[idx[other]])
  {
    hide TryHubStep, ShowMessages, CanSend;
    var n := |arrivals| - 1;
    var h, a := HubAfter(l, idx, arrivals[..n]), arrivals[n];
    HubTurnTouchesOwnCanvas(l, idx, h, a, HubDisplay(l, idx, arrivals[..n], screens));
    if a.id in idx {
      HubRefinesSenders(l, h, a.id, idx[a.id], a.frame);
    }
  }

  /** A frame of any instance that cannot be encoded ends the streams of all of them. */
  lemma {:induction false} PanicEndsAll(l: Line, idx: Indices, arrivals: seq<HubArrival>, i: nat, j: nat)
    requires ValidConfig(l.cfg) && i <= j < |arrivals| && arrivals[i].id in idx
    requires !CanSend(l.cfg, Project(HubAfter(l, idx, arrivals[..i]), arrivals[i].id), arrivals[i].frame)
    ensures HubAfter(l, idx, arrivals[..j + 1]).ended
    ensures HubTurnAt(l, idx, arrivals, j).messages == [] && !HubDelivered(l, idx, arrivals, j)
    decreases j
  {
    hide CanSend, HubTurn, Project;
    assert arrivals[..j + 1][..j] == arrivals[..j];
    if i == j {
      PanicEnds(l, idx, HubAfter(l, idx, arrivals[..j]), arrivals[j]);
    } else {
      PanicEndsAll(l, idx, arrivals, i, j - 1);
      EndedIsSilent(l, idx, HubAfter(l, idx, arrivals[..j]), arrivals[j]);
    }
  }

  lemma PanicEnds(l: Line, idx: Indices, h: Hub, a: HubArrival)
    requires ValidConfig(l.cfg) && a.id in idx && !CanSend(l.cfg, Project(h, a.id), a.frame)
    ensures var r := HubTurn(l, idx, h, a); r.next.ended && r.messages == [] && !r.delivered
  {
    hide CanSend;
  }

  lemma EndedIsSilent(l: Line, idx: Indices, h: Hub, a: HubArrival)
    requires ValidConfig(l.cfg) && h.ended
    ensures var r := HubTurn(l, idx, h, a); r.next.ended && r.messages == [] && !r.delivered
  {
    hide HubStep;
  }

  lemma NoH264Followable(cfg: Config, s: Sender, f: RawFrame)
    requires Followable(cfg, s, f)
    ensures Followable(cfg.(h264Enabled := false), s, f) && ValidConfig(cfg.(h264Enabled := false))
  {
    hide DeltaReadable, Addressable;
  }

  /** A turn keeps an instance in step, or brings it in step with a delivered keyframe. */
  lemma HubTurnFollowed(l: Line, idx: Indices, h: Hub, a: HubArrival, screens: Screens)
    requires ValidLine(l) && a.id in idx
    requires HubTurn(l, idx, h, a).delivered ==> Followable(l.cfg, Project(h, a.id), a.frame)
    requires || InStep(idx[a.id], Project(h, a.id), screens)
             || (HubTurn(l, idx, h, a).delivered && HubTurn(l, idx, h, a).kind == Keyframe)
    ensures var r := HubTurn(l, idx, h, a);
            InStep(idx[a.id], Project(r.next, a.id), ShowMessages(l.codec, screens, r.messages))
  {
    hide TryHubStep, TryStep, ShowMessages, InStep, Followable;
    var own := LineOf(l, idx[a.id]);
    HubRefinesSenders(l, h, a.id, idx[a.id], a.frame);
    DeliveredKind(own, Project(h, a.id), ArrivalOf(a.frame));
    if HubTurn(l, idx, h, a).delivered {
      NoH264Followable(l.cfg, Project(h, a.id), a.frame);
    }
    if InStep(idx[a.id], Project(h, a.id), screens) {
      TurnKeepsInStep(own, Project(h, a.id), ArrivalOf(a.frame), screens);
    } else {
      DeliveryShows(own, Project(h, a.id), ArrivalOf(a.frame), screens);
    }
  }

  /** Arrivals of other instances leave it in step. */
  lemma HubTurnOfOther(l: Line, idx: Indices, h: Hub, a: HubArrival, screens: Screens, id: Id)
    requires ValidLine(l) && Distinct(idx) && id in idx && a.id != id
    requires InStep(idx[id], Project(h, id), screens)
    ensures var r := HubTurn(l, idx, h, a);
            InStep(idx[id], Project(r.next, id), ShowMessages(l.codec, screens, r.messages))
  {
    hide TryHubStep, ShowMessages, Rgba, Addressable;
    HubTurnTouchesOwnCanvas(l, idx, h, a, screens);
    if a.id in idx {
      HubRefinesSenders(l, h, a.id, idx[a.id], a.frame);
    }
  }

  /** From a delivered keyframe of an instance on, its canvas shows its previous frame,
      if the viewer can follow that instance's own frames. Frames of other instances may
      be anything: of changing size, with too many tiles, or impossible to encode. */
  lemma {:induction false} DashboardFollowsInstance(
    l: Line, idx: Indices, arrivals: seq<HubArrival>, screens: Screens, id: Id, k: nat)
    requires ValidLine(l) && Distinct(idx) && id in idx && k < |arrivals| && arrivals[k].id == id
    requires HubDelivered(l, idx, arrivals, k) && HubTurnAt(l, idx, arrivals, k).kind == Keyframe
    requires HubFollowedFrom(l, idx, arrivals, id, k)
    ensures InStep(idx[id], Project(HubAfter(l, idx, arrivals), id), HubDisplay(l, idx, arrivals, screens))
    decreases |arrivals|
  {
    hide HubTurn, ShowMessages, InStep, Followable, Project;
    var n := |arrivals| - 1;
    var init, a := arrivals[..n], arrivals[n];
    HubPrefix(l, idx, arrivals, n);
    var h, before := HubAfter(l, idx, init), HubDisplay(l, idx, init, screens);
    if n > k {
      DashboardFollowsInstance(l, idx, init, screens, id, k);
    }
    if a.id == id {
      HubTurnFollowed(l, idx, h, a, before);
    } else {
      HubTurnOfOther(l, idx, h, a, before, id);
    }
  }

  /** A delivery moves the arriving instance's previous frame, and nothing else does. */
  lemma HubTurnMovesPrev(l: Line, idx: Indices, h: Hub, a: HubArrival, id: Id)
    requires ValidConfig(l.cfg)
    ensures var r := HubTurn(l, idx, h, a);
            Project(r.next, id).prev == if id == a.id && r.delivered then Some(a.frame) else Project(h, id).prev
  {
    hide CanSend, NextMessage, KindOfNext;
  }

  /** An instance's previous frame is the last one of its own that was delivered. */
  lemma {:induction false} HubPrevIsLastDelivered(l: Line, idx: Indices, arrivals: seq<HubArrival>, i: nat)
    requires ValidConfig(l.cfg) && i < |arrivals| && HubDelivered(l, idx, arrivals, i)
    requires forall j :: i < j < |arrivals| && arrivals[j].id == arrivals[i].id ==> !HubDelivered(l, idx, arrivals, j)
    ensures Project(HubAfter(l, idx, arrivals), arrivals[i].id).prev == Some(arrivals[i].frame)
  {
    hide HubTurn, Project;
    var n := |arrivals| - 1;
    var init := arrivals[..n];
    HubTurnMovesPrev(l, idx, HubAfter(l, idx, init), arrivals[n], arrivals[i].id);
    if i == n {
    } else {
      HubPrefix(l, idx, arrivals, n);
      HubPrevIsLastDelivered(l, idx, init, i);
      assert arrivals[n].id == arrivals[i].id ==> !HubDelivered(l, idx, arrivals, n);
    }
  }

  /** After any run, the canvas of an instance is the picture of the last frame of that
      instance that was delivered, whatever the other instances send, if the viewer can
      follow its own frames from one of its delivered keyframes on. */
  lemma KeyframeRepairsInstance(
    l: Line, idx: Indices, arrivals: seq<HubArrival>, screens: Screens, k: nat, i: nat)
    requires ValidLine(l) && Distinct(idx) && k <= i < |arrivals|
    requires arrivals[k].id == arrivals[i].id && arrivals[i].id in idx
    requires HubDelivered(l, idx, arrivals, k) && HubTurnAt(l, idx, arrivals, k).kind == Keyframe
    requires HubFollowedFrom(l, idx, arrivals, arrivals[i].id, k) && HubDelivered(l, idx, arrivals, i)
    requires forall j :: i < j < |arrivals| && arrivals[j].id == arrivals[i].id ==> !HubDelivered(l, idx, arrivals, j)
    ensures Addressable(arrivals[i].frame.data, arrivals[i].frame.geo)
    ensures idx[arrivals[i].id] in screens ==>
              HubDisplay(l, idx, arrivals, screens)[idx[arrivals[i].id]]
              == Rgba(arrivals[i].frame.data, arrivals[i].frame.geo)
  {
    hide HubTurn, Rgba, Addressable, HubFollowedFrom, HubAfter, HubDisplay;
    DashboardFollowsInstance(l, idx, arrivals, screens, arrivals[i].id, k);
    HubPrevIsLastDelivered(l, idx, arrivals, i);
  }

  lemma {:induction false} HubPrevWasDelivered(l: Line, idx: Indices, arrivals: seq<HubArrival>, id: Id)
    returns (j: nat)
    requires ValidConfig(l.cfg) && Project(HubAfter(l, idx, arrivals), id).prev.Some?
    ensures j < |arrivals| && arrivals[j].id == id && HubDelivered(l, idx, arrivals, j)
  {
    hide HubTurn;
    var n := |arrivals| - 1;
    HubTurnMovesPrev(l, idx, HubAfter(l, idx, arrivals[..n]), arrivals[n], id);
    if arrivals[n].id == id && HubDelivered(l, idx, arrivals, n) {
      j := n;
    } else {
      HubPrefix(l, idx, arrivals, n);
      j := HubPrevWasDelivered(l, idx, arrivals[..n], id);
    }
  }

  lemma HubDeltaHasPrev(l: Line, idx: Indices, h: Hub, a: HubArrival)
    requires ValidConfig(l.cfg)
    ensures var r := HubTurn(l, idx, h, a); r.kind != Keyframe ==> Project(h, a.id).prev.Some?
  {
    hide CanSend, NextMessage;
  }

  /** No delta of an instance reaches the page before a live keyframe of it has. */
  lemma {:induction false} HubKeyframeFirst(l: Line, idx: Indices, arrivals: seq<HubArrival>, i: nat)
    returns (k: nat)
    requires ValidConfig(l.cfg) && i < |arrivals| && HubDelivered(l, idx, arrivals, i)
    ensures k <= i && arrivals[k].id == arrivals[i].id && HubDelivered(l, idx, arrivals, k)
    ensures HubTurnAt(l, idx, arrivals, k).kind == Keyframe
    decreases i
  {
    hide HubTurn;
    if HubTurnAt(l, idx, arrivals, i).kind == Keyframe {
      k := i;
    } else {
      HubDeltaHasPrev(l, idx, HubAfter(l, idx, arrivals[..i]), arrivals[i]);
      HubPrefix(l, idx, arrivals, i);
      var j := HubPrevWasDelivered(l, idx, arrivals[..i], arrivals[i].id);
      k := HubKeyframeFirst(l, idx, arrivals, j);
    }
  }

  /** The headline for the dashboard: if every delivered frame of an instance can be
      followed, its canvas is the picture of the last of them, whatever the others send. */
  lemma DashboardShowsLastDelivered(l: Line, idx: Indices, arrivals: seq<HubArrival>, screens: Screens, i: nat)
    requires ValidLine(l) && Distinct(idx) && i < |arrivals| && arrivals[i].id in idx
    requires HubFollowedFrom(l, idx, arrivals, arrivals[i].id, 0) && HubDelivered(l, idx, arrivals, i)
    requires forall j :: i < j < |arrivals| && arrivals[j].id == arrivals[i].id ==> !HubDelivered(l, idx, arrivals, j)
    ensures Addressable(arrivals[i].frame.data, arrivals[i].frame.geo)
    ensures idx[arrivals[i].id] in screens ==>
              HubDisplay(l, idx, arrivals, screens)[idx[arrivals[i].id]]
              == Rgba(arrivals[i].frame.data, arrivals[i].frame.geo)
  {
    hide HubTurn, Rgba, Addressable, HubAfter, HubDisplay, Followable;
    var k := HubKeyframeFirst(l, idx, arrivals, i);
    KeyframeRepairsInstance(l, idx, arrivals, screens, k, i);
  }

  /** `index as u8`. */
  function IndexAt(position: nat): byte {
    position % 256
  }

  /** The indices a new viewer is given: positions in the id list, as one byte. */
  ghost function IndicesOf(ids: seq<Id>): (idx: Indices)
    requires forall i, j :: 0 <= i < j < |ids| ==> ids[i] != ids[j]
    ensures forall i :: 0 <= i < |ids| ==> ids[i] in idx && idx[ids[i]] == IndexAt(i)
    ensures forall id :: id in idx ==> id in ids
  {
    map i | 0 <= i < |ids| :: ids[i] := IndexAt(i)
  }

  /** They tell the instances apart exactly when there are at most 256 of them. */
  lemma IndicesDistinctIff(ids: seq<Id>)
    requires forall i, j :: 0 <= i < j < |ids| ==> ids[i] != ids[j]
    ensures Distinct(IndicesOf(ids)) <==> |ids| <= 256
  {
    var idx := IndicesOf(ids);
    if |ids| > 256 {
      assert ids[0] != ids[256] && idx[ids[0]] == IndexAt(0) == IndexAt(256) == idx[ids[256]];
    } else {
      hide IndicesOf;
      assert forall i :: 0 <= i < |ids| ==> IndexAt(i) == i;
      hide IndexAt;
      FewIds(ids, idx);
    }
  }

  lemma FewIds(ids: seq<Id>, idx: Indices)
    requires forall i :: 0 <= i < |ids| ==> ids[i] in idx && idx[ids[i]] == i
    requires forall id :: id in idx ==> id in ids
    ensures Distinct(idx)
  {
    forall a, b | a in idx && b in idx && idx[a] == idx[b]
      ensures a == b
    {
      var i :| 0 <= i < |ids| && ids[i] == a;
      var j :| 0 <= j < |ids| && ids[j] == b;
      assert idx[ids[i]] == i && idx[ids[j]] == j;
    }
  }
}
