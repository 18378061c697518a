/** Whole runs of the frame hub: producers and readers of any number of instances,
    interleaved at every lock and at every await of a reader. */
module FrameHubRuns {
  import opened Bytes
  import opened TileGrid
  import opened FrameHub

  /** A push between its two critical sections. */
  datatype Push = Push(id: Id, frame: RawFrame)

  /** One delivered frame and how many had been sent to the channel by then. */
  datatype Observation = Observation(count: nat, frame: RawFrame)

  /** `woken`: the reader knows of a change and is about to borrow the value. */
  datatype Reader = Reader(channel: nat, seen: nat, woken: bool, log: seq<Observation>)

  /** `sent[c]` records what was written to channel `c` in a run. */
  datatype System = System(hub: Hub, pushing: map<nat, Push>, readers: seq<Reader>, sent: seq<seq<RawFrame>>)

  datatype Event =
    | RegisterChannel(id: Id)
    | RegisterSequence(id: Id)
    | UnregisterChannel(id: Id)
    | UnregisterSequence(id: Id)
    | StampPush(producer: nat, id: Id, frame: RawFrame)
    | SendPush(producer: nat)
    | Subscribe(id: Id)
    | Wake(reader: nat, marks: bool)
    | Take(reader: nat)

  const START: System := System(Hub([], map[], map[]), map[], [], [])

  predicate Consistent(s: System) {
    && ValidHub(s.hub) && |s.sent| == |s.hub.watches|
    && forall r :: 0 <= r < |s.readers| ==> s.readers[r].channel < |s.hub.watches|
  }

  /** One event; an event that is not possible in `s` changes nothing. `Wake` is
      `changed()`, which marks the version seen, or `has_changed()`, which does not. */
  function Step(s: System, e: Event): System
    requires Consistent(s)
  {
    match e
    case RegisterChannel(id) => s.(hub := InsertChannel(s.hub, id), sent := s.sent + [[]])
    case RegisterSequence(id) => s.(hub := InsertSequence(s.hub, id))
    case UnregisterChannel(id) => s.(hub := s.hub.(channels := s.hub.channels - {id}))
    case UnregisterSequence(id) => s.(hub := s.hub.(sequences := s.hub.sequences - {id}))
    case StampPush(p, id, frame) =>
      if p in s.pushing then s
      else s.(hub := Stamped(s.hub, id),
              pushing := s.pushing[p := Push(id, frame.(sequence := NextSequence(s.hub, id)))])
    case SendPush(p) => if p in s.pushing then SendStep(s, p) else s
    case Subscribe(id) =>
      if id !in s.hub.channels then s
      else
        var c := s.hub.channels[id];
        s.(readers := s.readers + [Reader(c, s.hub.watches[c].version, false, [])])
    case Wake(r, marks) =>
      if r < |s.readers| && !s.readers[r].woken && s.readers[r].seen != s.hub.watches[s.readers[r].channel].version
      then
        var rd := s.readers[r];
        var seen := if marks then s.hub.watches[rd.channel].version else rd.seen;
        s.(readers := s.readers[r := rd.(seen := seen, woken := true)])
      else s
    case Take(r) => if r < |s.readers| && s.readers[r].woken then TakeStep(s, r) else s
  }

  function SendStep(s: System, p: nat): System
    requires Consistent(s) && p in s.pushing
  {
    var Push(id, frame) := s.pushing[p];
    var sent :=
      if id in s.hub.channels
      then s.sent[s.hub.channels[id] := s.sent[s.hub.channels[id]] + [frame]]
      else s.sent;
    s.(hub := Sent(s.hub, id, frame), pushing := s.pushing - {p}, sent := sent)
  }

  /** `borrow_and_update`; an empty channel delivers nothing. */
  function TakeStep(s: System, r: nat): System
    requires Consistent(s) && r < |s.readers|
  {
    var rd := s.readers[r];
    var w := s.hub.watches[rd.channel];
    var log := if w.value.Some? then rd.log + [Observation(|s.sent[rd.channel]|, w.value.value)] else rd.log;
    s.(readers := s.readers[r := rd.(seen := w.version, woken := false, log := log)])
  }

  /** The channel holds the last frame sent to it. */
  predicate Newest(w: Watch, sent: seq<RawFrame>) {
    && w.version == |sent|
    && w.value == if sent == [] then None else Some(sent[|sent| - 1])
  }

  predicate Observed(o: Observation, sent: seq<RawFrame>) {
    0 < o.count <= |sent| && o.frame == sent[o.count - 1]
  }

  /** A reader's log: newest frames at increasing moments, none of them unseen. */
  predicate GoodReader(rd: Reader, sent: seq<RawFrame>) {
    && rd.seen <= |sent|
    && (forall i :: 0 <= i < |rd.log| ==> Observed(rd.log[i], sent))
    && (forall i, j :: 0 <= i < j < |rd.log| ==> rd.log[i].count < rd.log[j].count)
    && (rd.log != [] ==> rd.log[|rd.log| - 1].count <= rd.seen)
    && (rd.woken ==> |sent| > 0 && (rd.log != [] ==> rd.log[|rd.log| - 1].count < |sent|))
  }

  predicate Inv(s: System) {
    && Consistent(s)
    && (forall c :: 0 <= c < |s.sent| ==> Newest(s.hub.watches[c], s.sent[c]))
    && (forall r :: 0 <= r < |s.readers| ==> GoodReader(s.readers[r], s.sent[s.readers[r].channel]))
  }

  /** Writing a channel keeps every log good. */
  lemma MoreSent(rd: Reader, sent: seq<RawFrame>, frame: RawFrame)
    requires GoodReader(rd, sent)
    ensures GoodReader(rd, sent + [frame])
  {
    forall i | 0 <= i < |rd.log|
      ensures Observed(rd.log[i], sent + [frame])
    {
      assert Observed(rd.log[i], sent);
    }
  }

  lemma InvConsistent(s: System)
    requires Inv(s)
    ensures Consistent(s) && forall r :: 0 <= r < |s.readers| ==> s.readers[r].channel < |s.sent|
  {
  }

  lemma StepShapes(s: System, e: Event)
    requires Consistent(s)
    ensures e.SendPush? ==> Step(s, e) == if e.producer in s.pushing then SendStep(s, e.producer) else s
    ensures e.Take? ==>
              Step(s, e) == if e.reader < |s.readers| && s.readers[e.reader].woken then TakeStep(s, e.reader) else s
  {
  }

  lemma StepKeepsInv(s: System, e: Event)
    requires Inv(s)
    ensures Inv(Step(s, e))
  {
    hide SendStep, TakeStep, Step, Inv, Consistent;
    InvConsistent(s);
    StepShapes(s, e);
    match e
    case SendPush(p) =>
      if p in s.pushing { SendKeepsInv(s, p); }
    case Take(r) =>
      if r < |s.readers| && s.readers[r].woken { TakeKeepsInv(s, r); }
    case Subscribe(_) => ReaderKeepsInv(s, e);
    case Wake(_, _) => ReaderKeepsInv(s, e);
    case _ => RegistryKeepsInv(s, e);
  }

  lemma ReaderKeepsInv(s: System, e: Event)
    requires Inv(s) && (e.Subscribe? || e.Wake?)
    ensures Inv(Step(s, e))
  {
    hide GoodReader;
    var t := Step(s, e);
    forall r | 0 <= r < |t.readers|
      ensures t.readers[r].channel < |t.sent| && GoodReader(t.readers[r], t.sent[t.readers[r].channel])
    {
      var sent := t.sent[t.readers[r].channel];
      assert Newest(t.hub.watches[t.readers[r].channel], sent);
      if r == |s.readers| {
        NewReader(t.readers[r], sent);
      } else {
        WokenReader(s.readers[r], sent, t.readers[r]);
      }
    }
  }

  lemma NewReader(rd: Reader, sent: seq<RawFrame>)
    requires rd.seen == |sent| && !rd.woken && rd.log == []
    ensures GoodReader(rd, sent)
  {
  }

  lemma WokenReader(rd: Reader, sent: seq<RawFrame>, after: Reader)
    requires GoodReader(rd, sent)
    requires after == rd || (rd.seen != |sent| && after == rd.(seen := after.seen, woken := true)
                             && (after.seen == rd.seen || after.seen == |sent|))
    ensures GoodReader(after, sent)
  {
  }

  lemma RegistryKeepsInv(s: System, e: Event)
    requires Inv(s) && !e.Subscribe? && !e.Wake? && !e.Take? && !e.SendPush?
    ensures Inv(Step(s, e))
  {
    hide GoodReader;
    var t := Step(s, e);
    forall r | 0 <= r < |t.readers|
      ensures GoodReader(t.readers[r], t.sent[t.readers[r].channel])
    {
      assert GoodReader(s.readers[r], s.sent[s.readers[r].channel]);
    }
  }

  lemma SendKeepsInv(s: System, p: nat)
    requires Inv(s) && p in s.pushing
    ensures Inv(SendStep(s, p))
  {
    hide GoodReader;
    var t := SendStep(s, p);
    var Push(id, frame) := s.pushing[p];
    forall r | 0 <= r < |t.readers|
      ensures GoodReader(t.readers[r], t.sent[t.readers[r].channel])
    {
      MoreSent(s.readers[r], s.sent[s.readers[r].channel], frame);
    }
  }

  lemma TakeKeepsInv(s: System, r: nat)
    requires Inv(s) && r < |s.readers| && s.readers[r].woken
    ensures Inv(TakeStep(s, r))
    ensures var rd, sent := s.readers[r], s.sent[s.readers[r].channel];
            sent != [] && TakeStep(s, r).readers[r].log == rd.log + [Observation(|sent|, sent[|sent| - 1])]
  {
    var rd, t := s.readers[r], TakeStep(s, r);
    assert Newest(s.hub.watches[rd.channel], s.sent[rd.channel]);
    assert GoodReader(rd, s.sent[rd.channel]);
    hide ValidHub;
    TakeKeepsReader(rd, s.sent[rd.channel], t.readers[r]);
  }

  lemma TakeKeepsReader(rd: Reader, sent: seq<RawFrame>, after: Reader)
    requires GoodReader(rd, sent) && rd.woken
    requires after == rd.(seen := |sent|, woken := false, log := rd.log + [Observation(|sent|, sent[|sent| - 1])])
    ensures GoodReader(after, sent)
  {
  }

  /** The state after the events of a run. */
  function Run(s: System, es: seq<Event>): (t: System)
    requires Inv(s)
    ensures Inv(t)
    decreases |es|
  {
    if es == [] then s else
      StepKeepsInv(s, es[0]);
      Run(Step(s, es[0]), es[1..])
  }

  /** A run in two parts. */
  lemma {:induction false} RunAppend(s: System, a: seq<Event>, b: seq<Event>)
    requires Inv(s)
    ensures Run(s, a + b) == Run(Run(s, a), b)
    decreases |a|
  {
    hide GoodReader, Newest, Step;
    if a == [] {
      assert a + b == b;
    } else {
      StepKeepsInv(s, a[0]);
      RunAppend(Step(s, a[0]), a[1..], b);
      assert (a + b)[0] == a[0] && (a + b)[1..] == a[1..] + b;
    }
  }

  lemma RunOne(s: System, e: Event)
    requires Inv(s)
    ensures Inv(Step(s, e)) && Run(s, [e]) == Step(s, e)
  {
    StepKeepsInv(s, e);
    hide GoodReader, Newest, Step;
    assert [e][1..] == [];
  }

  // ---------- What single events do ----------

  /** A push whose two halves follow each other does what `push_frame` does: the frame,
      with only its number set, becomes the newest one of the instance's channel. */
  lemma PushArrives(s: System, p: nat, id: Id, frame: RawFrame)
    requires Inv(s) && p !in s.pushing
    ensures Inv(Step(s, StampPush(p, id, frame)))
    ensures var t := Step(Step(s, StampPush(p, id, frame)), SendPush(p));
            var n := (if id in s.hub.sequences then s.hub.sequences[id] else 0) + 1;
            var stamped := RawFrame(frame.geo, frame.data, n, frame.timestampMs);
            && t.pushing == s.pushing && t.readers == s.readers
            && t.hub.channels == s.hub.channels && t.hub.sequences == s.hub.sequences[id := n]
            && |t.sent| == |s.sent| && |t.hub.watches| == |s.hub.watches|
            && (forall c :: 0 <= c < |s.sent| && !(id in s.hub.channels && s.hub.channels[id] == c) ==>
                  t.sent[c] == s.sent[c] && t.hub.watches[c] == s.hub.watches[c])
            && (id in s.hub.channels ==>
                  && t.sent[s.hub.channels[id]] == s.sent[s.hub.channels[id]] + [stamped]
                  && t.hub.watches[s.hub.channels[id]].value == Some(stamped))
  {
    StepKeepsInv(s, StampPush(p, id, frame));
    hide Newest, GoodReader;
    var mid := Step(s, StampPush(p, id, frame));
    assert mid.pushing - {p} == s.pushing;
  }

  /** After an instance is unregistered, a push of it reaches nobody and nobody can
      subscribe to it. */
  lemma UnregisteredIsSilent(s: System, id: Id, p: nat)
    requires Inv(s)
    ensures Inv(Step(s, UnregisterChannel(id)))
    ensures var t := Step(s, UnregisterChannel(id));
            && Step(t, Subscribe(id)) == t
            && (p in t.pushing && t.pushing[p].id == id ==>
                  Step(t, SendPush(p)).sent == s.sent && Step(t, SendPush(p)).hub.watches == s.hub.watches)
  {
    StepKeepsInv(s, UnregisterChannel(id));
    hide Newest, GoodReader;
  }

  /** Unregistering also forgets the counter: the next push is number 1 again. */
  lemma UnregisteredStartsOver(s: System, id: Id, p: nat, frame: RawFrame)
    requires Inv(s) && p !in s.pushing
    ensures Inv(Step(s, UnregisterSequence(id)))
    ensures var t := Step(Step(s, UnregisterSequence(id)), StampPush(p, id, frame));
            p in t.pushing && t.pushing[p].frame.sequence == 1
  {
    StepKeepsInv(s, UnregisterSequence(id));
    hide Newest, GoodReader;
  }

  /** Everything reader `r` of channel `c` has got was sent after the first `n` frames. */
  ghost predicate Later(s: System, c: nat, r: nat, n: nat) {
    && r < |s.readers| && s.readers[r].channel == c && c < |s.sent|
    && n <= s.readers[r].seen && n <= |s.sent[c]|
    && (s.readers[r].woken ==> n < |s.sent[c]|)
    && forall i :: 0 <= i < |s.readers[r].log| ==> s.readers[r].log[i].count > n
  }

  lemma StepKeepsLater(s: System, e: Event, c: nat, r: nat, n: nat)
    requires Inv(s) && Later(s, c, r, n)
    ensures Inv(Step(s, e)) && Later(Step(s, e), c, r, n)
  {
    StepKeepsInv(s, e);
    InvConsistent(s);
    StepShapes(s, e);
    hide SendStep, TakeStep, Step, Inv, Consistent, Later;
    match e
    case SendPush(p) =>
      if p in s.pushing { SendKeepsLater(s, p, c, r, n); }
    case Take(q) =>
      if q < |s.readers| && s.readers[q].woken { TakeKeepsLater(s, q, c, r, n); }
    case Subscribe(_) => SubscribeKeepsLater(s, e, c, r, n);
    case Wake(_, _) => WakeKeepsLater(s, e, c, r, n);
    case _ => RegistryKeepsLater(s, e, c, r, n);
  }

  lemma SendKeepsLater(s: System, p: nat, c: nat, r: nat, n: nat)
    requires Inv(s) && Later(s, c, r, n) && p in s.pushing
    ensures Later(SendStep(s, p), c, r, n)
  {
    hide GoodReader, Newest;
  }

  lemma TakeKeepsLater(s: System, q: nat, c: nat, r: nat, n: nat)
    requires Inv(s) && Later(s, c, r, n) && q < |s.readers| && s.readers[q].woken
    ensures Later(TakeStep(s, q), c, r, n)
  {
    TakeKeepsInv(s, q);
    assert Newest(s.hub.watches[c], s.sent[c]);
    hide GoodReader;
  }

  lemma SubscribeKeepsLater(s: System, e: Event, c: nat, r: nat, n: nat)
    requires Inv(s) && Later(s, c, r, n) && e.Subscribe?
    ensures Later(Step(s, e), c, r, n)
  {
    hide GoodReader, Newest;
    assert Step(s, e).sent == s.sent && Step(s, e).readers[r] == s.readers[r];
  }

  lemma WakeKeepsLater(s: System, e: Event, c: nat, r: nat, n: nat)
    requires Inv(s) && Later(s, c, r, n) && e.Wake?
    ensures Later(Step(s, e), c, r, n)
  {
    assert Newest(s.hub.watches[c], s.sent[c]) && s.readers[r].seen <= |s.sent[c]| by {
      assert GoodReader(s.readers[r], s.sent[c]);
    }
    hide GoodReader, Newest;
  }

  lemma RegistryKeepsLater(s: System, e: Event, c: nat, r: nat, n: nat)
    requires Inv(s) && Later(s, c, r, n) && !e.Subscribe? && !e.Wake? && !e.Take? && !e.SendPush?
    ensures Later(Step(s, e), c, r, n)
  {
    hide GoodReader, Newest;
    assert Step(s, e).sent[c] == s.sent[c] && Step(s, e).readers == s.readers;
  }

  lemma {:induction false} RunKeepsLater(s: System, es: seq<Event>, c: nat, r: nat, n: nat)
    requires Inv(s) && Later(s, c, r, n)
    ensures Later(Run(s, es), c, r, n)
    decreases |es|
  {
    if es == [] {
    } else {
      hide Step, Inv, Later;
      StepKeepsLater(s, es[0], c, r, n);
      InvConsistent(s);
      RunKeepsLater(Step(s, es[0]), es[1..], c, r, n);
    }
  }

  /** A new subscriber never gets a frame that was sent before it subscribed. */
  lemma SubscribersSeeNewFrames(s: System, id: Id, es: seq<Event>, i: nat)
    requires Inv(s) && id in s.hub.channels
    ensures Inv(Step(s, Subscribe(id)))
    ensures var t, r := Run(Step(s, Subscribe(id)), es), |s.readers|;
            && r < |t.readers| && t.readers[r].channel == s.hub.channels[id]
            && (i < |t.readers[r].log| ==> t.readers[r].log[i].count > |s.sent[s.hub.channels[id]]|)
  {
    StepKeepsInv(s, Subscribe(id));
    var c := s.hub.channels[id];
    assert Newest(s.hub.watches[c], s.sent[c]);
    RunKeepsLater(Step(s, Subscribe(id)), es, c, |s.readers|, |s.sent[c]|);
  }
}
