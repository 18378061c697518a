/** How many producers an instance may have: its readers see increasing sequence
    numbers in every continuation of a run exactly when its pushes never overlap. */
module FrameHubProducers {
  import opened Bytes
  import opened TileGrid
  import opened FrameHub
  import opened FrameHubRuns

  predicate InFlight(s: System, p: nat, id: Id) {
    p in s.pushing && s.pushing[p].id == id
  }

  predicate Idle(s: System, id: Id) {
    forall p :: p in s.pushing ==> !InFlight(s, p, id)
  }

  /** Nobody registers or unregisters `id`. Other instances are not restricted. */
  predicate Keeps(id: Id, e: Event) {
    match e
    case RegisterChannel(i) => i != id
    case RegisterSequence(i) => i != id
    case UnregisterChannel(i) => i != id
    case UnregisterSequence(i) => i != id
    case _ => true
  }

  predicate AllKeep(id: Id, es: seq<Event>) {
    forall k :: 0 <= k < |es| ==> Keeps(id, es[k])
  }

  /** ...nor starts a push of it. */
  predicate Quiet(id: Id, e: Event) {
    Keeps(id, e) && !(e.StampPush? && e.id == id)
  }

  predicate AllQuiet(id: Id, es: seq<Event>) {
    forall k :: 0 <= k < |es| ==> Quiet(id, es[k])
  }

  /** A push of `id` starts only when none is under way. */
  predicate Calm(s: System, id: Id, e: Event) {
    Keeps(id, e) && (e.StampPush? && e.id == id && e.producer !in s.pushing ==> Idle(s, id))
  }

  predicate SoleProducer(s: System, id: Id, es: seq<Event>)
    requires Inv(s)
    decreases |es|
  {
    es == [] || (
      Calm(s, id, es[0]) && (
        StepKeepsInv(s, es[0]);
        SoleProducer(Step(s, es[0]), id, es[1..])))
  }

  /** Channel `c` of `id` carries the numbers 1, 2, 3, ... with at most the next one in flight. */
  ghost predicate Numbered(s: System, id: Id, c: nat) {
    && Consistent(s)
    && id in s.hub.channels && s.hub.channels[id] == c && id in s.hub.sequences
    && (forall k :: 0 <= k < |s.sent[c]| ==> s.sent[c][k].sequence == k + 1)
    && (Idle(s, id) ==> s.hub.sequences[id] == |s.sent[c]|)
    && (forall p :: InFlight(s, p, id) ==>
          s.pushing[p].frame.sequence == s.hub.sequences[id] == |s.sent[c]| + 1)
    && (forall p, q :: InFlight(s, p, id) && InFlight(s, q, id) ==> p == q)
  }

  /** Between the two locks of a registration: a new channel nobody has written to. */
  ghost predicate Empty(s: System, id: Id, c: nat) {
    && Consistent(s) && Idle(s, id)
    && id in s.hub.channels && s.hub.channels[id] == c && s.sent[c] == []
  }

  lemma ChannelIsEmpty(s: System, id: Id)
    requires Inv(s) && Idle(s, id)
    ensures Inv(Step(s, RegisterChannel(id)))
    ensures Empty(Step(s, RegisterChannel(id)), id, |s.sent|)
  {
    StepKeepsInv(s, RegisterChannel(id));
    hide GoodReader, Newest;
    IdleOnlyByPushing(s, Step(s, RegisterChannel(id)), id);
  }

  lemma QuietKeepsEmpty(s: System, id: Id, c: nat, e: Event)
    requires Inv(s) && Empty(s, id, c) && Quiet(id, e)
    ensures Empty(Step(s, e), id, c)
  {
    StepKeepsInv(s, e);
    hide GoodReader, Newest;
    var t := Step(s, e);
    assert forall p :: InFlight(t, p, id) ==> InFlight(s, p, id);
  }

  lemma {:induction false} QuietRunKeepsEmpty(s: System, id: Id, c: nat, es: seq<Event>)
    requires Inv(s) && Empty(s, id, c) && AllQuiet(id, es)
    ensures Empty(Run(s, es), id, c)
    decreases |es|
  {
    if es == [] {
    } else {
      StepKeepsInv(s, es[0]);
      QuietKeepsEmpty(s, id, c, es[0]);
      hide Step, Inv, Empty, Quiet;
      QuietRunKeepsEmpty(Step(s, es[0]), id, c, es[1..]);
    }
  }

  lemma CounterStarts(s: System, id: Id, c: nat)
    requires Inv(s) && Empty(s, id, c)
    ensures Inv(Step(s, RegisterSequence(id)))
    ensures Numbered(Step(s, RegisterSequence(id)), id, c)
  {
    StepKeepsInv(s, RegisterSequence(id));
    hide GoodReader, Newest;
    var t := Step(s, RegisterSequence(id));
    IdleOnlyByPushing(s, t, id);
    assert forall p :: InFlight(t, p, id) ==> p in t.pushing;
  }

  /** An instance registered after the events `before`; `between` falls between the
      two locks of the registration. */
  function Registered(id: Id, before: seq<Event>, between: seq<Event>): (s: System)
    ensures Inv(s)
  {
    var half := Run(Run(START, before), [RegisterChannel(id)] + between);
    StepKeepsInv(half, RegisterSequence(id));
    Step(half, RegisterSequence(id))
  }

  /** The channel it got. */
  function ChannelOf(before: seq<Event>): nat {
    |Run(START, before).sent|
  }

  lemma RegisteredIsNumbered(id: Id, before: seq<Event>, between: seq<Event>)
    requires Idle(Run(START, before), id) && AllQuiet(id, between)
    ensures Numbered(Registered(id, before, between), id, ChannelOf(before))
  {
    var s := Run(START, before);
    hide Inv, Run, Empty, Numbered;
    ChannelIsEmpty(s, id);
    var half := Step(s, RegisterChannel(id));
    RunOne(s, RegisterChannel(id));
    RunAppend(s, [RegisterChannel(id)], between);
    QuietRunKeepsEmpty(half, id, ChannelOf(before), between);
    CounterStarts(Run(half, between), id, ChannelOf(before));
  }

  lemma CalmKeepsNumbered(s: System, id: Id, c: nat, e: Event)
    requires Inv(s) && Numbered(s, id, c) && Calm(s, id, e)
    ensures Numbered(Step(s, e), id, c)
  {
    hide Inv, Idle, InFlight, Step, Numbered;
    InvConsistent(s);
    StepShapes(s, e);
    match e
    case SendPush(p) =>
      if p in s.pushing { SendKeepsNumbered(s, id, c, p); }
    case StampPush(p, i, frame) =>
      StampKeepsNumbered(s, id, c, p, i, frame);
    case Subscribe(_) => OnlyReadersChange(s, id, c, e);
    case Wake(_, _) => OnlyReadersChange(s, id, c, e);
    case Take(_) => OnlyReadersChange(s, id, c, e);
    case _ =>
      RegisteringKeepsNumbered(s, id, c, e);
  }

  lemma OnlyReadersChange(s: System, id: Id, c: nat, e: Event)
    requires Inv(s) && Numbered(s, id, c) && (e.Subscribe? || e.Wake? || e.Take?)
    ensures Numbered(Step(s, e), id, c)
  {
    StepKeepsInv(s, e);
    var t := Step(s, e);
    assert t.hub == s.hub && t.sent == s.sent && t.pushing == s.pushing;
    hide Step, Newest, GoodReader, ValidHub;
    IdleOnlyByPushing(s, t, id);
  }

  lemma RegisteringKeepsNumbered(s: System, id: Id, c: nat, e: Event)
    requires Inv(s) && Numbered(s, id, c) && Calm(s, id, e)
    requires e.RegisterChannel? || e.RegisterSequence? || e.UnregisterChannel? || e.UnregisterSequence?
    ensures Numbered(Step(s, e), id, c)
  {
    StepKeepsInv(s, e);
    hide ValidHub, Newest, GoodReader;
    IdleOnlyByPushing(s, Step(s, e), id);
  }

  lemma IdleOnlyByPushing(s: System, t: System, id: Id)
    requires s.pushing == t.pushing
    ensures Idle(s, id) == Idle(t, id)
    ensures forall p :: InFlight(s, p, id) == InFlight(t, p, id)
  {
  }

  lemma StampKeepsNumbered(s: System, id: Id, c: nat, p: nat, i: Id, frame: RawFrame)
    requires Inv(s) && Numbered(s, id, c) && (i == id && p !in s.pushing ==> Idle(s, id))
    ensures Numbered(Step(s, StampPush(p, i, frame)), id, c)
  {
    hide Inv;
    var t := Step(s, StampPush(p, i, frame));
    if p !in s.pushing {
      assert forall q :: q != p ==> InFlight(t, q, id) == InFlight(s, q, id);
      assert InFlight(t, p, id) == (i == id);
    }
  }

  lemma SendKeepsNumbered(s: System, id: Id, c: nat, p: nat)
    requires Inv(s) && Numbered(s, id, c) && p in s.pushing
    ensures Numbered(SendStep(s, p), id, c)
  {
    hide Inv;
    var t := SendStep(s, p);
    assert forall q :: InFlight(t, q, id) == (q != p && InFlight(s, q, id));
    if s.pushing[p].id == id {
      assert InFlight(s, p, id);
    }
  }

  lemma {:induction false} RunKeepsNumbered(s: System, id: Id, c: nat, es: seq<Event>)
    requires Inv(s) && Numbered(s, id, c) && SoleProducer(s, id, es)
    ensures Numbered(Run(s, es), id, c)
    decreases |es|
  {
    if es == [] {
    } else {
      StepKeepsInv(s, es[0]);
      CalmKeepsNumbered(s, id, c, es[0]);
      hide Step, Inv, Numbered, Calm;
      RunKeepsNumbered(Step(s, es[0]), id, c, es[1..]);
    }
  }

  /** Frames of the channel that the reader never saw between two of its observations. */
  function Overwritten(sent: seq<RawFrame>, first: Observation, next: Observation): seq<RawFrame>
    requires first.count < next.count <= |sent|
  {
    sent[first.count..next.count - 1]
  }

  lemma NumberedReader(s: System, id: Id, es: seq<Event>, r: nat, i: nat)
    requires Inv(s) && id in s.hub.channels && Numbered(s, id, s.hub.channels[id]) && SoleProducer(s, id, es)
    requires r < |Run(s, es).readers| && Run(s, es).readers[r].channel == s.hub.channels[id]
    requires i < |Run(s, es).readers[r].log|
    ensures var t := Run(s, es);
            var log, sent := t.readers[r].log, t.sent[s.hub.channels[id]];
            && log[i].count <= |sent| && log[i].frame.sequence == log[i].count
            && log[i].frame == sent[log[i].count - 1]
            && (i + 1 < |log| ==>
                  && log[i].count < log[i + 1].count <= |sent|
                  && log[i].frame.sequence < log[i + 1].frame.sequence
                  && log[i + 1].frame.sequence - log[i].frame.sequence - 1
                     == |Overwritten(sent, log[i], log[i + 1])|
                  && forall f :: f in Overwritten(sent, log[i], log[i + 1]) ==>
                       f in sent && log[i].frame.sequence < f.sequence < log[i + 1].frame.sequence)
  {
    var c, t := s.hub.channels[id], Run(s, es);
    RunKeepsNumbered(s, id, c, es);
    hide Run, SoleProducer;
    var rd := t.readers[r];
    assert GoodReader(rd, t.sent[c]);
    assert Observed(rd.log[i], t.sent[c]);
    if i + 1 < |rd.log| {
      assert Observed(rd.log[i + 1], t.sent[c]);
    }
  }

  /** Each read delivers the newest frame, numbered by the instance's counter or, while
      its next push is between the two locks, by one less. */
  lemma ReadIsNewest(s: System, id: Id, c: nat, r: nat)
    requires Inv(s) && Numbered(s, id, c) && r < |s.readers| && s.readers[r].channel == c && s.readers[r].woken
    ensures var log := Step(s, Take(r)).readers[r].log;
            && |log| == |s.readers[r].log| + 1
            && log[|log| - 1].frame.sequence == s.hub.sequences[id] - (if Idle(s, id) then 0 else 1)
            && Some(log[|log| - 1].frame) == s.hub.watches[c].value
  {
    TakeKeepsInv(s, r);
    assert Newest(s.hub.watches[c], s.sent[c]);
    if !Idle(s, id) {
      var p :| p in s.pushing && s.pushing[p].id == id;
      assert InFlight(s, p, id);
    }
  }

  /** From START: an instance is registered while no push of it is under way, and from
      then on its pushes do not overlap. Over any such run, a reader of it sees strictly
      increasing sequence numbers, each the number of frames sent by then, and between
      two consecutive ones skips exactly the overwritten frames. */
  lemma ReaderSeesNewest(id: Id, before: seq<Event>, between: seq<Event>, es: seq<Event>, r: nat, i: nat)
    requires Idle(Run(START, before), id) && AllQuiet(id, between)
    requires SoleProducer(Registered(id, before, between), id, es)
    requires var t := Run(Registered(id, before, between), es);
             r < |t.readers| && t.readers[r].channel == ChannelOf(before) && i < |t.readers[r].log|
    ensures var t := Run(Registered(id, before, between), es);
            var log, sent := t.readers[r].log, t.sent[ChannelOf(before)];
            && log[i].count <= |sent| && log[i].frame.sequence == log[i].count
            && log[i].frame == sent[log[i].count - 1]
            && (i + 1 < |log| ==>
                  && log[i].count < log[i + 1].count <= |sent|
                  && log[i].frame.sequence < log[i + 1].frame.sequence
                  && log[i + 1].frame.sequence - log[i].frame.sequence - 1
                     == |Overwritten(sent, log[i], log[i + 1])|
                  && forall f :: f in Overwritten(sent, log[i], log[i + 1]) ==>
                       f in sent && log[i].frame.sequence < f.sequence < log[i + 1].frame.sequence)
  {
    RegisteredIsNumbered(id, before, between);
    hide Registered, Inv, Run, SoleProducer;
    NumberedReader(Registered(id, before, between), id, es, r, i);
  }

  // ---------- Overlapping pushes ----------

  /** A new reader reads once between the two sends of pushes `p` and `q`, and once after. */
  function Overlap(id: Id, r: nat, p: nat, q: nat): seq<Event> {
    [Subscribe(id)] + ([SendPush(p)] + ([Wake(r, true)] + ([Take(r)]
    + ([SendPush(q)] + ([Wake(r, true)] + [Take(r)])))))
  }

  lemma StepThen(s: System, e: Event, es: seq<Event>)
    requires Inv(s)
    ensures Inv(Step(s, e)) && Run(s, [e] + es) == Run(Step(s, e), es)
  {
    hide Inv;
    RunOne(s, e);
    RunAppend(s, [e], es);
  }

  /** Reader `r` has read everything sent to channel `c`; `frames` is what it got. */
  ghost predicate CaughtUp(s: System, c: nat, r: nat, frames: seq<RawFrame>) {
    && Consistent(s) && r < |s.readers| && c < |s.sent|
    && s.readers[r].channel == c && !s.readers[r].woken && s.readers[r].seen == s.hub.watches[c].version
    && |s.readers[r].log| == |frames|
    && forall i :: 0 <= i < |frames| ==> s.readers[r].log[i].frame == frames[i]
  }

  /** Sending a push and reading it. */
  lemma SendAndRead(s: System, id: Id, c: nat, r: nat, p: nat, frames: seq<RawFrame>, rest: seq<Event>)
    returns (t: System)
    requires Inv(s) && InFlight(s, p, id) && id in s.hub.channels && s.hub.channels[id] == c
    requires CaughtUp(s, c, r, frames)
    ensures Inv(t) && CaughtUp(t, c, r, frames + [s.pushing[p].frame])
    ensures t.hub.channels == s.hub.channels && t.pushing == s.pushing - {p}
    ensures Run(s, [SendPush(p)] + ([Wake(r, true)] + ([Take(r)] + rest))) == Run(t, rest)
  {
    hide GoodReader, Newest, ValidHub, Run;
    StepThen(s, SendPush(p), [Wake(r, true)] + ([Take(r)] + rest));
    var sent := SendStep(s, p);
    assert Step(s, SendPush(p)) == sent;
    StepThen(sent, Wake(r, true), [Take(r)] + rest);
    var woken := Step(sent, Wake(r, true));
    StepThen(woken, Take(r), rest);
    t := Step(woken, Take(r));
  }

  /** In any state, two pushes of one registered instance that are under way together
      can be sent in either order, and a reader gets them in the order they are sent. */
  lemma OverlapReadInSendOrder(s: System, id: Id, p: nat, q: nat)
    requires Inv(s) && id in s.hub.channels && p != q && InFlight(s, p, id) && InFlight(s, q, id)
    ensures var r := |s.readers|;
            var t := Run(s, Overlap(id, r, p, q));
            && r < |t.readers| && t.readers[r].channel == s.hub.channels[id] && |t.readers[r].log| == 2
            && t.readers[r].log[0].frame == s.pushing[p].frame && t.readers[r].log[1].frame == s.pushing[q].frame
  {
    var c, r := s.hub.channels[id], |s.readers|;
    var second := [SendPush(q)] + ([Wake(r, true)] + ([Take(r)] + []));
    var first := [SendPush(p)] + ([Wake(r, true)] + ([Take(r)] + second));
    StepThen(s, Subscribe(id), first);
    var joined := Step(s, Subscribe(id));
    JoinedCaughtUp(s, id);
    hide Inv, Run, Step, CaughtUp;
    var t1 := SendAndRead(joined, id, c, r, p, [], second);
    var t2 := SendAndRead(t1, id, c, r, q, [] + [s.pushing[p].frame], []);
    assert Overlap(id, r, p, q) == [Subscribe(id)] + first;
    RunNothing(t2);
    CaughtUpLog(t2, c, r, [] + [s.pushing[p].frame] + [s.pushing[q].frame]);
  }

  lemma JoinedCaughtUp(s: System, id: Id)
    requires Inv(s) && id in s.hub.channels
    ensures Consistent(s)
    ensures var t := Step(s, Subscribe(id));
            && CaughtUp(t, s.hub.channels[id], |s.readers|, [])
            && t.hub == s.hub && t.pushing == s.pushing
  {
  }

  lemma CaughtUpLog(s: System, c: nat, r: nat, frames: seq<RawFrame>)
    requires CaughtUp(s, c, r, frames) && |frames| == 2
    ensures r < |s.readers| && s.readers[r].channel == c && |s.readers[r].log| == 2
    ensures s.readers[r].log[0].frame == frames[0] && s.readers[r].log[1].frame == frames[1]
  {
  }

  lemma RunNothing(s: System)
    requires Inv(s)
    ensures Run(s, []) == s
  {
  }

  ghost predicate Increasing(log: seq<Observation>) {
    forall i, j :: 0 <= i < j < |log| ==> log[i].frame.sequence < log[j].frame.sequence
  }

  ghost predicate ReadersIncrease(s: System, c: nat) {
    forall r :: 0 <= r < |s.readers| && s.readers[r].channel == c ==> Increasing(s.readers[r].log)
  }

  /** Wherever the run `es` is left off and however it goes on without new pushes of
      `id`, no reader of channel `c` sees a number that does not increase. */
  ghost predicate AlwaysIncrease(s: System, id: Id, c: nat, es: seq<Event>)
    requires Inv(s)
  {
    forall n, tail :: 0 <= n <= |es| && AllQuiet(id, tail) ==> ReadersIncrease(Run(s, es[..n] + tail), c)
  }

  lemma NumberedIncrease(s: System, id: Id, c: nat)
    requires Inv(s) && Numbered(s, id, c)
    ensures ReadersIncrease(s, c)
  {
    forall r | 0 <= r < |s.readers| && s.readers[r].channel == c
      ensures Increasing(s.readers[r].log)
    {
      assert GoodReader(s.readers[r], s.sent[c]);
      forall i | 0 <= i < |s.readers[r].log|
        ensures s.readers[r].log[i].frame.sequence == s.readers[r].log[i].count
      {
        assert Observed(s.readers[r].log[i], s.sent[c]);
      }
    }
  }

  lemma SoleStep(s: System, id: Id, es: seq<Event>)
    requires Inv(s) && SoleProducer(s, id, es) && es != []
    ensures Consistent(s) && Inv(Step(s, es[0])) && Calm(s, id, es[0])
    ensures SoleProducer(Step(s, es[0]), id, es[1..])
  {
    StepKeepsInv(s, es[0]);
    hide Step, Calm;
  }

  lemma {:induction false} NumberedPrefix(s: System, id: Id, c: nat, es: seq<Event>, n: nat)
    requires Inv(s) && Numbered(s, id, c) && SoleProducer(s, id, es) && n <= |es|
    ensures Numbered(Run(s, es[..n]), id, c)
    decreases n
  {
    if n == 0 {
      RunNothing(s);
    } else {
      SoleStep(s, id, es);
      hide SoleProducer, Step, Inv, Numbered, Calm, Run;
      CalmKeepsNumbered(s, id, c, es[0]);
      NumberedPrefix(Step(s, es[0]), id, c, es[1..], n - 1);
      assert es[..n] == [es[0]] + es[1..][..n - 1];
      StepThen(s, es[0], es[1..][..n - 1]);
    }
  }

  lemma {:induction false} QuietIsSole(s: System, id: Id, es: seq<Event>)
    requires Inv(s) && AllQuiet(id, es)
    ensures SoleProducer(s, id, es)
    decreases |es|
  {
    if es == [] {
    } else {
      StepKeepsInv(s, es[0]);
      assert Quiet(id, es[0]);
      hide Step, Inv, Quiet, Keeps;
      QuietIsSole(Step(s, es[0]), id, es[1..]);
      QuietIsCalm(s, id, es[0]);
    }
  }

  lemma QuietIsCalm(s: System, id: Id, e: Event)
    requires Quiet(id, e)
    ensures Calm(s, id, e)
  {
  }

  lemma SoleAlwaysIncrease(s: System, id: Id, c: nat, es: seq<Event>)
    requires Inv(s) && Numbered(s, id, c) && SoleProducer(s, id, es)
    ensures AlwaysIncrease(s, id, c, es)
  {
    hide Inv, Run, Numbered, SoleProducer, ReadersIncrease;
    forall n, tail | 0 <= n <= |es| && AllQuiet(id, tail)
      ensures ReadersIncrease(Run(s, es[..n] + tail), c)
    {
      NumberedPrefix(s, id, c, es, n);
      var t := Run(s, es[..n]);
      QuietIsSole(t, id, tail);
      RunKeepsNumbered(t, id, c, tail);
      NumberedIncrease(Run(t, tail), id, c);
      RunAppend(s, es[..n], tail);
    }
  }

  /** Two pushes under way together are enough to break the order. */
  lemma StampOverlaps(s: System, id: Id, c: nat, e: Event)
    requires Inv(s) && Numbered(s, id, c) && Keeps(id, e) && !Calm(s, id, e)
    ensures Inv(Step(s, e))
    ensures exists tail :: AllQuiet(id, tail) && !ReadersIncrease(Run(Step(s, e), tail), c)
  {
    var p := e.producer;
    var q :| q in s.pushing && InFlight(s, q, id);
    StepKeepsInv(s, e);
    var t := Step(s, e);
    assert InFlight(t, p, id) && InFlight(t, q, id);
    assert t.pushing[p].frame.sequence == s.hub.sequences[id] + 1 == t.pushing[q].frame.sequence + 1;
    OverlapDecreases(t, id, c, p, q);
  }

  lemma OverlapDecreases(t: System, id: Id, c: nat, p: nat, q: nat)
    requires Inv(t) && id in t.hub.channels && t.hub.channels[id] == c
    requires p != q && InFlight(t, p, id) && InFlight(t, q, id)
    requires t.pushing[p].frame.sequence >= t.pushing[q].frame.sequence
    ensures exists tail :: AllQuiet(id, tail) && !ReadersIncrease(Run(t, tail), c)
  {
    hide Inv, Run;
    var r := |t.readers|;
    OverlapReadInSendOrder(t, id, p, q);
    var log := Run(t, Overlap(id, r, p, q)).readers[r].log;
    assert !(log[0].frame.sequence < log[1].frame.sequence);
    assert !Increasing(log);
    assert AllQuiet(id, Overlap(id, r, p, q));
  }

  lemma {:induction false} AlwaysIncreaseNeedsSole(s: System, id: Id, c: nat, es: seq<Event>)
    requires Inv(s) && Numbered(s, id, c) && AllKeep(id, es) && AlwaysIncrease(s, id, c, es)
    ensures SoleProducer(s, id, es)
    decreases |es|
  {
    if es == [] {
    } else {
      hide Inv, Numbered, Step, Run, Calm, Keeps, Quiet, ReadersIncrease;
      assert Keeps(id, es[0]);
      StepKeepsInv(s, es[0]);
      var t := Step(s, es[0]);
      forall n, tail | 0 <= n <= |es[1..]| && AllQuiet(id, tail)
        ensures ReadersIncrease(Run(t, es[1..][..n] + tail), c)
      {
        var m := n + 1;
        assert ReadersIncrease(Run(s, es[..m] + tail), c);
        assert es[..m] + tail == [es[0]] + (es[1..][..n] + tail);
        StepThen(s, es[0], es[1..][..n] + tail);
      }
      forall tail | AllQuiet(id, tail)
        ensures ReadersIncrease(Run(t, tail), c)
      {
        assert es[1..][..0] + tail == tail;
      }
      if Calm(s, id, es[0]) {
        CalmKeepsNumbered(s, id, c, es[0]);
        AlwaysIncreaseNeedsSole(t, id, c, es[1..]);
      } else {
        StampOverlaps(s, id, c, es[0]);
        assert false;
      }
    }
  }

  /** From START: once an instance is registered, its readers see increasing numbers,
      wherever its run is left off and however it goes on, if and only if no push of it
      starts while another one is under way. */
  lemma IncreaseIffNoOverlap(id: Id, before: seq<Event>, between: seq<Event>, es: seq<Event>)
    requires Idle(Run(START, before), id) && AllQuiet(id, between) && AllKeep(id, es)
    ensures AlwaysIncrease(Registered(id, before, between), id, ChannelOf(before), es)
       <==> SoleProducer(Registered(id, before, between), id, es)
  {
    RegisteredIsNumbered(id, before, between);
    var s := Registered(id, before, between);
    hide Registered, Inv, Run, Numbered, SoleProducer, AlwaysIncrease;
    if SoleProducer(s, id, es) {
      SoleAlwaysIncrease(s, id, ChannelOf(before), es);
    }
    if AlwaysIncrease(s, id, ChannelOf(before), es) {
      AlwaysIncreaseNeedsSole(s, id, ChannelOf(before), es);
    }
  }

  /** The smallest such run: a second push starts before the first one is sent, and the
      reader sees 2 and then 1. */
  lemma CrossingProducers(id: Id, frame: RawFrame)
    ensures var es := [StampPush(0, id, frame), StampPush(1, id, frame)] + Overlap(id, 0, 1, 0);
            var t := Run(Registered(id, [], []), es);
            && 0 < |t.readers| && |t.readers[0].log| == 2
            && t.readers[0].log[0].frame.sequence == 2 && t.readers[0].log[1].frame.sequence == 1
  {
    FirstRegistration(id);
    hide Inv, Run, Registered, Overlap, Consistent;
    var s := Registered(id, [], []);
    var rest := [StampPush(1, id, frame)] + Overlap(id, 0, 1, 0);
    StepThen(s, StampPush(0, id, frame), rest);
    InvConsistent(s);
    var s1 := Step(s, StampPush(0, id, frame));
    StepThen(s1, StampPush(1, id, frame), Overlap(id, 0, 1, 0));
    InvConsistent(s1);
    var s2 := Step(s1, StampPush(1, id, frame));
    hide Step;
    OverlapReadInSendOrder(s2, id, 1, 0);
    assert [StampPush(0, id, frame), StampPush(1, id, frame)] + Overlap(id, 0, 1, 0)
        == [StampPush(0, id, frame)] + rest;
  }

  lemma FirstRegistration(id: Id)
    ensures Registered(id, [], [])
         == System(Hub([Watch(0, None)], map[id := 0], map[id := 0]), map[], [], [[]])
  {
    RunNothing(START);
    RunOne(START, RegisterChannel(id));
    assert [RegisterChannel(id)] + [] == [RegisterChannel(id)];
    hide GoodReader, Newest, Run;
  }
}
