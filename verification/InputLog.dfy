/** The per-session input-event log of crates/streaming/src/input_log.rs. */
module InputLog {
  import opened Bytes

  const MAX_RECENT: nat := 100

  datatype Status = Pending | Completed | Failed

  datatype InputEvent = InputEvent(
    eventId: string, sessionId: string, action: string, button: Option<string>, status: Status,
    startedAt: int, completedAt: Option<int>, latencyMs: Option<int>)

  /** `published` is what was sent on the session's broadcast channel. */
  datatype SessionLog = SessionLog(
    recent: seq<InputEvent>, pending: map<string, InputEvent>, published: seq<InputEvent>)

  const EMPTY_LOG: SessionLog := SessionLog([], map[], [])

  type Sessions = map<string, SessionLog>

  /** How an event ended, and when. */
  datatype Outcome = Outcome(status: Status, latencyMs: Option<int>, now: int)

  function LogOf(ss: Sessions, session: string): SessionLog {
    if session in ss then ss[session] else EMPTY_LOG
  }

  function Opened(ss: Sessions, session: string): Sessions {
    ss[session := LogOf(ss, session)]
  }

  function Begun(ss: Sessions, event: InputEvent): Sessions {
    var log := LogOf(ss, event.sessionId);
    ss[event.sessionId := log.(pending := log.pending[event.eventId := event])]
  }

  function Ended(event: InputEvent, o: Outcome): InputEvent {
    event.(status := o.status, completedAt := Some(o.now), latencyMs := o.latencyMs)
  }

  /** The newest `n` entries, oldest first. */
  function Newest(es: seq<InputEvent>, n: nat): seq<InputEvent> {
    if |es| <= n then es else es[|es| - n..]
  }

  predicate Holds(ss: Sessions, session: string, eventId: string) {
    session in ss && eventId in ss[session].pending
  }

  /** The first session, in iteration order, in which the event is pending. */
  function Holder(ss: Sessions, eventId: string, order: seq<string>): (r: Option<string>)
    ensures r.Some? ==> r.value in order && Holds(ss, r.value, eventId)
    ensures r.None? ==> forall k :: k in order ==> !Holds(ss, k, eventId)
  {
    if order == [] then None
    else if Holds(ss, order[0], eventId) then Some(order[0])
    else Holder(ss, eventId, order[1..])
  }

  function MovedToRecent(log: SessionLog, eventId: string, o: Outcome): SessionLog
    requires eventId in log.pending
  {
    var event := Ended(log.pending[eventId], o);
    var kept := if |log.recent| >= MAX_RECENT then log.recent[1..] else log.recent;
    SessionLog(kept + [event], log.pending - {eventId}, log.published + [event])
  }

  function Finalised(ss: Sessions, eventId: string, o: Outcome, order: seq<string>): Sessions {
    match Holder(ss, eventId, order)
    case None => ss
    case Some(k) => ss[k := MovedToRecent(ss[k], eventId, o)]
  }

  /** `order` visits exactly the sessions there are. */
  predicate Enumerates(order: seq<string>, ss: Sessions) {
    && (forall k :: k in order ==> k in ss)
    && (forall k :: k in ss ==> k in order)
  }

  class InputLogBus {
    var sessions: Sessions

    constructor ()
      ensures sessions == map[]
    {
      sessions := map[];
    }

    /** `eventId` is the fresh identifier drawn for the event. */
    method BeginInput(eventId: string, sessionId: string, action: string, button: Option<string>, now: int)
      modifies this
      ensures sessions == Begun(old(sessions), InputEvent(eventId, sessionId, action, button, Pending, now, None, None))
    {
      var event := InputEvent(eventId, sessionId, action, button, Pending, now, None, None);
      if sessionId !in sessions {
        sessions := sessions[sessionId := EMPTY_LOG];
      }
      var log := sessions[sessionId];
      sessions := sessions[sessionId := log.(pending := log.pending[eventId := event])];
    }

    /** `order` is the hash map's iteration order of the moment. */
    method FinalizeInput(eventId: string, o: Outcome, order: seq<string>)
      requires Enumerates(order, sessions)
      modifies this
      ensures sessions == Finalised(old(sessions), eventId, o, order)
    {
      for i := 0 to |order|
        invariant sessions == old(sessions)
        invariant Holder(sessions, eventId, order) == Holder(sessions, eventId, order[i..])
      {
        var log := sessions[order[i]];
        if eventId in log.pending {
          var event := Ended(log.pending[eventId], o);
          log := log.(pending := log.pending - {eventId});
          if |log.recent| >= MAX_RECENT {
            log := log.(recent := log.recent[1..]);
          }
          log := log.(recent := log.recent + [event]);
          log := log.(published := log.published + [event]);
          sessions := sessions[order[i] := log];
          return;
        }
      }
    }

    method Recent(sessionId: string) returns (events: seq<InputEvent>)
      ensures events == LogOf(sessions, sessionId).recent
    {
      events := [];
      if sessionId in sessions {
        events := sessions[sessionId].recent;
      }
    }

    /** Subscribing creates the session's log. */
    method Subscribe(sessionId: string)
      modifies this
      ensures sessions == Opened(old(sessions), sessionId)
    {
      if sessionId !in sessions {
        sessions := sessions[sessionId := EMPTY_LOG];
      }
    }
  }

  // ---------- Runs ----------

  datatype Action =
    | Begin(eventId: string, sessionId: string, action: string, button: Option<string>, now: int)
    | Finalize(eventId: string, outcome: Outcome, order: seq<string>)
    | Subscribe(sessionId: string)

  /** `begun` and `finalised` record a run: events as they began, by identifier, and
      events as they ended, in order over all sessions. */
  datatype System = System(sessions: Sessions, begun: map<string, InputEvent>, finalised: seq<InputEvent>)

  const START: System := System(map[], map[], [])

  function Step(s: System, a: Action): System {
    match a
    case Begin(eventId, sessionId, action, button, now) =>
      var event := InputEvent(eventId, sessionId, action, button, Pending, now, None, None);
      s.(sessions := Begun(s.sessions, event), begun := s.begun[eventId := event])
    case Finalize(eventId, o, order) =>
      var holder := Holder(s.sessions, eventId, order);
      var ended := if holder.None? then [] else [Ended(s.sessions[holder.value].pending[eventId], o)];
      s.(sessions := Finalised(s.sessions, eventId, o, order), finalised := s.finalised + ended)
    case Subscribe(sessionId) => s.(sessions := Opened(s.sessions, sessionId))
  }

  /** Fresh identifiers, outcomes that end an event, and a real iteration order. */
  predicate Possible(s: System, a: Action) {
    match a
    case Begin(eventId, _, _, _, _) => eventId !in s.begun
    case Finalize(_, o, order) => o.status != Pending && Enumerates(order, s.sessions)
    case Subscribe(_) => true
  }

  function Run(s: System, acts: seq<Action>): System {
    if acts == [] then s else Step(Run(s, acts[..|acts| - 1]), acts[|acts| - 1])
  }

  predicate PossibleRun(acts: seq<Action>) {
    acts == [] ||
    (PossibleRun(acts[..|acts| - 1]) && Possible(Run(START, acts[..|acts| - 1]), acts[|acts| - 1]))
  }

  /** The entries of one session, in order. */
  function OfSession(es: seq<InputEvent>, session: string): seq<InputEvent> {
    if es == [] then []
    else
      var before := OfSession(es[..|es| - 1], session);
      if es[|es| - 1].sessionId == session then before + [es[|es| - 1]] else before
  }

  predicate IsFinalised(es: seq<InputEvent>, eventId: string) {
    exists i :: 0 <= i < |es| && es[i].eventId == eventId
  }

  /** A session's log: its pending events as they began, and its ended events. */
  predicate GoodLog(s: System, session: string) {
    && session in s.sessions
    && (forall id :: id in s.sessions[session].pending ==>
          && id in s.begun && s.begun[id].sessionId == session
          && s.sessions[session].pending[id] == s.begun[id])
    && s.sessions[session].published == OfSession(s.finalised, session)
    && s.sessions[session].recent == Newest(s.sessions[session].published, MAX_RECENT)
  }

  /** The event is in its own session's pending map or ended, never both. */
  predicate InOnePlace(s: System, id: string) {
    && id in s.begun && s.begun[id].eventId == id && s.begun[id].sessionId in s.sessions
    && (Holds(s.sessions, s.begun[id].sessionId, id) <==> !IsFinalised(s.finalised, id))
  }

  /** What is recorded at the end is the event as it began, plus its outcome. */
  predicate EndsItsBeginning(s: System, e: InputEvent) {
    && e.eventId in s.begun && e.status != Pending && e.completedAt.Some?
    && e == Ended(s.begun[e.eventId], Outcome(e.status, e.latencyMs, e.completedAt.value))
    && e.sessionId in s.sessions
  }

  predicate Inv(s: System) {
    && (forall k :: k in s.sessions ==> GoodLog(s, k))
    && (forall id :: id in s.begun ==> InOnePlace(s, id))
    && (forall i :: 0 <= i < |s.finalised| ==> EndsItsBeginning(s, s.finalised[i]))
    && (forall i, j :: 0 <= i < j < |s.finalised| ==> s.finalised[i].eventId != s.finalised[j].eventId)
  }

  lemma {:induction false} OfSessionMembers(es: seq<InputEvent>, session: string)
    ensures (forall i :: 0 <= i < |es| ==> es[i].sessionId != session) ==> OfSession(es, session) == []
  {
    if es == [] {
    } else {
      OfSessionMembers(es[..|es| - 1], session);
    }
  }

  lemma OfSessionAppend(es: seq<InputEvent>, e: InputEvent, session: string)
    ensures OfSession(es + [e], session) == OfSession(es, session) + (if e.sessionId == session then [e] else [])
  {
    assert (es + [e])[..|es|] == es;
  }

  lemma NewestAppend(es: seq<InputEvent>, e: InputEvent, recent: seq<InputEvent>)
    requires recent == Newest(es, MAX_RECENT)
    ensures (if |recent| >= MAX_RECENT then recent[1..] else recent) + [e] == Newest(es + [e], MAX_RECENT)
  {
  }

  /** Only the session an event was begun in can hold it, so the order in which the
      sessions are visited does not matter. */
  lemma HolderIsOwner(s: System, id: string, order: seq<string>)
    requires Inv(s) && Enumerates(order, s.sessions)
    ensures Holder(s.sessions, id, order)
         == if id in s.begun && !IsFinalised(s.finalised, id) then Some(s.begun[id].sessionId) else None
  {
    hide EndsItsBeginning, IsFinalised;
    var r := Holder(s.sessions, id, order);
    if r.Some? {
      assert GoodLog(s, r.value);
      assert InOnePlace(s, id);
    } else if id in s.begun {
      assert InOnePlace(s, id);
    }
  }

  lemma FreshNotFinalised(s: System, id: string)
    requires Inv(s) && id !in s.begun
    ensures !IsFinalised(s.finalised, id)
  {
    forall i | 0 <= i < |s.finalised|
      ensures s.finalised[i].eventId in s.begun
    {
      assert EndsItsBeginning(s, s.finalised[i]);
    }
  }

  lemma EndingsStayGood(s: System, t: System)
    requires Inv(s)
    requires forall id :: id in s.begun ==> id in t.begun && t.begun[id] == s.begun[id]
    requires forall k :: k in s.sessions ==> k in t.sessions
    ensures forall i :: 0 <= i < |s.finalised| ==> EndsItsBeginning(t, s.finalised[i])
  {
    forall i | 0 <= i < |s.finalised|
      ensures EndsItsBeginning(t, s.finalised[i])
    {
      assert EndsItsBeginning(s, s.finalised[i]);
    }
  }

  lemma BeginKeepsInv(s: System, a: Action)
    requires Inv(s) && a.Begin? && Possible(s, a)
    ensures Inv(Step(s, a))
  {
    BeginKeepsLogs(s, a);
    BeginKeepsPlaces(s, a);
    hide GoodLog, InOnePlace, EndsItsBeginning;
    EndingsStayGood(s, Step(s, a));
  }

  lemma BeginKeepsLogs(s: System, a: Action)
    requires Inv(s) && a.Begin? && Possible(s, a)
    ensures var t := Step(s, a); forall k :: k in t.sessions ==> GoodLog(t, k)
  {
    hide OfSession, Newest, InOnePlace, EndsItsBeginning;
    var t := Step(s, a);
    SessionOpens(s, a.sessionId);
    forall k | k in t.sessions
      ensures GoodLog(t, k)
    {
      if k in s.sessions { assert GoodLog(s, k); }
    }
  }

  lemma BeginKeepsPlaces(s: System, a: Action)
    requires Inv(s) && a.Begin? && Possible(s, a)
    ensures var t := Step(s, a); forall id :: id in t.begun ==> InOnePlace(t, id)
  {
    var t := Step(s, a);
    FreshNotFinalised(s, a.eventId);
    hide IsFinalised, EndsItsBeginning, GoodLog;
    forall id | id in t.begun
      ensures InOnePlace(t, id)
    {
      if id != a.eventId { assert InOnePlace(s, id); }
    }
  }

  /** A session nobody has used has no ended events. */
  lemma SessionOpens(s: System, session: string)
    requires Inv(s)
    ensures session !in s.sessions ==> OfSession(s.finalised, session) == [] == Newest([], MAX_RECENT)
  {
    OfSessionMembers(s.finalised, session);
    if session !in s.sessions {
      forall i | 0 <= i < |s.finalised|
        ensures s.finalised[i].sessionId != session
      {
        assert EndsItsBeginning(s, s.finalised[i]);
      }
    }
  }

  lemma SubscribeKeepsInv(s: System, a: Action)
    requires Inv(s) && a.Subscribe?
    ensures Inv(Step(s, a))
  {
    hide OfSession, Newest, IsFinalised;
    var t := Step(s, a);
    SessionOpens(s, a.sessionId);
    forall k | k in t.sessions
      ensures GoodLog(t, k)
    {
      if k in s.sessions { assert GoodLog(s, k); }
    }
    forall id | id in t.begun
      ensures InOnePlace(t, id)
    {
      assert InOnePlace(s, id);
    }
    EndingsStayGood(s, t);
  }

  lemma FinalizeKeepsInv(s: System, a: Action)
    requires Inv(s) && a.Finalize? && Possible(s, a)
    ensures Inv(Step(s, a))
  {
    HolderIsOwner(s, a.eventId, a.order);
    if a.eventId in s.begun && !IsFinalised(s.finalised, a.eventId) {
      MoveKeepsInv(s, a.eventId, a.outcome, Step(s, a));
    } else {
      assert Step(s, a) == s;
    }
  }

  /** The effect of ending a pending event. */
  lemma MoveKeepsInv(s: System, id: string, o: Outcome, t: System)
    requires Inv(s) && id in s.begun && !IsFinalised(s.finalised, id) && o.status != Pending
    requires var home := s.begun[id].sessionId;
             && Holds(s.sessions, home, id)
             && t == System(s.sessions[home := MovedToRecent(s.sessions[home], id, o)], s.begun,
                            s.finalised + [Ended(s.sessions[home].pending[id], o)])
    ensures Inv(t)
  {
    assert GoodLog(s, s.begun[id].sessionId) && InOnePlace(s, id);
    MoveKeepsLogs(s, id, o, t);
    MoveKeepsPlaces(s, id, o, t);
    MoveKeepsEndings(s, id, o, t);
    hide GoodLog, InOnePlace, EndsItsBeginning, IsFinalised, MovedToRecent;
  }

  lemma MoveKeepsEndings(s: System, id: string, o: Outcome, t: System)
    requires Inv(s) && id in s.begun && !IsFinalised(s.finalised, id) && o.status != Pending && InOnePlace(s, id)
    requires t.sessions.Keys == s.sessions.Keys
    requires t.begun == s.begun && t.finalised == s.finalised + [Ended(s.begun[id], o)]
    ensures forall i :: 0 <= i < |t.finalised| ==> EndsItsBeginning(t, t.finalised[i])
    ensures forall i, j :: 0 <= i < j < |t.finalised| ==> t.finalised[i].eventId != t.finalised[j].eventId
  {
    EndingsStayGood(s, t);
    assert EndsItsBeginning(t, Ended(s.begun[id], o));
    NotYetAmong(s.finalised, id);
    hide GoodLog, InOnePlace, EndsItsBeginning, IsFinalised, Holds;
    DistinctAppend(s.finalised, Ended(s.begun[id], o));
  }

  lemma DistinctAppend(es: seq<InputEvent>, e: InputEvent)
    requires forall i, j :: 0 <= i < j < |es| ==> es[i].eventId != es[j].eventId
    requires forall i :: 0 <= i < |es| ==> es[i].eventId != e.eventId
    ensures forall i, j :: 0 <= i < j < |es + [e]| ==> (es + [e])[i].eventId != (es + [e])[j].eventId
  {
  }

  lemma MoveKeepsPlaces(s: System, id: string, o: Outcome, t: System)
    requires Inv(s) && id in s.begun && Holds(s.sessions, s.begun[id].sessionId, id)
    requires var home := s.begun[id].sessionId;
             && t.sessions == s.sessions[home := MovedToRecent(s.sessions[home], id, o)]
             && t.begun == s.begun && t.finalised == s.finalised + [Ended(s.begun[id], o)]
    ensures forall other :: other in t.begun ==> InOnePlace(t, other)
  {
    assert InOnePlace(s, id);
    hide GoodLog, EndsItsBeginning, IsFinalised;
    forall other | other in t.begun
      ensures InOnePlace(t, other)
    {
      assert InOnePlace(s, other);
      FinalisedGrows(s.finalised, Ended(s.begun[id], o), other);
    }
  }

  lemma NotYetAmong(es: seq<InputEvent>, id: string)
    requires !IsFinalised(es, id)
    ensures forall i :: 0 <= i < |es| ==> es[i].eventId != id
  {
  }

  lemma MoveKeepsLogs(s: System, id: string, o: Outcome, t: System)
    requires Inv(s) && id in s.begun && Holds(s.sessions, s.begun[id].sessionId, id)
    requires var home := s.begun[id].sessionId;
             && t.sessions == s.sessions[home := MovedToRecent(s.sessions[home], id, o)]
             && t.begun == s.begun && t.finalised == s.finalised + [Ended(s.begun[id], o)]
    ensures forall k :: k in t.sessions ==> GoodLog(t, k)
  {
    var home := s.begun[id].sessionId;
    var event := Ended(s.begun[id], o);
    hide OfSession, Newest, InOnePlace, EndsItsBeginning, IsFinalised;
    forall k | k in t.sessions
      ensures GoodLog(t, k)
    {
      assert GoodLog(s, k);
      OfSessionAppend(s.finalised, event, k);
      if k == home {
        NewestAppend(s.sessions[home].published, event, s.sessions[home].recent);
      }
    }
  }

  lemma FinalisedGrows(es: seq<InputEvent>, e: InputEvent, id: string)
    ensures IsFinalised(es + [e], id) <==> IsFinalised(es, id) || e.eventId == id
  {
    var all := es + [e];
    if IsFinalised(es, id) {
      var i :| 0 <= i < |es| && es[i].eventId == id;
      assert all[i].eventId == id;
    }
    if e.eventId == id {
      assert all[|es|].eventId == id;
    }
  }

  lemma StepKeepsInv(s: System, a: Action)
    requires Inv(s) && Possible(s, a)
    ensures Inv(Step(s, a))
  {
    hide *;
    match a
    case Begin(_, _, _, _, _) => BeginKeepsInv(s, a);
    case Finalize(_, _, _) => FinalizeKeepsInv(s, a);
    case Subscribe(_) => SubscribeKeepsInv(s, a);
  }

  lemma {:induction false} ReachableInv(acts: seq<Action>)
    requires PossibleRun(acts)
    ensures Inv(Run(START, acts))
  {
    hide Step, Possible;
    if acts == [] {
    } else {
      var before := acts[..|acts| - 1];
      ReachableInv(before);
      StepKeepsInv(Run(START, before), acts[|acts| - 1]);
    }
  }

  function Endings(es: seq<InputEvent>, id: string): nat {
    if es == [] then 0 else Endings(es[..|es| - 1], id) + (if es[|es| - 1].eventId == id then 1 else 0)
  }

  lemma {:induction false} DistinctEndings(es: seq<InputEvent>, id: string)
    requires forall i, j :: 0 <= i < j < |es| ==> es[i].eventId != es[j].eventId
    ensures Endings(es, id) == if IsFinalised(es, id) then 1 else 0
  {
    if es == [] {
    } else {
      var before, last := es[..|es| - 1], es[|es| - 1];
      DistinctEndings(before, id);
      assert es == before + [last];
      FinalisedGrows(before, last, id);
    }
  }

  /** After any run, an event that was begun is either pending, in the session it
      was begun in, or it has ended, exactly once; it is never pending elsewhere. */
  lemma EventInOnePlace(acts: seq<Action>, id: string)
    requires PossibleRun(acts) && id in Run(START, acts).begun
    ensures var s := Run(START, acts);
            var home := s.begun[id].sessionId;
            && Endings(s.finalised, id) == (if Holds(s.sessions, home, id) then 0 else 1)
            && (forall k :: Holds(s.sessions, k, id) ==> k == home)
  {
    ReachableInv(acts);
    hide Run, PossibleRun, EndsItsBeginning;
    var s := Run(START, acts);
    DistinctEndings(s.finalised, id);
    assert InOnePlace(s, id);
    forall k | Holds(s.sessions, k, id)
      ensures k == s.begun[id].sessionId
    {
      assert GoodLog(s, k);
    }
  }

  /** After any run, `recent` of a session is the newest hundred of its ended events,
      in the order they ended; all of them were published to its subscribers. */
  lemma RecentIsNewest(acts: seq<Action>, session: string)
    requires PossibleRun(acts)
    ensures var s := Run(START, acts);
            && LogOf(s.sessions, session).published == OfSession(s.finalised, session)
            && LogOf(s.sessions, session).recent == LastHundred(OfSession(s.finalised, session))
  {
    ReachableInv(acts);
    hide Run, PossibleRun;
    var s := Run(START, acts);
    if session in s.sessions {
      assert GoodLog(s, session);
    } else {
      SessionOpens(s, session);
    }
  }

  /** The last hundred, written out. */
  function LastHundred(es: seq<InputEvent>): seq<InputEvent> {
    if |es| <= 100 then es else es[|es| - 100..]
  }

  /** A begin is recorded as it was asked for. */
  lemma BeginRecords(acts: seq<Action>, a: Action)
    requires PossibleRun(acts + [a]) && a.Begin?
    ensures var s := Run(START, acts + [a]);
            && a.sessionId in s.sessions && a.eventId in s.sessions[a.sessionId].pending
            && var e := s.sessions[a.sessionId].pending[a.eventId];
               && e.eventId == a.eventId && e.sessionId == a.sessionId && e.action == a.action && e.button == a.button
               && e.status == Pending && e.startedAt == a.now && e.completedAt == None && e.latencyMs == None
               && s.begun[a.eventId] == e
  {
    hide PossibleRun;
    assert (acts + [a])[..|acts|] == acts;
  }

  /** An entry with the outcome's fields, and else those of the begin. */
  predicate Records(e: InputEvent, begun: InputEvent, o: Outcome) {
    && e.status == o.status && e.latencyMs == o.latencyMs && e.completedAt == Some(o.now)
    && e.eventId == begun.eventId && e.sessionId == begun.sessionId && e.action == begun.action
    && e.button == begun.button && e.startedAt == begun.startedAt
  }

  /** Ending a pending event, in whatever order the sessions are visited, records the
      outcome field by field as the newest entry of its session, and nothing else of the
      event changes. */
  lemma EndingRecords(acts: seq<Action>, id: string, o: Outcome, order: seq<string>)
    requires PossibleRun(acts) && id in Run(START, acts).begun && Endings(Run(START, acts).finalised, id) == 0
    requires forall k :: k in order <==> k in Run(START, acts).sessions
    ensures var s := Run(START, acts);
            var begun, t := s.begun[id], Step(s, Finalize(id, o, order));
            var recent := LogOf(t.sessions, begun.sessionId).recent;
            && id !in LogOf(t.sessions, begun.sessionId).pending
            && recent != [] && Records(recent[|recent| - 1], begun, o)
            && t.finalised == s.finalised + [recent[|recent| - 1]]
            && forall k :: k in s.sessions && k != begun.sessionId ==> k in t.sessions && t.sessions[k] == s.sessions[k]
  {
    ReachableInv(acts);
    hide Run, PossibleRun, EndsItsBeginning, OfSession, Newest;
    var s := Run(START, acts);
    HolderIsOwner(s, id, order);
    DistinctEndings(s.finalised, id);
    hide IsFinalised;
    assert InOnePlace(s, id) && GoodLog(s, s.begun[id].sessionId);
  }

  /** The shortest useful run: an input that begins and ends is its session's one recent
      event, and nothing is pending. */
  lemma OneInput(id: string, session: string, action: string, button: Option<string>, began: int, o: Outcome)
    requires o.status != Pending
    ensures var acts := [Begin(id, session, action, button, began), Finalize(id, o, [session])];
            && PossibleRun(acts)
            && Run(START, acts).sessions == map[session :=
                 SessionLog([InputEvent(id, session, action, button, o.status, began, Some(o.now), o.latencyMs)],
                            map[],
                            [InputEvent(id, session, action, button, o.status, began, Some(o.now), o.latencyMs)])]
  {
    var b, f := Begin(id, session, action, button, began), Finalize(id, o, [session]);
    var e := InputEvent(id, session, action, button, Pending, began, None, None);
    RunSnoc([], b);
    RunSnoc([b], f);
    assert [] + [b] == [b] && [b] + [f] == [b, f];
    hide Run, PossibleRun;
    var s1 := Step(Run(START, []), b);
    assert Run(START, []) == START && PossibleRun([]) by { NoActions(); }
    assert s1.sessions == map[session := SessionLog([], map[id := e], [])];
    assert Enumerates([session], s1.sessions);
    assert Holder(s1.sessions, id, [session]) == Some(session);
    assert map[id := e] - {id} == map[];
    assert [] + [Ended(e, o)] == [Ended(e, o)];
    assert MovedToRecent(s1.sessions[session], id, o) == SessionLog([Ended(e, o)], map[], [Ended(e, o)]);
    assert Finalised(s1.sessions, id, o, [session])
        == map[session := SessionLog([Ended(e, o)], map[], [Ended(e, o)])];
  }

  lemma NoActions()
    ensures Run(START, []) == START && PossibleRun([])
  {
  }

  lemma RunSnoc(acts: seq<Action>, a: Action)
    ensures Run(START, acts + [a]) == Step(Run(START, acts), a)
    ensures PossibleRun(acts + [a]) <==> PossibleRun(acts) && Possible(Run(START, acts), a)
  {
    assert (acts + [a])[..|acts|] == acts;
    hide Step, Possible;
  }

  /** Subscribing to a session makes it known and changes no other. */
  lemma SubscribeOpens(s: System, session: string)
    ensures var t := Step(s, Subscribe(session));
            && session in t.sessions && (session !in s.sessions ==> t.sessions[session] == SessionLog([], map[], []))
            && (session in s.sessions ==> t.sessions == s.sessions)
            && forall k :: k in s.sessions ==> k in t.sessions && t.sessions[k] == s.sessions[k]
  {
    if session in s.sessions {
      assert s.sessions[session := s.sessions[session]] == s.sessions;
    }
  }

  /** Every ended event is the one begun under that identifier, in the same session,
      with only its outcome filled in. */
  lemma EndedEventsKeepTheirData(acts: seq<Action>, i: nat)
    requires PossibleRun(acts) && i < |Run(START, acts).finalised|
    ensures var s := Run(START, acts);
            var e := s.finalised[i];
            && e.eventId in s.begun && e.status != Pending && e.completedAt.Some?
            && e == Ended(s.begun[e.eventId], Outcome(e.status, e.latencyMs, e.completedAt.value))
  {
    ReachableInv(acts);
    hide Run, PossibleRun;
    assert EndsItsBeginning(Run(START, acts), Run(START, acts).finalised[i]);
  }

  /** Whatever order the sessions are visited in, ending an event has the same effect;
      it has one exactly when the event was begun and has not ended yet. */
  lemma OrderIrrelevant(acts: seq<Action>, id: string, o: Outcome, first: seq<string>, second: seq<string>)
    requires PossibleRun(acts)
    requires Enumerates(first, Run(START, acts).sessions) && Enumerates(second, Run(START, acts).sessions)
    ensures var s := Run(START, acts);
            && Finalised(s.sessions, id, o, first) == Finalised(s.sessions, id, o, second)
            && (Finalised(s.sessions, id, o, first) != s.sessions <==>
                id in s.begun && Endings(s.finalised, id) == 0)
  {
    ReachableInv(acts);
    hide Run, PossibleRun;
    var s := Run(START, acts);
    HolderIsOwner(s, id, first);
    HolderIsOwner(s, id, second);
    DistinctEndings(s.finalised, id);
    if id in s.begun && !IsFinalised(s.finalised, id) {
      var home := s.begun[id].sessionId;
      assert InOnePlace(s, id);
      assert id !in Finalised(s.sessions, id, o, first)[home].pending;
    }
  }
}
