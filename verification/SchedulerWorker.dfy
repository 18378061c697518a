/** The worker loop itself, over its array of queues, as an implementation of the
    step machine: whatever arrives while it drains, what it does is a run. */
module SchedulerWorker {
  import opened Bytes
  import opened Scheduler
  import opened SchedulerRuns

  /** Several steps in a row. */
  ghost predicate Steps(w: Worker, moves: seq<Move>, v: Worker)
    decreases |moves|
  {
    if moves == [] then v == w
    else Enabled(w, moves[0]) && Steps(Apply(w, moves[0]), moves[1..], v)
  }

  lemma {:induction false} StepsSnoc(w: Worker, moves: seq<Move>, v: Worker, m: Move)
    requires Steps(w, moves, v) && Enabled(v, m)
    ensures Steps(w, moves + [m], Apply(v, m))
    decreases |moves|
  {
    if moves == [] {
      assert [m][1..] == [];
    } else {
      StepsSnoc(Apply(w, moves[0]), moves[1..], v, m);
      assert (moves + [m])[1..] == moves[1..] + [m];
    }
  }

  /** The states the steps pass through; from the initial state they are a run. */
  lemma {:induction false} StepsAreARun(w: Worker, moves: seq<Move>, v: Worker) returns (trace: seq<Worker>)
    requires Steps(w, moves, v)
    ensures |trace| == |moves| + 1 && trace[0] == w && trace[|moves|] == v
    ensures forall i :: 0 <= i < |moves| ==> Enabled(trace[i], moves[i]) && trace[i + 1] == Apply(trace[i], moves[i])
    decreases |moves|
  {
    if moves == [] {
      trace := [w];
    } else {
      hide Enabled, Apply;
      var rest := StepsAreARun(Apply(w, moves[0]), moves[1..], v);
      trace := [w] + rest;
    }
  }

  /** Submissions that have not entered the channel yet; request ids are fresh. */
  ghost predicate FreshArrivals(arrivals: seq<Option<Command>>, submitted: seq<Command>) {
    && (forall i :: 0 <= i < |arrivals| && arrivals[i].Some? ==> arrivals[i].value !in submitted)
    && forall i, j :: 0 <= i < j < |arrivals| && arrivals[i].Some? ==> arrivals[i] != arrivals[j]
  }

  /** `rx`, `queues` and the command being worked on; `model` records the step machine's view. */
  class WorkerLoop {
    const capacity: nat
    const channelCapacity: nat
    var channel: seq<Command>
    var closed: bool
    var queues: array<seq<Command>>
    ghost var model: Worker

    ghost predicate Valid()
      reads this, queues
    {
      && queues.Length == 5 && model.queues == queues[..] && model.channel == channel && model.closed == closed
      && model.capacity == capacity && model.channelCapacity == channelCapacity
    }

    constructor (capacityPerPriority: nat)
      ensures Valid() && fresh(queues) && model == Init(capacityPerPriority)
    {
      capacity := Max1(capacityPerPriority);
      channelCapacity := Max1(5 * capacityPerPriority);
      channel := [];
      closed := false;
      queues := new seq<Command>[5](_ => []);
      model := Init(capacityPerPriority);
    }

    /** Scans the queues from the best priority on. */
    method PopNext() returns (c: Option<Command>)
      requires queues.Length == 5
      modifies queues
      ensures var p := FirstNonEmpty(old(queues[..]));
              if p < 5 then c == Some(old(queues[p])[0]) && queues[..] == old(queues[..])[p := old(queues[p])[1..]]
              else c == None && queues[..] == old(queues[..])
    {
      for i := 0 to 5
        invariant queues[..] == old(queues[..])
        invariant forall q :: 0 <= q < i ==> old(queues[..])[q] == []
      {
        if queues[i] != [] {
          FirstIs(queues[..], i);
          c := Some(queues[i][0]);
          queues[i] := queues[i][1..];
          return;
        }
      }
      c := None;
      FirstIs(queues[..], 5);
    }

    /** One step of the model beside the code's own updates; `start` and `moves`
        are the state and the steps of the turn so far. */
    ghost method Record(start: Worker, before: seq<Move>, m: Move) returns (moves: seq<Move>)
      requires Steps(start, before, model) && Enabled(model, m)
      modifies this`model
      ensures Steps(start, moves, model) && model == Apply(old(model), m)
    {
      StepsSnoc(start, before, model, m);
      moves := before + [m];
      model := Apply(model, m);
    }

    /** A client's submission lands in the channel unless that is full or closed. */
    method Arrive(arrival: Option<Command>, ghost start: Worker, ghost before: seq<Move>)
      returns (ghost moves: seq<Move>)
      requires Valid() && Steps(start, before, model) && |model.queues| == 5
      requires arrival.Some? ==> arrival.value !in model.submitted
      modifies this`channel, this`model
      ensures Valid() && Steps(start, moves, model)
      ensures model == (if arrival.Some? && !closed && |old(channel)| < channelCapacity
                        then Apply(old(model), Submit(arrival.value)) else old(model))
    {
      moves := before;
      if arrival.Some? && !closed && |channel| < channelCapacity {
        channel := channel + [arrival.value];
        moves := Record(start, before, Submit(arrival.value));
      }
    }

    /** A successful `try_recv` and the enqueue or rejection of what it returned. */
    method ReceiveOne(ghost start: Worker, ghost before: seq<Move>) returns (ghost moves: seq<Move>)
      requires Valid() && Steps(start, before, model) && Draining(model) && channel != []
      modifies this`channel, this`model, queues
      ensures Valid() && Steps(start, moves, model) && model == Apply(old(model), DrainOne)
    {
      moves := Record(start, before, DrainOne);
      var command := channel[0];
      channel := channel[1..];
      if |queues[command.priority]| < capacity {
        queues[command.priority] := queues[command.priority] + [command];
      }
    }

    /** `drain_available`. Before the k-th `try_recv` the k-th arrival may enter the channel. */
    method DrainAvailable(arrivals: seq<Option<Command>>, ghost start: Worker, ghost before: seq<Move>)
      returns (ghost moves: seq<Move>)
      requires Valid() && Draining(model) && Steps(start, before, model)
      requires FreshArrivals(arrivals, model.submitted)
      modifies this`channel, this`model, queues
      ensures Valid() && Steps(start, moves, model) && channel == []
      ensures model.phase == (if old(model).phase == DrainBefore then Executing else Selecting)
      ensures model.hand == old(model).hand && model.executed == old(model).executed
      ensures model.closed == old(model).closed
      ensures forall c :: c in model.submitted ==> c in old(model).submitted || Some(c) in arrivals
    {
      moves := before;
      var k := 0;
      while true
        invariant Valid() && Steps(start, moves, model) && k <= |arrivals|
        invariant model.phase == old(model).phase && model.hand == old(model).hand
        invariant model.executed == old(model).executed && model.closed == old(model).closed
        invariant forall c :: c in model.submitted ==> c in old(model).submitted || Some(c) in arrivals[..k]
        decreases |arrivals| - k, |channel|
      {
        hide Steps;
        if k < |arrivals| {
          assert arrivals[..k + 1] == arrivals[..k] + [arrivals[k]];
          moves := Arrive(arrivals[k], start, moves);
          k := k + 1;
        }
        if channel == [] {
          break;
        }
        moves := ReceiveOne(start, moves);
      }
      moves := Record(start, moves, DrainDone);
    }

    /** One turn of `run_worker`'s loop; `alive` is false when it returned. */
    method Turn(first: seq<Option<Command>>, second: seq<Option<Command>>)
      returns (alive: bool, ghost moves: seq<Move>)
      requires Valid() && Enabled(model, Select) && model.hand == None
      requires FreshArrivals(first + second, model.submitted)
      modifies this`channel, this`model, queues
      ensures Valid() && Steps(old(model), moves, model)
      ensures alive <==> old(FirstNonEmpty(model.queues) < 5 || channel != [])
      ensures alive ==> model.phase == Selecting && model.hand == None && channel == []
      ensures alive ==> model.executed == old(model).executed + [Apply(old(model), Select).hand.value]
      ensures !alive ==> model == Apply(old(model), Select) == old(model).(phase := Returned)
      ensures forall c :: c in model.submitted ==> c in old(model).submitted || Some(c) in first + second
    {
      hide Steps, FirstNonEmpty;
      ghost var start := model;
      var command;
      command, moves := Choose();
      if command.None? {
        return false, moves;
      }
      SplitFresh(first, second, model.submitted);
      moves := DrainAvailable(first, start, moves);
      assert command == model.hand;
      moves := Record(start, moves, Execute);
      moves := DrainAvailable(second, start, moves);
      alive := true;
    }

    /** Submissions while the worker waits for its next command. */
    method AcceptAll(arrivals: seq<Option<Command>>, ghost start: Worker, ghost before: seq<Move>)
      returns (ghost moves: seq<Move>)
      requires Valid() && Steps(start, before, model) && |model.queues| == 5
      requires FreshArrivals(arrivals, model.submitted)
      modifies this`channel, this`model
      ensures Valid() && Steps(start, moves, model)
      ensures model == old(model).(submitted := model.submitted, channel := model.channel)
      ensures forall c :: c in model.submitted ==> c in old(model).submitted || Some(c) in arrivals
    {
      moves := before;
      for k := 0 to |arrivals|
        invariant Valid() && Steps(start, moves, model)
        invariant model == old(model).(submitted := model.submitted, channel := model.channel)
        invariant forall c :: c in model.submitted ==> c in old(model).submitted || Some(c) in arrivals[..k]
      {
        hide Steps;
        assert arrivals[..k + 1] == arrivals[..k] + [arrivals[k]];
        moves := Arrive(arrivals[k], start, moves);
      }
    }

    /** The last sender is dropped. */
    method CloseChannel(ghost start: Worker, ghost before: seq<Move>) returns (ghost moves: seq<Move>)
      requires Valid() && Steps(start, before, model)
      modifies this`closed, this`model
      ensures Valid() && Steps(start, moves, model) && closed
      ensures model == old(model).(closed := true)
    {
      moves := before;
      if !closed {
        moves := Record(start, before, Close);
        closed := true;
      }
    }

    /** One turn with what the clients do around it; without a command the worker waits on. */
    method Round(t: Traffic, ghost start: Worker, ghost before: seq<Move>)
      returns (returned: bool, ghost moves: seq<Move>)
      requires Valid() && Steps(start, before, model) && model.phase == Selecting && model.hand == None
      requires FreshArrivals(t.waiting, model.submitted)
      requires forall more: seq<Command> {:trigger FreshArrivals(t.first + t.second, more)} ::
                 (forall c :: c in more ==> c in model.submitted || Some(c) in t.waiting) ==>
                   FreshArrivals(t.first + t.second, more)
      modifies this`channel, this`closed, this`model, queues
      ensures Valid() && Steps(start, moves, model) && model.hand == None
      ensures model.phase == if returned then Returned else Selecting
      ensures forall c :: c in model.submitted ==>
                c in old(model).submitted || Some(c) in t.waiting || Some(c) in t.first + t.second
    {
      hide Steps, FreshArrivals, FirstNonEmpty, Apply;
      returned := false;
      moves := AcceptAll(t.waiting, start, before);
      if t.closes {
        moves := CloseChannel(start, moves);
      }
      if FirstNonEmpty(queues[..]) < 5 || channel != [] || closed {
        ghost var middle := model;
        var alive;
        ghost var more;
        alive, more := Turn(t.first, t.second);
        StepsJoin(start, moves, middle, more, model);
        moves := moves + more;
        returned := !alive;
      }
    }

    /** `run_worker`: one turn after the other, whatever the clients do meanwhile, until
        nothing is left and the channel is closed. What it did is a run of the step
        machine, so the theorems about runs hold of it. */
    method RunWorker(traffic: seq<Traffic>, ghost capacityPerPriority: nat)
      returns (returned: bool, ghost trace: seq<Worker>, ghost moves: seq<Move>)
      requires Valid() && model == Init(capacityPerPriority)
      requires forall i, j ::
                 0 <= i < j < |AllArrivals(traffic)| && AllArrivals(traffic)[i].Some? ==>
                   AllArrivals(traffic)[i] != AllArrivals(traffic)[j]
      modifies this`channel, this`closed, this`model, queues
      ensures Valid() && IsRun(trace, moves, capacityPerPriority) && trace[|moves|] == model
      ensures returned <==> model.phase == Returned
      ensures multiset(model.submitted) == multiset(model.executed) + multiset(model.rejected)
                                           + QueueBag(queues[..]) + multiset(channel)
      ensures forall p: Priority ::
                Of(model.executed, p) + queues[p] + Of(channel, p) == Without(Of(model.submitted, p), model.rejected)
      ensures returned ==> forall c ::
                multiset(model.executed + model.rejected)[c] == if c in model.submitted then 1 else 0
    {
      AllFresh(traffic);
      ghost var start := model;
      returned, moves := RunTurns(traffic);
      trace := StepsAreARun(start, moves, model);
      hide Of, Without, QueueBag, Apply, Enabled, FreshArrivals, AllArrivals, Steps, FirstNonEmpty;
      Conclude(trace, moves, capacityPerPriority, model);
    }

    /** The loop of `run_worker`. */
    method RunTurns(traffic: seq<Traffic>) returns (returned: bool, ghost moves: seq<Move>)
      requires Valid() && model.phase == Selecting && model.hand == None
      requires FreshArrivals(AllArrivals(traffic[0..]), model.submitted)
      modifies this`channel, this`closed, this`model, queues
      ensures Valid() && Steps(old(model), moves, model) && model.hand == None
      ensures model.phase == if returned then Returned else Selecting
    {
      StartOfSteps(model);
      hide FreshArrivals, AllArrivals, Steps, FirstNonEmpty;
      ghost var start := model;
      moves := [];
      returned := false;
      var i := 0;
      while i < |traffic| && !returned
        invariant 0 <= i <= |traffic| && Valid() && Steps(start, moves, model) && model.hand == None
        invariant model.phase == if returned then Returned else Selecting
        invariant FreshArrivals(AllArrivals(traffic[i..]), model.submitted)
      {
        SplitTraffic(traffic, i, model.submitted);
        returned, moves := Round(traffic[i], start, moves);
        i := i + 1;
      }
    }

    /** The next command: from a queue, else from the channel, else none is left. */
    method Choose() returns (command: Option<Command>, ghost moves: seq<Move>)
      requires Valid() && Enabled(model, Select) && model.hand == None
      modifies this`channel, this`model, queues
      ensures Valid() && Steps(old(model), moves, model)
      ensures model == Apply(old(model), Select) && command == model.hand
      ensures command.Some? <==> old(FirstNonEmpty(model.queues) < 5 || channel != [])
    {
      moves := Record(model, [], Select);
      command := PopNext();
      if command.None? && channel != [] {
        command := Some(channel[0]);
        channel := channel[1..];
      }
    }
  }

  lemma {:induction false} StepsJoin(w: Worker, a: seq<Move>, v: Worker, b: seq<Move>, u: Worker)
    requires Steps(w, a, v) && Steps(v, b, u)
    ensures Steps(w, a + b, u)
    decreases |a|
  {
    if a == [] {
      assert a + b == b;
    } else {
      hide Enabled, Apply;
      StepsJoin(Apply(w, a[0]), a[1..], v, b, u);
      assert (a + b)[0] == a[0] && (a + b)[1..] == a[1..] + b;
    }
  }

  /** What the run theorems say of the last state of a run, between two turns. */
  lemma Conclude(trace: seq<Worker>, moves: seq<Move>, capacity: nat, w: Worker)
    requires IsRun(trace, moves, capacity) && trace[|moves|] == w && w.hand == None
    ensures |w.queues| == 5
    ensures multiset(w.submitted) == multiset(w.executed) + multiset(w.rejected)
                                     + QueueBag(w.queues) + multiset(w.channel)
    ensures forall p: Priority ::
              Of(w.executed, p) + w.queues[p] + Of(w.channel, p) == Without(Of(w.submitted, p), w.rejected)
    ensures w.phase == Returned ==> forall c ::
              multiset(w.executed + w.rejected)[c] == if c in w.submitted then 1 else 0
  {
    hide Without, QueueBag;
    assert |moves| < |trace|;
    hide IsRun;
    SchedulerSafety(trace, moves, capacity, |moves|);
    forall p: Priority
      ensures Of(w.executed, p) + w.queues[p] + Of(w.channel, p) == Without(Of(w.submitted, p), w.rejected)
    {
      OfNone(p);
      assert Of(w.executed, p) + Of(Held(w), p) == Of(w.executed, p);
    }
    if w.phase == Returned {
      AnsweredExactlyOnce(trace, moves, capacity, |moves|);
    }
  }

  /** What the clients do around one turn: submissions while the worker waits, perhaps
      the end of the last client, and submissions during the two drains. */
  datatype Traffic = Traffic(
    waiting: seq<Option<Command>>, closes: bool, first: seq<Option<Command>>, second: seq<Option<Command>>)

  function AllArrivals(traffic: seq<Traffic>): seq<Option<Command>> {
    if traffic == [] then []
    else traffic[0].waiting + ((traffic[0].first + traffic[0].second) + AllArrivals(traffic[1..]))
  }

  /** Fresh submissions stay fresh as earlier ones enter. */
  lemma SplitTraffic(traffic: seq<Traffic>, i: nat, submitted: seq<Command>)
    requires i < |traffic| && FreshArrivals(AllArrivals(traffic[i..]), submitted)
    ensures FreshArrivals(traffic[i].waiting, submitted)
    ensures forall more: seq<Command> {:trigger FreshArrivals(traffic[i].first + traffic[i].second, more)} ::
              (forall c :: c in more ==> c in submitted || Some(c) in traffic[i].waiting) ==>
                FreshArrivals(traffic[i].first + traffic[i].second, more)
    ensures forall more: seq<Command> {:trigger FreshArrivals(AllArrivals(traffic[i + 1..]), more)} ::
              (forall c :: c in more ==> c in submitted || Some(c) in traffic[i].waiting
                                         || Some(c) in traffic[i].first + traffic[i].second) ==>
                FreshArrivals(AllArrivals(traffic[i + 1..]), more)
  {
    var t := traffic[i];
    var now, later := t.first + t.second, AllArrivals(traffic[i + 1..]);
    assert traffic[i..][0] == t && traffic[i..][1..] == traffic[i + 1..];
    FreshParts(t.waiting, now, later, submitted);
  }

  lemma FreshParts(a: seq<Option<Command>>, b: seq<Option<Command>>, c: seq<Option<Command>>, submitted: seq<Command>)
    requires FreshArrivals(a + (b + c), submitted)
    ensures FreshArrivals(a, submitted)
    ensures forall more: seq<Command> ::
              (forall x :: x in more ==> x in submitted || Some(x) in a) ==> FreshArrivals(b, more)
    ensures forall more: seq<Command> ::
              (forall x :: x in more ==> x in submitted || Some(x) in a || Some(x) in b) ==> FreshArrivals(c, more)
  {
    SplitFresh(a, b + c, submitted);
    forall more: seq<Command> | forall x :: x in more ==> x in submitted || Some(x) in a
      ensures FreshArrivals(b, more)
    {
      SplitFresh(b, c, more);
    }
    SplitFresh(a + b, c, submitted) by {
      assert a + (b + c) == (a + b) + c;
    }
  }

  lemma AllFresh(traffic: seq<Traffic>)
    requires forall i, j ::
               0 <= i < j < |AllArrivals(traffic)| && AllArrivals(traffic)[i].Some? ==>
                 AllArrivals(traffic)[i] != AllArrivals(traffic)[j]
    ensures FreshArrivals(AllArrivals(traffic[0..]), [])
  {
    assert traffic[0..] == traffic;
  }

  lemma StartOfSteps(w: Worker)
    ensures Steps(w, [], w)
  {
  }

  lemma SplitFresh(first: seq<Option<Command>>, second: seq<Option<Command>>, submitted: seq<Command>)
    requires FreshArrivals(first + second, submitted)
    ensures FreshArrivals(first, submitted)
    ensures forall more: seq<Command> ::
              (forall c :: c in more ==> c in submitted || Some(c) in first) ==> FreshArrivals(second, more)
  {
    var all := first + second;
    assert forall i :: 0 <= i < |first| ==> all[i] == first[i];
    assert forall i :: 0 <= i < |second| ==> all[|first| + i] == second[i];
  }

  lemma {:induction false} FirstIs(queues: seq<seq<Command>>, p: nat)
    requires p <= |queues| && (p < |queues| ==> queues[p] != [])
    requires forall q :: 0 <= q < p ==> queues[q] == []
    ensures FirstNonEmpty(queues) == p
  {
    if p == 0 {
    } else {
      FirstIs(queues[1..], p - 1);
    }
  }
}
