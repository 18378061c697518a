/** What holds of every run of the command scheduler. */
module SchedulerRuns {
  import opened Bytes
  import opened Scheduler

  /** Commands taken out for execution so far, in that order. */
  function Selected(w: Worker): seq<Command> {
    w.executed + Held(w)
  }

  ghost predicate Before(s: seq<Command>, c: Command, d: Command) {
    exists i, j :: 0 <= i < j < |s| && s[i] == c && s[j] == d
  }

  /** `c` had to be served before `d`. */
  ghost predicate Outranks(w: Worker, c: Command, d: Command) {
    c.priority < d.priority || (c.priority == d.priority && Before(w.submitted, c, d))
  }

  lemma BeforeGrows(s: seq<Command>, t: seq<Command>, c: Command, d: Command)
    requires Before(s, c, d) && s <= t
    ensures Before(t, c, d)
  {
    var i, j :| 0 <= i < j < |s| && s[i] == c && s[j] == d;
    assert t[i] == c && t[j] == d;
  }

  lemma BeforeLast(s: seq<Command>, x: Command, c: Command, d: Command)
    requires Before(s + [x], c, d)
    ensures Before(s, c, d) || (x == d && c in s)
  {
    var t := s + [x];
    var i, j :| 0 <= i < j < |t| && t[i] == c && t[j] == d;
    if j < |s| {
      assert s[i] == c && s[j] == d;
    } else {
      assert s[i] == c;
    }
  }

  lemma InThenLast(s: seq<Command>, c: Command, d: Command)
    requires c in s
    ensures Before(s + [d], c, d)
  {
    var i :| 0 <= i < |s| && s[i] == c;
    var t := s + [d];
    assert t[i] == c && t[|s|] == d;
  }

  lemma FilteredSnoc(s: seq<Command>, x: Command, p: Priority, bad: seq<Command>)
    ensures Without(Of(s + [x], p), bad)
         == Without(Of(s, p), bad) + if x.priority == p && x !in bad then [x] else []
    ensures forall c :: c in Without(Of(s, p), bad) ==> c in s
  {
    OfSnoc(s, x, p);
    WithoutSnoc(Of(s, p), x, bad);
    assert x.priority != p ==> Of(s + [x], p) == Of(s, p);
  }

  /** One more command at the end of a sequence and of a filtered part of it. */
  lemma FilteredStep(s: seq<Command>, f: seq<Command>, x: Command, kept: bool, c: Command, d: Command)
    requires forall e :: e in f ==> e in s
    requires Before(f, c, d) ==> Before(s, c, d)
    requires Before(if kept then f + [x] else f, c, d)
    ensures Before(s + [x], c, d)
  {
    hide Before;
    if Before(f, c, d) {
      BeforeGrows(s, s + [x], c, d);
    } else {
      BeforeLast(f, x, c, d);
      InThenLast(s, c, d);
    }
  }

  lemma FilteredGrows(s: seq<Command>, x: Command, p: Priority, bad: seq<Command>, c: Command, d: Command)
    requires Before(Without(Of(s + [x], p), bad), c, d)
    requires Before(Without(Of(s, p), bad), c, d) ==> Before(s, c, d)
    ensures Before(s + [x], c, d)
  {
    FilteredSnoc(s, x, p, bad);
    hide Of, Without, Before;
    var f, kept := Without(Of(s, p), bad), x.priority == p && x !in bad;
    assert !kept ==> f + [] == f;
    FilteredStep(s, f, x, kept, c, d);
  }

  /** Filtering keeps the order. */
  lemma {:induction false} OrderOfFiltered(s: seq<Command>, p: Priority, bad: seq<Command>, c: Command, d: Command)
    requires Before(Without(Of(s, p), bad), c, d)
    ensures Before(s, c, d)
    decreases |s|, 0
  {
    hide Of, Without;
    OfNone(p);
    if s == [] {
      WithoutEmpty(bad);
    } else {
      var init, x := s[..|s| - 1], s[|s| - 1];
      assert s == init + [x];
      FilteredInduction(init, x, p, bad, c, d);
    }
  }

  lemma {:induction false} FilteredInduction(
    init: seq<Command>, x: Command, p: Priority, bad: seq<Command>, c: Command, d: Command)
    requires Before(Without(Of(init + [x], p), bad), c, d)
    ensures Before(init + [x], c, d)
    decreases |init|, 1
  {
    hide Of, Without, Before;
    if Before(Without(Of(init, p), bad), c, d) {
      OrderOfFiltered(init, p, bad, c, d);
    }
    FilteredGrows(init, x, p, bad, c, d);
  }

  lemma StepGrows(w: Worker, m: Move)
    requires Enabled(w, m) && Shape(w)
    ensures Selected(w) <= Selected(Apply(w, m)) && w.submitted <= Apply(w, m).submitted
    ensures |Selected(Apply(w, m))| <= |Selected(w)| + 1
  {
  }

  /** A queued command leaves its queue only by being selected. */
  lemma StepKeepsQueued(w: Worker, m: Move, d: Command)
    requires Shape(w) && Enabled(w, m) && d in w.queues[d.priority]
    ensures |Apply(w, m).queues| == 5
    ensures d in Apply(w, m).queues[d.priority] || d in Selected(Apply(w, m))
  {
    hide Shape;
    var v := Apply(w, m);
    if m == Select {
      var p := FirstNonEmpty(w.queues);
      if p == d.priority {
        HeadTail(w.queues[p]);
        assert Held(v) == [w.queues[p][0]];
      }
    } else if m == DrainOne {
      var c := w.channel[0];
      assert d in w.queues[d.priority] + [c];
    }
  }

  /** Whatever is newly selected while `d` stays queued outranks it. */
  lemma StepSelectsBetter(w: Worker, m: Move, d: Command)
    requires Inv(w) && Enabled(w, m) && Inv(Apply(w, m))
    requires d in w.queues[d.priority] && d in Apply(w, m).queues[d.priority]
    requires |Selected(Apply(w, m))| > |Selected(w)|
    ensures Outranks(Apply(w, m), Selected(Apply(w, m))[|Selected(w)|], d)
  {
    hide Conserved, NoRepeat, Of, Without;
    var v := Apply(w, m);
    assert m == Select && v.hand.Some?;
    var p := FirstNonEmpty(w.queues);
    var c := v.hand.value;
    assert Selected(v)[|Selected(w)|] == c;
    assert p <= d.priority;
    assert c.priority == p;
    if p == d.priority {
      assert Lane(v, p) == Without(Of(v.submitted, p), v.rejected);
      HeldBeforeQueued(v, c, d);
      OrderOfFiltered(v.submitted, p, v.rejected, c, d);
    }
  }

  lemma HeldBeforeQueued(v: Worker, c: Command, d: Command)
    requires |v.queues| == 5 && v.hand == Some(c) && c.priority == d.priority && d in v.queues[d.priority]
    ensures Before(Lane(v, d.priority), c, d)
  {
    var p := d.priority;
    OfOne(c, p);
    var k :| 0 <= k < |v.queues[p]| && v.queues[p][k] == d;
    var n := |Of(v.executed, p)|;
    var lane := Lane(v, p);
    assert lane[n] == c;
    assert lane[n + 1 + k] == d;
  }

  /** No overtaking: while a command sits in a queue, every command selected is of
      strictly better priority, or of the same priority and submitted earlier. */
  lemma {:induction false} NoOvertaking(
    trace: seq<Worker>, moves: seq<Move>, capacity: nat, i: nat, j: nat, d: Command)
    requires IsRun(trace, moves, capacity) && i <= j < |trace|
    requires |trace[i].queues| == 5 && d in trace[i].queues[d.priority]
    requires d !in Selected(trace[j])
    ensures Selected(trace[i]) <= Selected(trace[j])
    ensures |trace[j].queues| == 5 && d in trace[j].queues[d.priority]
    ensures forall k :: |Selected(trace[i])| <= k < |Selected(trace[j])| ==>
              Outranks(trace[j], Selected(trace[j])[k], d)
    decreases j
  {
    hide Inv, Apply, Selected;
    if i == j {
    } else {
      var w, v, m := trace[j - 1], trace[j], moves[j - 1];
      ReachableInv(trace, moves, capacity, j - 1);
      ReachableInv(trace, moves, capacity, j);
      InvShape(w);
      StepGrows(w, m);
      NotSelectedYet(w, v, d);
      NoOvertaking(trace, moves, capacity, i, j - 1, d);
      StepKeepsQueued(w, m, d);
      forall k | |Selected(trace[i])| <= k < |Selected(v)|
        ensures Outranks(v, Selected(v)[k], d)
      {
        if k < |Selected(w)| {
          assert Selected(w)[k] == Selected(v)[k];
          OutranksStays(w, v, Selected(w)[k], d);
        } else {
          StepSelectsBetter(w, m, d);
        }
      }
    }
  }

  lemma InvShape(w: Worker)
    requires Inv(w)
    ensures Shape(w) && |w.queues| == 5
  {
  }

  lemma NotSelectedYet(w: Worker, v: Worker, d: Command)
    requires Selected(w) <= Selected(v) && d !in Selected(v)
    ensures d !in Selected(w)
  {
    assert forall k :: 0 <= k < |Selected(w)| ==> Selected(w)[k] == Selected(v)[k];
  }

  lemma OutranksStays(w: Worker, v: Worker, c: Command, d: Command)
    requires Outranks(w, c, d) && w.submitted <= v.submitted
    ensures Outranks(v, c, d)
  {
    if c.priority == d.priority && Before(w.submitted, c, d) {
      BeforeGrows(w.submitted, v.submitted, c, d);
    }
  }

  /** A command is taken straight from the channel only when all five queues are empty. */
  lemma StraightFromChannel(trace: seq<Worker>, moves: seq<Move>, capacity: nat, i: nat)
    requires IsRun(trace, moves, capacity) && i < |moves| && moves[i] == Select
    requires trace[i + 1].channel != trace[i].channel
    ensures forall p :: 0 <= p < 5 ==> |trace[i].queues| == 5 && trace[i].queues[p] == []
    ensures trace[i].channel != [] && trace[i + 1].hand == Some(trace[i].channel[0])
  {
    assert Enabled(trace[i], moves[i]);
  }

  lemma {:induction false} CountOnce(s: seq<Command>, c: Command)
    requires NoRepeat(s)
    ensures multiset(s)[c] == if c in s then 1 else 0
  {
    if s == [] {
    } else {
      var n := |s| - 1;
      CountOnce(s[..n], c);
      assert s == s[..n] + [s[n]];
      assert s[n] !in s[..n];
    }
  }

  /** In every reachable state of every run: conservation, per-priority order, and bounded queues. */
  lemma SchedulerSafety(trace: seq<Worker>, moves: seq<Move>, capacity: nat, i: nat)
    requires IsRun(trace, moves, capacity) && i < |trace|
    ensures var w := trace[i];
            && |w.queues| == 5
            && multiset(w.submitted) == multiset(w.executed) + multiset(w.rejected)
                                        + multiset(Held(w)) + QueueBag(w.queues) + multiset(w.channel)
            && (forall p: Priority ::
                  Of(w.executed, p) + Of(Held(w), p) + w.queues[p] + Of(w.channel, p)
                  == Without(Of(w.submitted, p), w.rejected))
            && (forall p: Priority :: |w.queues[p]| <= if capacity == 0 then 1 else capacity)
            && |w.channel| <= if capacity == 0 then 1 else 5 * capacity
  {
    hide Of, Without, QueueBag;
    ReachableInv(trace, moves, capacity, i);
    CapacityStays(trace, moves, capacity, i);
    var w := trace[i];
    forall p: Priority
      ensures Of(w.executed, p) + Of(Held(w), p) + w.queues[p] + Of(w.channel, p)
           == Without(Of(w.submitted, p), w.rejected)
    {
      assert Lane(w, p) == Without(Of(w.submitted, p), w.rejected);
    }
  }

  lemma {:induction false} CapacityStays(trace: seq<Worker>, moves: seq<Move>, capacity: nat, i: nat)
    requires IsRun(trace, moves, capacity) && i < |trace|
    ensures trace[i].capacity == Max1(capacity) && trace[i].channelCapacity == Max1(5 * capacity)
  {
    if i == 0 {
    } else {
      CapacityStays(trace, moves, capacity, i - 1);
      assert Enabled(trace[i - 1], moves[i - 1]);
    }
  }

  /** A received command is rejected exactly when the queue of its priority already holds
      its capacity, and otherwise joins the end of that queue. */
  lemma RejectedIffQueueFull(trace: seq<Worker>, moves: seq<Move>, capacity: nat, i: nat)
    requires IsRun(trace, moves, capacity) && i < |moves| && moves[i] == DrainOne
    ensures var w, v := trace[i], trace[i + 1];
            && |w.queues| == 5 && w.channel != []
            && var c, full := w.channel[0], if capacity == 0 then 1 else capacity;
               && v.channel == w.channel[1..]
               && v.rejected == (if |w.queues[c.priority]| == full then w.rejected + [c] else w.rejected)
               && v.queues == (if |w.queues[c.priority]| == full then w.queues
                               else w.queues[c.priority := w.queues[c.priority] + [c]])
  {
    hide Conserved, NoRepeat, InOrder;
    assert Enabled(trace[i], moves[i]);
    ReachableInv(trace, moves, capacity, i);
    CapacityStays(trace, moves, capacity, i);
    SchedulerSafety(trace, moves, capacity, i);
    InvShape(trace[i]);
    DrainEffect(trace[i]);
  }

  /** A new command can be submitted exactly while the channel is open and not full. */
  lemma SubmittableIff(trace: seq<Worker>, moves: seq<Move>, capacity: nat, i: nat, c: Command)
    requires IsRun(trace, moves, capacity) && i < |trace| && c !in trace[i].submitted
    ensures Enabled(trace[i], Submit(c)) <==>
            !trace[i].closed && |trace[i].channel| < if capacity == 0 then 1 else 5 * capacity
  {
    hide Conserved, NoRepeat, InOrder;
    CapacityStays(trace, moves, capacity, i);
    SchedulerSafety(trace, moves, capacity, i);
  }

  /** When the worker has returned, every submitted command was answered exactly
      once, by its result or by a rejection, and nothing else was answered. */
  lemma AnsweredExactlyOnce(trace: seq<Worker>, moves: seq<Move>, capacity: nat, i: nat)
    requires IsRun(trace, moves, capacity) && i < |trace| && trace[i].phase == Returned
    ensures forall c :: multiset(trace[i].executed + trace[i].rejected)[c] == if c in trace[i].submitted then 1 else 0
  {
    ReachableInv(trace, moves, capacity, i);
    var w := trace[i];
    QueuesEmpty(w.queues);
    QueueBagEmpty(w.queues);
    assert multiset(w.submitted) == multiset(w.executed) + multiset(w.rejected);
    assert multiset(w.executed + w.rejected) == multiset(w.submitted);
    forall c
      ensures multiset(w.executed + w.rejected)[c] == if c in w.submitted then 1 else 0
    {
      CountOnce(w.submitted, c);
    }
  }
}
