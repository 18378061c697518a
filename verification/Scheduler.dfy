/** The priority command scheduler of crates/mgba/src/scheduler.rs as a step
    machine: submissions may come between any two steps of the worker. */
module Scheduler {
  import opened Bytes

  /** Control 0, MemoryRead 1, Health 2, State 3, FrameCapture 4. */
  type Priority = p: nat | p < 5

  /** `requestId` is a fresh UUID; message, kind and timeout play no part in scheduling. */
  datatype Command = Command(requestId: nat, priority: Priority)

  /** Where the worker loop stands: choosing a command, the two calls of
      `drain_available` around `execute`, or done. */
  datatype Phase = Selecting | DrainBefore | Executing | DrainAfter | Returned

  /** `channel` is the bounded mpsc channel; `submitted`, `executed` and `rejected`
      record what entered it and how each command was answered. */
  datatype Worker = Worker(
    capacity: nat, channelCapacity: nat, closed: bool, submitted: seq<Command>,
    channel: seq<Command>, queues: seq<seq<Command>>, hand: Option<Command>,
    executed: seq<Command>, rejected: seq<Command>, phase: Phase)

  function Max1(n: nat): nat {
    if n == 0 then 1 else n
  }

  /** `CommandScheduler::new`. */
  function Init(capacityPerPriority: nat): Worker {
    Worker(Max1(capacityPerPriority), Max1(5 * capacityPerPriority), false, [], [],
           [[], [], [], [], []], None, [], [], Selecting)
  }

  datatype Move = Submit(c: Command) | Close | Select | DrainOne | DrainDone | Execute

  function FirstNonEmpty(queues: seq<seq<Command>>): (p: nat)
    ensures p <= |queues|
    ensures p < |queues| ==> queues[p] != []
    ensures forall q :: 0 <= q < p ==> queues[q] == []
  {
    if queues == [] || queues[0] != [] then 0 else 1 + FirstNonEmpty(queues[1..])
  }

  predicate Draining(w: Worker) {
    w.phase == DrainBefore || w.phase == DrainAfter
  }

  predicate Enabled(w: Worker, m: Move) {
    && |w.queues| == 5
    && match m
       case Submit(c) => !w.closed && |w.channel| < w.channelCapacity && c !in w.submitted
       case Close => !w.closed
       case Select => w.phase == Selecting && (FirstNonEmpty(w.queues) < 5 || w.channel != [] || w.closed)
       case DrainOne => Draining(w) && w.channel != []
       case DrainDone => Draining(w) && w.channel == []
       case Execute => w.phase == Executing && w.hand.Some?
  }

  function Apply(w: Worker, m: Move): Worker
    requires Enabled(w, m)
  {
    match m
    case Submit(c) => w.(submitted := w.submitted + [c], channel := w.channel + [c])
    case Close => w.(closed := true)
    case Select =>
      var p := FirstNonEmpty(w.queues);
      if p < 5 then w.(hand := Some(w.queues[p][0]), queues := w.queues[p := w.queues[p][1..]], phase := DrainBefore)
      else if w.channel != [] then w.(hand := Some(w.channel[0]), channel := w.channel[1..], phase := DrainBefore)
      else w.(phase := Returned)
    case DrainOne =>
      var c := w.channel[0];
      var rest := w.(channel := w.channel[1..]);
      if |w.queues[c.priority]| >= w.capacity then rest.(rejected := w.rejected + [c])
      else rest.(queues := w.queues[c.priority := w.queues[c.priority] + [c]])
    case DrainDone => w.(phase := if w.phase == DrainBefore then Executing else Selecting)
    case Execute => w.(executed := w.executed + [w.hand.value], hand := None, phase := DrainAfter)
  }

  /** A run of the worker and its clients, interleaved in any way. */
  ghost predicate IsRun(trace: seq<Worker>, moves: seq<Move>, capacityPerPriority: nat) {
    && |trace| == |moves| + 1 && trace[0] == Init(capacityPerPriority)
    && forall i :: 0 <= i < |moves| ==> Enabled(trace[i], moves[i]) && trace[i + 1] == Apply(trace[i], moves[i])
  }

  function Held(w: Worker): seq<Command> {
    if w.hand.Some? then [w.hand.value] else []
  }

  function QueueBag(queues: seq<seq<Command>>): multiset<Command> {
    if queues == [] then multiset{} else multiset(queues[0]) + QueueBag(queues[1..])
  }

  /** Nothing is lost or duplicated. */
  predicate Conserved(w: Worker) {
    multiset(w.submitted)
    == multiset(w.executed) + multiset(w.rejected) + multiset(Held(w)) + QueueBag(w.queues) + multiset(w.channel)
  }

  /** The commands of priority `p`, in order. */
  function Of(s: seq<Command>, p: Priority): (r: seq<Command>)
    ensures forall c :: c in r <==> c in s && c.priority == p
  {
    if s == [] then []
    else Of(s[..|s| - 1], p) + if s[|s| - 1].priority == p then [s[|s| - 1]] else []
  }

  function Without(s: seq<Command>, bad: seq<Command>): (r: seq<Command>)
    ensures forall c :: c in r <==> c in s && c !in bad
  {
    if s == [] then []
    else Without(s[..|s| - 1], bad) + if s[|s| - 1] in bad then [] else [s[|s| - 1]]
  }

  /** One priority's commands in the order they are served: done, in hand, queued, still in the channel. */
  function Lane(w: Worker, p: Priority): seq<Command>
    requires |w.queues| == 5
  {
    Of(w.executed, p) + Of(Held(w), p) + w.queues[p] + Of(w.channel, p)
  }

  /** Each lane is the submission order with only the rejected commands removed. */
  ghost predicate InOrder(w: Worker)
    requires |w.queues| == 5
  {
    forall p: Priority :: Lane(w, p) == Without(Of(w.submitted, p), w.rejected)
  }

  ghost predicate NoRepeat(s: seq<Command>) {
    forall i, j :: 0 <= i < j < |s| ==> s[i] != s[j]
  }

  ghost predicate Shape(w: Worker) {
    && |w.queues| == 5 && w.capacity > 0
    && (forall p :: 0 <= p < 5 ==> |w.queues[p]| <= w.capacity)
    && (forall p, i :: 0 <= p < 5 && 0 <= i < |w.queues[p]| ==> w.queues[p][i].priority == p)
    && |w.channel| <= w.channelCapacity
    && (w.hand.Some? <==> w.phase == DrainBefore || w.phase == Executing)
    && (w.phase == Returned ==> w.closed && w.channel == [] && FirstNonEmpty(w.queues) == 5)
  }

  ghost predicate Inv(w: Worker) {
    Shape(w) && Conserved(w) && NoRepeat(w.submitted) && InOrder(w)
  }

  lemma OfSnoc(s: seq<Command>, c: Command, p: Priority)
    ensures Of(s + [c], p) == Of(s, p) + if c.priority == p then [c] else []
  {
    assert (s + [c])[..|s|] == s;
  }

  lemma {:induction false} OfAppend(s: seq<Command>, t: seq<Command>, p: Priority)
    ensures Of(s + t, p) == Of(s, p) + Of(t, p)
  {
    hide Of;
    if t == [] {
      assert s + t == s;
      OfNone(p);
    } else {
      var init, c := t[..|t| - 1], t[|t| - 1];
      OfAppend(s, init, p);
      assert t == init + [c] && s + t == (s + init) + [c];
      OfSnoc(s + init, c, p);
      OfSnoc(init, c, p);
    }
  }

  lemma WithoutSnoc(s: seq<Command>, c: Command, bad: seq<Command>)
    ensures Without(s + [c], bad) == Without(s, bad) + if c in bad then [] else [c]
  {
    assert (s + [c])[..|s|] == s;
  }

  lemma WithoutEmpty(bad: seq<Command>)
    ensures Without([], bad) == []
  {
  }

  lemma {:induction false} WithoutAppend(s: seq<Command>, t: seq<Command>, bad: seq<Command>)
    ensures Without(s + t, bad) == Without(s, bad) + Without(t, bad)
  {
    hide Without;
    if t == [] {
      assert s + t == s;
      WithoutEmpty(bad);
    } else {
      var init, c := t[..|t| - 1], t[|t| - 1];
      WithoutAppend(s, init, bad);
      assert t == init + [c] && s + t == (s + init) + [c];
      WithoutSnoc(s + init, c, bad);
      WithoutSnoc(init, c, bad);
    }
  }

  lemma {:induction false} WithoutNone(s: seq<Command>, bad: seq<Command>)
    requires forall c :: c in s ==> c !in bad
    ensures Without(s, bad) == s
  {
    if s == [] {
    } else {
      var n := |s| - 1;
      WithoutNone(s[..n], bad);
      assert s[n] in s && s == s[..n] + [s[n]];
    }
  }

  lemma {:induction false} WithoutTwice(s: seq<Command>, bad: seq<Command>, c: Command)
    ensures Without(s, bad + [c]) == Without(Without(s, bad), [c])
  {
    if s == [] {
    } else {
      var n := |s| - 1;
      WithoutTwice(s[..n], bad, c);
      WithoutAppend(Without(s[..n], bad), if s[n] in bad then [] else [s[n]], [c]);
      assert Without([s[n]], [c]) == if s[n] == c then [] else [s[n]] by {
        assert [s[n]][..0] == [];
      }
    }
  }

  lemma {:induction false} QueueBagUpdate(queues: seq<seq<Command>>, p: nat, q: seq<Command>)
    requires p < |queues|
    ensures QueueBag(queues[p := q]) + multiset(queues[p]) == QueueBag(queues) + multiset(q)
  {
    var u := queues[p := q];
    assert QueueBag(u) == multiset(u[0]) + QueueBag(u[1..]);
    if p > 0 {
      QueueBagUpdate(queues[1..], p - 1, q);
      assert u[1..] == queues[1..][p - 1 := q];
      var h, x, y := multiset(queues[0]), QueueBag(u[1..]), QueueBag(queues[1..]);
      assert (h + x) + multiset(queues[p]) == h + (x + multiset(queues[p])) == h + (y + multiset(q));
      assert h + (y + multiset(q)) == (h + y) + multiset(q);
    } else {
      assert u[1..] == queues[1..];
    }
  }

  lemma {:induction false} QueueBagMember(queues: seq<seq<Command>>, p: nat, c: Command)
    requires p < |queues| && c in queues[p]
    ensures c in QueueBag(queues)
  {
    if p == 0 {
    } else {
      QueueBagMember(queues[1..], p - 1, c);
    }
  }

  lemma {:induction false} QueueBagEmpty(queues: seq<seq<Command>>)
    requires forall p :: 0 <= p < |queues| ==> queues[p] == []
    ensures QueueBag(queues) == multiset{}
  {
    if queues == [] {
    } else {
      QueueBagEmpty(queues[1..]);
    }
  }

  lemma HeadTail(s: seq<Command>)
    requires s != []
    ensures s == [s[0]] + s[1..] && multiset(s) == multiset{s[0]} + multiset(s[1..])
  {
    assert s == [s[0]] + s[1..];
  }

  lemma Cancel(a: multiset<Command>, b: multiset<Command>, c: Command, r: multiset<Command>)
    requires a + (multiset{c} + r) == b + r
    ensures multiset{c} + a == b
  {
    forall x
      ensures (multiset{c} + a)[x] == b[x]
    {
      assert (a + (multiset{c} + r))[x] == (b + r)[x];
    }
  }

  lemma SelectConserves(w: Worker)
    requires Shape(w) && Conserved(w) && Enabled(w, Select)
    ensures Conserved(Apply(w, Select))
  {
    hide FirstNonEmpty, QueueBag;
    var p := FirstNonEmpty(w.queues);
    assert Held(w) == [];
    if p < 5 {
      HeadTail(w.queues[p]);
      QueueBagUpdate(w.queues, p, w.queues[p][1..]);
      Cancel(QueueBag(Apply(w, Select).queues), QueueBag(w.queues), w.queues[p][0], multiset(w.queues[p][1..]));
    } else if w.channel != [] {
      HeadTail(w.channel);
    }
  }

  lemma QueueBagPush(queues: seq<seq<Command>>, c: Command)
    requires |queues| == 5
    ensures QueueBag(queues[c.priority := queues[c.priority] + [c]]) == multiset{c} + QueueBag(queues)
  {
    hide QueueBag;
    var q := queues[c.priority];
    QueueBagUpdate(queues, c.priority, q + [c]);
    Cancel(QueueBag(queues), QueueBag(queues[c.priority := q + [c]]), c, multiset(q));
  }

  /** One received command is rejected or queued. */
  lemma DrainEffect(w: Worker)
    requires Shape(w) && Enabled(w, DrainOne)
    ensures |w.queues| == 5 && w.channel != []
    ensures var c, rest := w.channel[0], w.(channel := w.channel[1..]);
            Apply(w, DrainOne) == if |w.queues[c.priority]| >= w.capacity then rest.(rejected := w.rejected + [c])
                                  else rest.(queues := w.queues[c.priority := w.queues[c.priority] + [c]])
  {
  }

  lemma DrainConserves(w: Worker)
    requires Shape(w) && Conserved(w) && Enabled(w, DrainOne)
    ensures Conserved(Apply(w, DrainOne))
  {
    DrainEffect(w);
    hide Apply, Enabled, Shape, QueueBag;
    var c := w.channel[0];
    HeadTail(w.channel);
    if |w.queues[c.priority]| >= w.capacity {
      assert multiset(w.rejected + [c]) == multiset(w.rejected) + multiset{c};
    } else {
      QueueBagPush(w.queues, c);
    }
  }

  lemma StepConserves(w: Worker, m: Move)
    requires Shape(w) && Conserved(w) && Enabled(w, m)
    ensures Conserved(Apply(w, m))
  {
    hide FirstNonEmpty, QueueBag;
    match m
    case Submit(c) =>
    case Close =>
    case Select => SelectConserves(w);
    case DrainOne => DrainConserves(w);
    case DrainDone =>
    case Execute =>
  }

  lemma StepKeepsShape(w: Worker, m: Move)
    requires Shape(w) && Enabled(w, m)
    ensures Shape(Apply(w, m))
  {
  }

  lemma OfNone(p: Priority)
    ensures Of([], p) == []
  {
  }

  lemma OfOne(c: Command, p: Priority)
    ensures Of([c], p) == if c.priority == p then [c] else []
  {
    assert [c][..0] == [];
  }

  lemma SelectOnLane(w: Worker, p: Priority)
    requires Shape(w) && Enabled(w, Select)
    ensures |Apply(w, Select).queues| == 5 && Lane(Apply(w, Select), p) == Lane(w, p)
  {
    hide FirstNonEmpty, Of;
    var v := Apply(w, Select);
    var q := FirstNonEmpty(w.queues);
    assert Held(w) == [];
    OfNone(p);
    if q < 5 {
      HeadTail(w.queues[q]);
      OfOne(w.queues[q][0], p);
      assert Of(Held(v), p) + v.queues[p] == w.queues[p];
    } else if w.channel != [] {
      HeadTail(w.channel);
      OfAppend([w.channel[0]], w.channel[1..], p);
      QueuesEmpty(w.queues);
    }
  }

  lemma DrainOnLane(w: Worker, p: Priority)
    requires Shape(w) && Enabled(w, DrainOne)
    ensures var v, c := Apply(w, DrainOne), w.channel[0];
            var a, b := Of(w.executed, p) + Of(Held(w), p) + w.queues[p], Of(w.channel[1..], p);
            && Lane(w, p) == a + Of([c], p) + b
            && Lane(v, p) == a + (if v.rejected == w.rejected then Of([c], p) else []) + b
  {
    DrainEffect(w);
    hide Apply, Enabled, Shape, Of, Lane;
    var c, v := w.channel[0], Apply(w, DrainOne);
    OfOne(c, p);
    LaneWithHead(w, p);
    LaneAfterDrain(w, v, p, if v.rejected == w.rejected then Of([c], p) else []);
  }

  lemma LaneWithHead(w: Worker, p: Priority)
    requires |w.queues| == 5 && w.channel != []
    ensures Lane(w, p) == Of(w.executed, p) + Of(Held(w), p) + w.queues[p]
                          + Of([w.channel[0]], p) + Of(w.channel[1..], p)
  {
    HeadTail(w.channel);
    OfAppend([w.channel[0]], w.channel[1..], p);
    hide Of;
    Regroup(Of(w.executed, p) + Of(Held(w), p) + w.queues[p], Of([w.channel[0]], p), Of(w.channel[1..], p));
  }

  lemma LaneAfterDrain(w: Worker, v: Worker, p: Priority, more: seq<Command>)
    requires |w.queues| == 5 && |v.queues| == 5 && w.channel != []
    requires v.executed == w.executed && v.hand == w.hand && v.channel == w.channel[1..]
    requires v.queues[p] == w.queues[p] + more
    ensures Lane(v, p) == Of(w.executed, p) + Of(Held(w), p) + w.queues[p] + more + Of(w.channel[1..], p)
  {
    hide Of;
    Regroup(Of(w.executed, p) + Of(Held(w), p), w.queues[p], more);
  }

  lemma Regroup(a: seq<Command>, b: seq<Command>, c: seq<Command>)
    ensures a + (b + c) == a + b + c
  {
  }

  /** A step changes a lane only by extending it with a submission or by taking
      a rejected command out. */
  lemma StepOnLane(w: Worker, m: Move, p: Priority)
    requires Shape(w) && Enabled(w, m)
    ensures var v := Apply(w, m);
            && |v.queues| == 5
            && (m.Submit? ==> Lane(v, p) == Lane(w, p) + Of([m.c], p))
            && (!m.Submit? && v.rejected == w.rejected ==> Lane(v, p) == Lane(w, p))
            && (!m.Submit? ==> v.submitted == w.submitted)
            && (v.rejected != w.rejected ==> m == DrainOne && v.rejected == w.rejected + [w.channel[0]])
  {
    hide FirstNonEmpty, Of;
    match m
    case Submit(c) => OfAppend(w.channel, [c], p);
    case Close =>
    case Select => SelectOnLane(w, p);
    case DrainOne => DrainOnLane(w, p);
    case DrainDone =>
    case Execute =>
      OfAppend(w.executed, [w.hand.value], p);
      OfNone(p);
  }

  lemma QueuesEmpty(queues: seq<seq<Command>>)
    requires FirstNonEmpty(queues) == |queues|
    ensures forall p :: 0 <= p < |queues| ==> queues[p] == []
  {
  }

  lemma {:induction false} OfNoRepeat(s: seq<Command>, p: Priority)
    requires NoRepeat(s)
    ensures NoRepeat(Of(s, p))
  {
    if s == [] {
    } else {
      OfNoRepeat(s[..|s| - 1], p);
      assert s[|s| - 1] !in s[..|s| - 1];
    }
  }

  lemma {:induction false} WithoutNoRepeat(s: seq<Command>, bad: seq<Command>)
    requires NoRepeat(s)
    ensures NoRepeat(Without(s, bad))
  {
    if s == [] {
    } else {
      WithoutNoRepeat(s[..|s| - 1], bad);
      assert s[|s| - 1] !in s[..|s| - 1];
    }
  }

  lemma WithoutOne(c: Command, bad: seq<Command>)
    ensures Without([c], bad) == if c in bad then [] else [c]
  {
    assert [c][..0] == [];
  }

  lemma OnlyOnce(a: seq<Command>, c: Command, b: seq<Command>)
    requires NoRepeat(a + [c] + b)
    ensures c !in a && c !in b
  {
    var s := a + [c] + b;
    assert s[|a|] == c;
    assert forall i :: 0 <= i < |a| ==> s[i] == a[i];
    assert forall i :: 0 <= i < |b| ==> s[|a| + 1 + i] == b[i];
  }

  lemma RemoveFromLane(a: seq<Command>, c: Command, b: seq<Command>, one: seq<Command>)
    requires c !in a && c !in b && (one == [] || one == [c])
    ensures Without(a + one + b, [c]) == a + b
  {
    hide Without;
    WithoutAppend(a + one, b, [c]);
    WithoutAppend(a, one, [c]);
    WithoutNone(a, [c]);
    WithoutNone(b, [c]);
    WithoutOne(c, [c]);
    WithoutNone([], [c]);
  }

  lemma StepKeepsOrder(w: Worker, m: Move, p: Priority)
    requires Inv(w) && Enabled(w, m)
    ensures Lane(Apply(w, m), p) == Without(Of(Apply(w, m).submitted, p), Apply(w, m).rejected)
  {
    hide Lane, Conserved;
    var v := Apply(w, m);
    StepOnLane(w, m, p);
    assert Lane(w, p) == Without(Of(w.submitted, p), w.rejected);
    if m.Submit? {
      RejectedWereSubmitted(w);
      OfAppend(w.submitted, [m.c], p);
      OfOne(m.c, p);
      WithoutAppend(Of(w.submitted, p), Of([m.c], p), w.rejected);
      WithoutOne(m.c, w.rejected);
    } else if v.rejected != w.rejected {
      RejectionOnLane(w, p);
    }
  }

  lemma RejectionOnLane(w: Worker, p: Priority)
    requires Inv(w) && Enabled(w, DrainOne) && Apply(w, DrainOne).rejected != w.rejected
    ensures Lane(Apply(w, DrainOne), p) == Without(Of(w.submitted, p), w.rejected + [w.channel[0]])
  {
    hide Conserved, Of, Without;
    var c := w.channel[0];
    var a, b := Of(w.executed, p) + Of(Held(w), p) + w.queues[p], Of(w.channel[1..], p);
    DrainOnLane(w, p);
    OfOne(c, p);
    OfNoRepeat(w.submitted, p);
    WithoutNoRepeat(Of(w.submitted, p), w.rejected);
    if c.priority == p {
      OnlyOnce(a, c, b);
    }
    WithoutTwice(Of(w.submitted, p), w.rejected, c);
    RemoveFromLane(a, c, b, Of([c], p));
  }

  lemma RejectedWereSubmitted(w: Worker)
    requires Conserved(w)
    ensures forall c :: c in w.rejected ==> c in w.submitted
  {
    forall c | c in w.rejected
      ensures c in w.submitted
    {
      assert c in multiset(w.submitted);
    }
  }

  lemma StepKeepsInv(w: Worker, m: Move)
    requires Inv(w) && Enabled(w, m)
    ensures Inv(Apply(w, m))
  {
    hide Lane, Conserved, Shape, Of, Without;
    StepKeepsShape(w, m);
    StepConserves(w, m);
    forall p: Priority
      ensures Lane(Apply(w, m), p) == Without(Of(Apply(w, m).submitted, p), Apply(w, m).rejected)
    {
      StepKeepsOrder(w, m, p);
    }
  }

  lemma {:induction false} ReachableInv(trace: seq<Worker>, moves: seq<Move>, capacityPerPriority: nat, i: nat)
    requires IsRun(trace, moves, capacityPerPriority) && i < |trace|
    ensures Inv(trace[i])
  {
    if i == 0 {
      InitInv(capacityPerPriority);
    } else {
      ReachableInv(trace, moves, capacityPerPriority, i - 1);
      StepKeepsInv(trace[i - 1], moves[i - 1]);
    }
  }

  lemma InitInv(capacityPerPriority: nat)
    ensures Inv(Init(capacityPerPriority))
  {
    var w := Init(capacityPerPriority);
    QueueBagEmpty(w.queues);
  }
}
