/** What each lock-protected action does to the tracked instances, and how calls end,
    over every run of InstanceAdmission. */
module InstanceMoves {
  import opened Bytes
  import opened InstanceAdmission

  /** Which moves change the tracked instances, and how. */
  lemma InstancesChange(trace: seq<Manager>, moves: seq<Move>, max: nat, i: nat)
    requires IsRun(trace, moves, max) && i < |moves|
    ensures var m, n, a := trace[i], trace[i + 1], moves[i];
            && (a.Insert? ==> a.t in m.tasks && m.tasks[a.t].Spawned?
                              && n.instances == m.instances + {m.tasks[a.t].id})
            && (a.Remove? ==> a.t in m.tasks && m.tasks[a.t].Removing?
                              && n.instances == m.instances - {m.tasks[a.t].id})
            && (a.Clear? ==> n.instances == {})
            && (!a.Insert? && !a.Remove? && !a.Clear? ==> n.instances == m.instances)
  {
    assert Enabled(trace[i], moves[i]);
  }

  /** A call keeps to the instance it was called for. */
  predicate DestroysOnly(task: Task, id: Id) {
    match task
    case Looking(x) => x == id
    case Stopping(x) => x == id
    case Removing(x) => x == id
    case Destroyed => true
    case NotFound => true
    case StopFailed => true
    case Cancelled => true
    case _ => false
  }

  lemma {:induction false} DestroyKeepsTo(
    trace: seq<Manager>, moves: seq<Move>, max: nat, j: nat, i: nat, t: Tid, id: Id)
    requires IsRun(trace, moves, max) && j < i < |trace| && moves[j] == Call(t, Looking(id))
    ensures t in trace[i].tasks && DestroysOnly(trace[i].tasks[t], id)
  {
    assert Enabled(trace[i - 1], moves[i - 1]);
    if i == j + 1 {
    } else {
      DestroyKeepsTo(trace, moves, max, j, i - 1, t, id);
      DestroyStays(trace[i - 1], moves[i - 1], t, id);
    }
  }

  lemma DestroyStays(m: Manager, a: Move, t: Tid, id: Id)
    requires Enabled(m, a) && t in m.tasks && DestroysOnly(m.tasks[t], id)
    ensures t in Apply(m, a).tasks && DestroysOnly(Apply(m, a).tasks[t], id)
  {
  }

  /** The removal of a destroy called for `id` removes exactly `id`. */
  lemma DestroyRemoves(trace: seq<Manager>, moves: seq<Move>, max: nat, j: nat, i: nat, t: Tid, id: Id)
    requires IsRun(trace, moves, max) && j < i < |moves|
    requires moves[j] == Call(t, Looking(id)) && moves[i] == Remove(t)
    ensures trace[i + 1].instances == trace[i].instances - {id}
    ensures t in trace[i + 1].tasks && trace[i + 1].tasks[t] == Destroyed
  {
    DestroyKeepsTo(trace, moves, max, j, i, t, id);
    assert Enabled(trace[i], moves[i]);
  }

  /** Looking up ends in `NotFound` exactly when the instance is not tracked. */
  lemma FindOutcome(trace: seq<Manager>, moves: seq<Move>, max: nat, j: nat, i: nat, t: Tid, id: Id)
    requires IsRun(trace, moves, max) && j < i < |moves|
    requires moves[j] == Call(t, Looking(id)) && moves[i] == Find(t)
    ensures t in trace[i + 1].tasks
    ensures trace[i + 1].tasks[t] == if id in trace[i].instances then Stopping(id) else NotFound
  {
    DestroyKeepsTo(trace, moves, max, j, i, t, id);
    assert Enabled(trace[i], moves[i]);
  }

  /** How far a call has come, in terms of the moves it has made. */
  ghost predicate Made(moves: seq<Move>, n: nat, a: Move) {
    exists k :: 0 <= k < n <= |moves| && moves[k] == a
  }

  lemma MadeStep(moves: seq<Move>, n: nat, a: Move)
    requires n < |moves|
    ensures Made(moves, n + 1, a) <==> Made(moves, n, a) || moves[n] == a
  {
    if moves[n] == a {
      assert Made(moves, n + 1, a);
    }
    if Made(moves, n, a) {
      var k :| 0 <= k < n && moves[k] == a;
      assert Made(moves, n + 1, a);
    }
    if Made(moves, n + 1, a) && moves[n] != a {
      var k :| 0 <= k < n + 1 && moves[k] == a;
      assert k < n;
    }
  }

  ghost predicate HistoryOk(m: Manager, moves: seq<Move>, n: nat, t: Tid) {
    var task := if t in m.tasks then m.tasks[t] else Starting;
    && (task.Inserted? || task.Created? ==> Made(moves, n, Insert(t)))
    && (Made(moves, n, Insert(t)) ==> task.Inserted? || task.Created? || task.Leaked?)
    && (task.Failed? || task.Errored? ==> Made(moves, n, BackendErr(t)))
    && (Made(moves, n, BackendErr(t)) ==> task.Failed? || task.Errored? || task.Leaked?)
    && (task.Removing? || task.Destroyed? ==> Made(moves, n, Stop(t, true)))
    && (task.Destroyed? <==> Made(moves, n, Remove(t)))
    && (task.StopFailed? <==> Made(moves, n, Stop(t, false)))
  }

  lemma {:induction false} History(trace: seq<Manager>, moves: seq<Move>, max: nat, n: nat, t: Tid)
    requires IsRun(trace, moves, max) && n < |trace|
    ensures HistoryOk(trace[n], moves, n, t)
  {
    if n == 0 {
    } else {
      hide Apply, Enabled, HistoryOk;
      History(trace, moves, max, n - 1, t);
      HistoryStep(trace[n - 1], moves, n - 1, t);
    }
  }

  lemma HistoryStep(m: Manager, moves: seq<Move>, n: nat, t: Tid)
    requires n < |moves| && Enabled(m, moves[n]) && HistoryOk(m, moves, n, t)
    ensures HistoryOk(Apply(m, moves[n]), moves, n + 1, t)
  {
    MadeStep(moves, n, Insert(t));
    MadeStep(moves, n, Remove(t));
    MadeStep(moves, n, Stop(t, true));
    MadeStep(moves, n, Stop(t, false));
    MadeStep(moves, n, BackendErr(t));
    hide Made;
  }

  /** A create ends as `Created` exactly when it inserted, as `Errored` exactly when the
      backend failed; a refused create did neither. */
  lemma CreateOutcome(trace: seq<Manager>, moves: seq<Move>, max: nat, n: nat, t: Tid)
    requires IsRun(trace, moves, max) && n < |trace| && t in trace[n].tasks
    requires trace[n].tasks[t].Created? || trace[n].tasks[t].Errored? || trace[n].tasks[t].Refused?
    ensures trace[n].tasks[t].Created? <==> Made(moves, n, Insert(t))
    ensures trace[n].tasks[t].Errored? <==> Made(moves, n, BackendErr(t))
  {
    History(trace, moves, max, n, t);
    hide Made;
  }

  /** A destroy ends as `Destroyed` exactly when it removed its instance, which a failed
      stop never does. */
  lemma DestroyOutcome(trace: seq<Manager>, moves: seq<Move>, max: nat, n: nat, t: Tid)
    requires IsRun(trace, moves, max) && n < |trace| && t in trace[n].tasks
    requires trace[n].tasks[t].Destroyed? || trace[n].tasks[t].NotFound? || trace[n].tasks[t].StopFailed?
    ensures trace[n].tasks[t].Destroyed? <==> Made(moves, n, Remove(t))
    ensures trace[n].tasks[t].StopFailed? <==> Made(moves, n, Stop(t, false))
    ensures trace[n].tasks[t].Destroyed? ==> Made(moves, n, Stop(t, true))
  {
    History(trace, moves, max, n, t);
    hide Made;
  }

  /** The moves of a create whose backend answers `worker`. */
  function CreateMoves(t: Tid, worker: Option<Id>): seq<Move> {
    [Call(t, Starting), Lock(t), Count(t), Reserve(t)]
    + if worker.Some? then [BackendOk(t, worker.value), Insert(t), Release(t)] else [BackendErr(t), Release(t)]
  }

  /** The state after some moves, as far as they are possible. */
  function After(m: Manager, moves: seq<Move>): Option<Manager>
    decreases |moves|
  {
    if moves == [] then Some(m)
    else if Enabled(m, moves[0]) then After(Apply(m, moves[0]), moves[1..])
    else None
  }

  /** A create that runs alone does what `create` promises its caller: it is refused at
      the limit, and otherwise tracks the new instance or reports the failure, and in
      the end the counter is back where it was. */
  lemma CreateAlone(m: Manager, t: Tid, worker: Option<Id>)
    requires m.lock == None && t !in m.tasks
    ensures |m.instances| + m.pending >= m.max ==>
              After(m, CreateMoves(t, worker)[..4]) == Some(At(m, t, Refused))
    ensures |m.instances| + m.pending < m.max ==>
              After(m, CreateMoves(t, worker)) ==
              Some(if worker.Some? then At(m.(instances := m.instances + {worker.value}), t, Created)
                   else At(m, t, Errored))
  {
    var moves := CreateMoves(t, worker);
    var m1 := At(m, t, Starting);
    var m2 := At(m.(lock := Some(t)), t, Locked);
    var m3 := At(m.(lock := Some(t)), t, Counted(|m.instances|));
    assert moves[..4] == [Call(t, Starting), Lock(t), Count(t), Reserve(t)];
    FourMoves(m, m1, m2, m3, t);
    if |m.instances| + m.pending < m.max {
      var m4 := At(m.(pending := m.pending + 1), t, Reserved);
      AfterJoin(m, moves[..4], moves[4..]);
      assert moves == moves[..4] + moves[4..];
      if worker.Some? {
        assert moves[4..] == [BackendOk(t, worker.value), Insert(t), Release(t)];
        ThreeMoves(m4, t, worker.value);
      } else {
        assert moves[4..] == [BackendErr(t), Release(t)];
        TwoMoves(m4, t);
      }
      assert m4.tasks[t := Created] == m.tasks[t := Created] && m4.tasks[t := Errored] == m.tasks[t := Errored];
    }
  }

  /** A destroy that runs alone does what `destroy` promises. */
  lemma DestroyAlone(m: Manager, t: Tid, id: Id)
    requires t !in m.tasks
    ensures id !in m.instances ==> After(m, [Call(t, Looking(id)), Find(t)]) == Some(At(m, t, NotFound))
    ensures id in m.instances ==>
              After(m, [Call(t, Looking(id)), Find(t), Stop(t, false)]) == Some(At(m, t, StopFailed))
    ensures id in m.instances ==>
              After(m, [Call(t, Looking(id)), Find(t), Stop(t, true), Remove(t)])
              == Some(At(m.(instances := m.instances - {id}), t, Destroyed))
  {
    if id !in m.instances {
      FindMisses(m, t, id);
    } else {
      StopFails(m, t, id);
      StopSucceeds(m, t, id);
    }
  }

  lemma FindMisses(m: Manager, t: Tid, id: Id)
    requires t !in m.tasks && id !in m.instances
    ensures After(m, [Call(t, Looking(id)), Find(t)]) == Some(At(m, t, NotFound))
  {
    var m1 := At(m, t, Looking(id));
    assert m1.tasks[t := NotFound] == m.tasks[t := NotFound];
    AfterOne(m, Call(t, Looking(id)), [Find(t)]);
    AfterOne(m1, Find(t), []);
  }

  lemma StopFails(m: Manager, t: Tid, id: Id)
    requires t !in m.tasks && id in m.instances
    ensures After(m, [Call(t, Looking(id)), Find(t), Stop(t, false)]) == Some(At(m, t, StopFailed))
  {
    var m1, m2 := At(m, t, Looking(id)), At(m, t, Stopping(id));
    assert m1.tasks[t := Stopping(id)] == m2.tasks && m2.tasks[t := StopFailed] == m.tasks[t := StopFailed];
    AfterOne(m, Call(t, Looking(id)), [Find(t), Stop(t, false)]);
    AfterOne(m1, Find(t), [Stop(t, false)]);
    AfterOne(m2, Stop(t, false), []);
  }

  lemma StopSucceeds(m: Manager, t: Tid, id: Id)
    requires t !in m.tasks && id in m.instances
    ensures After(m, [Call(t, Looking(id)), Find(t), Stop(t, true), Remove(t)])
         == Some(At(m.(instances := m.instances - {id}), t, Destroyed))
  {
    var m1, m2, m3 := At(m, t, Looking(id)), At(m, t, Stopping(id)), At(m, t, Removing(id));
    assert m1.tasks[t := Stopping(id)] == m2.tasks && m2.tasks[t := Removing(id)] == m3.tasks;
    assert m3.tasks[t := Destroyed] == m.tasks[t := Destroyed];
    AfterOne(m, Call(t, Looking(id)), [Find(t), Stop(t, true), Remove(t)]);
    AfterOne(m1, Find(t), [Stop(t, true), Remove(t)]);
    AfterOne(m2, Stop(t, true), [Remove(t)]);
    AfterOne(m3, Remove(t), []);
  }

  /** A reconstruction that runs alone forgets everything, unless listing or a stop fails. */
  lemma ReconstructAlone(m: Manager, t: Tid)
    requires t !in m.tasks
    ensures After(m, [Call(t, Listing), List(t, true), Clear(t)]) == Some(At(m.(instances := {}), t, Cleared))
    ensures After(m, [Call(t, Listing), List(t, false)]) == Some(At(m, t, ListFailed))
  {
    var m1, m2 := At(m, t, Listing), At(m, t, Clearing);
    assert m1.tasks[t := Clearing] == m2.tasks && m2.tasks[t := Cleared] == m.tasks[t := Cleared];
    assert m1.tasks[t := ListFailed] == m.tasks[t := ListFailed];
    AfterOne(m, Call(t, Listing), [List(t, true), Clear(t)]);
    AfterOne(m1, List(t, true), [Clear(t)]);
    AfterOne(m2, Clear(t), []);
    AfterOne(m, Call(t, Listing), [List(t, false)]);
    AfterOne(m1, List(t, false), []);
  }

  lemma FourMoves(m: Manager, m1: Manager, m2: Manager, m3: Manager, t: Tid)
    requires m.lock == None && t !in m.tasks
    requires m1 == At(m, t, Starting) && m2 == At(m.(lock := Some(t)), t, Locked)
    requires m3 == At(m.(lock := Some(t)), t, Counted(|m.instances|))
    ensures After(m, [Call(t, Starting), Lock(t), Count(t), Reserve(t)])
         == Some(if |m.instances| + m.pending >= m.max then At(m, t, Refused)
                 else At(m.(pending := m.pending + 1), t, Reserved))
  {
    assert m2.tasks == m1.tasks[t := Locked] && m3.tasks == m2.tasks[t := Counted(|m.instances|)];
    assert Apply(m, Call(t, Starting)) == m1 && Apply(m1, Lock(t)) == m2 && Apply(m2, Count(t)) == m3;
    var end := Apply(m3, Reserve(t));
    assert end.tasks == m.tasks[t := end.tasks[t]];
    AfterOne(m, Call(t, Starting), [Lock(t), Count(t), Reserve(t)]);
    AfterOne(m1, Lock(t), [Count(t), Reserve(t)]);
    AfterOne(m2, Count(t), [Reserve(t)]);
    AfterOne(m3, Reserve(t), []);
  }

  lemma ThreeMoves(m: Manager, t: Tid, id: Id)
    requires m.lock == None && t in m.tasks && m.tasks[t] == Reserved
    ensures After(m, [BackendOk(t, id), Insert(t), Release(t)])
         == Some(At(m.(instances := m.instances + {id}, pending := m.pending - 1), t, Created))
  {
    var m1 := At(m, t, Spawned(id));
    var m2 := At(m.(instances := m.instances + {id}), t, Inserted);
    SpawnAndInsert(m, m1, m2, t, id);
    ReleaseEnds(m2, t);
    assert m2.tasks[t := Created] == m.tasks[t := Created];
    hide Enabled, Apply;
    AfterOne(m, BackendOk(t, id), [Insert(t), Release(t)]);
    AfterOne(m1, Insert(t), [Release(t)]);
    AfterOne(m2, Release(t), []);
  }

  lemma SpawnAndInsert(m: Manager, m1: Manager, m2: Manager, t: Tid, id: Id)
    requires m.lock == None && t in m.tasks && m.tasks[t] == Reserved
    requires m1 == At(m, t, Spawned(id)) && m2 == At(m.(instances := m.instances + {id}), t, Inserted)
    ensures Enabled(m, BackendOk(t, id)) && Apply(m, BackendOk(t, id)) == m1
    ensures Enabled(m1, Insert(t)) && Apply(m1, Insert(t)) == m2
  {
    assert m2.tasks == m1.tasks[t := Inserted];
  }

  lemma ReleaseEnds(m: Manager, t: Tid)
    requires m.lock == None && t in m.tasks && m.tasks[t] == Inserted
    ensures Enabled(m, Release(t)) && Apply(m, Release(t)) == At(m.(pending := m.pending - 1), t, Created)
  {
  }

  lemma TwoMoves(m: Manager, t: Tid)
    requires m.lock == None && t in m.tasks && m.tasks[t] == Reserved
    ensures After(m, [BackendErr(t), Release(t)]) == Some(At(m.(pending := m.pending - 1), t, Errored))
  {
    var m1 := At(m, t, Failed);
    assert Apply(m, BackendErr(t)) == m1;
    assert m1.tasks[t := Errored] == m.tasks[t := Errored];
    AfterOne(m, BackendErr(t), [Release(t)]);
    AfterOne(m1, Release(t), []);
  }

  lemma AfterOne(m: Manager, a: Move, rest: seq<Move>)
    requires Enabled(m, a)
    ensures After(m, [a] + rest) == After(Apply(m, a), rest)
  {
    hide Enabled, Apply;
    assert ([a] + rest)[1..] == rest;
  }

  lemma {:induction false} AfterJoin(m: Manager, a: seq<Move>, b: seq<Move>)
    ensures After(m, a + b) == if After(m, a).Some? then After(After(m, a).value, b) else None
    decreases |a|
  {
    hide Enabled, Apply;
    if a == [] {
      assert a + b == b;
    } else {
      assert (a + b)[0] == a[0] && (a + b)[1..] == a[1..] + b;
      if Enabled(m, a[0]) {
        AfterJoin(Apply(m, a[0]), a[1..], b);
      }
    }
  }

  /** Exactly when a call can be cancelled: wherever it waits for a lock or the backend. */
  lemma CancellableIff(m: Manager, t: Tid)
    ensures Enabled(m, Cancel(t)) <==>
            && t in m.tasks
            && !m.tasks[t].Counted? && !m.tasks[t].Created? && !m.tasks[t].Refused? && !m.tasks[t].Errored?
            && !m.tasks[t].Destroyed? && !m.tasks[t].NotFound? && !m.tasks[t].StopFailed?
            && !m.tasks[t].Cleared? && !m.tasks[t].ListFailed? && !m.tasks[t].Cancelled? && !m.tasks[t].Leaked?
  {
  }

  /** A create cancelled while the backend works leaks: the counter stays raised. One
      cancelled while it holds the mutex lets go of it. */
  lemma CancelledCreate(m: Manager, t: Tid)
    requires m.lock == None && t !in m.tasks && |m.instances| + m.pending < m.max
    ensures After(m, [Call(t, Starting), Lock(t), Count(t), Reserve(t)] + [Cancel(t)])
         == Some(At(m.(pending := m.pending + 1), t, Leaked))
    ensures After(m, [Call(t, Starting), Lock(t), Cancel(t)]) == Some(At(m, t, Cancelled))
  {
    var m1, m2 := At(m, t, Starting), At(m.(lock := Some(t)), t, Locked);
    var m3, m4 := At(m.(lock := Some(t)), t, Counted(|m.instances|)), At(m.(pending := m.pending + 1), t, Reserved);
    FourMoves(m, m1, m2, m3, t);
    AfterJoin(m, [Call(t, Starting), Lock(t), Count(t), Reserve(t)], [Cancel(t)]);
    assert m4.tasks[t := Leaked] == m.tasks[t := Leaked];
    AfterOne(m4, Cancel(t), []);
    assert m1.tasks[t := Locked] == m2.tasks && m2.tasks[t := Cancelled] == m.tasks[t := Cancelled];
    AfterOne(m, Call(t, Starting), [Lock(t), Cancel(t)]);
    AfterOne(m1, Lock(t), [Cancel(t)]);
    AfterOne(m2, Cancel(t), []);
  }
}
