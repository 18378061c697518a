/** Instance admission in crates/instances/src/lib.rs. Every lock-protected
    action is a step of its own; any number of creates, destroys and
    reconstructions interleave. */
module InstanceAdmission {
  import opened Bytes

  type Id = nat
  type Tid = nat

  /** How far a call has come. A create waits for the `pending_creates` mutex,
      reads the number of instances while holding it, then reserves or is refused;
      its backend call succeeds or fails; it inserts, and releases the reservation. */
  datatype Task =
    | Starting | Locked | Counted(current: nat) | Reserved | Spawned(id: Id) | Inserted | Failed
    | Created | Refused | Errored
    | Looking(id: Id) | Stopping(id: Id) | Removing(id: Id) | Destroyed | NotFound | StopFailed
    | Listing | Clearing | Cleared | ListFailed
    | Cancelled | Leaked

  /** `lock` is the holder of the `pending_creates` mutex; `pending` is its value. */
  datatype Manager = Manager(max: nat, instances: set<Id>, pending: int, lock: Option<Tid>, tasks: map<Tid, Task>)

  function Init(max: nat): Manager {
    Manager(max, {}, 0, None, map[])
  }

  datatype Move =
    | Call(t: Tid, task: Task) | Lock(t: Tid) | Count(t: Tid) | Reserve(t: Tid)
    | BackendOk(t: Tid, id: Id) | BackendErr(t: Tid) | Insert(t: Tid) | Release(t: Tid)
    | Find(t: Tid) | Stop(t: Tid, ok: bool) | Remove(t: Tid) | List(t: Tid, ok: bool) | Clear(t: Tid)
    | Cancel(t: Tid)

  /** A call can be dropped wherever it awaits a lock or the backend; only between the
      count and the reservation there is no await. */
  predicate Awaiting(task: Task) {
    || task.Starting? || task.Locked? || HasReserved(task)
    || task.Looking? || task.Stopping? || task.Removing? || task.Listing? || task.Clearing?
  }

  /** Reserved, and not released yet. */
  predicate HasReserved(task: Task) {
    IsOwing(task) || IsReleasing(task)
  }

  predicate Enabled(m: Manager, a: Move) {
    if a.Call? then a.t !in m.tasks && (a.task.Starting? || a.task.Looking? || a.task.Listing?)
    else
      && a.t in m.tasks
      && var task := m.tasks[a.t];
         match a
         case Call(_, _) => false
         case Lock(_) => task.Starting? && m.lock == None
         case Count(_) => task.Locked?
         case Reserve(_) => task.Counted?
         case BackendOk(_, _) => task.Reserved?
         case BackendErr(_) => task.Reserved?
         case Insert(_) => task.Spawned?
         case Release(_) => (task.Inserted? || task.Failed?) && m.lock == None
         case Find(_) => task.Looking?
         case Stop(_, _) => task.Stopping?
         case Remove(_) => task.Removing?
         case List(_, _) => task.Listing?
         case Clear(_) => task.Clearing?
         case Cancel(_) => Awaiting(task)
  }

  function Apply(m: Manager, a: Move): Manager
    requires Enabled(m, a)
  {
    match a
    case Call(t, task) => At(m, t, task)
    case Lock(t) => At(m.(lock := Some(t)), t, Locked)
    case Count(t) => At(m, t, Counted(|m.instances|))
    case Reserve(t) =>
      var open := m.(lock := None);
      if m.tasks[t].current + m.pending >= m.max then At(open, t, Refused)
      else At(open.(pending := m.pending + 1), t, Reserved)
    case BackendOk(t, id) => At(m, t, Spawned(id))
    case BackendErr(t) => At(m, t, Failed)
    case Insert(t) => At(m.(instances := m.instances + {m.tasks[t].id}), t, Inserted)
    case Release(t) => At(m.(pending := m.pending - 1), t, if m.tasks[t].Inserted? then Created else Errored)
    case Find(t) => At(m, t, if m.tasks[t].id in m.instances then Stopping(m.tasks[t].id) else NotFound)
    case Stop(t, ok) => At(m, t, if ok then Removing(m.tasks[t].id) else StopFailed)
    case Remove(t) => At(m.(instances := m.instances - {m.tasks[t].id}), t, Destroyed)
    case List(t, ok) => At(m, t, if ok then Clearing else ListFailed)
    case Clear(t) => At(m.(instances := {}), t, Cleared)
    case Cancel(t) =>
      var open := if m.lock == Some(t) then m.(lock := None) else m;
      At(open, t, if HasReserved(m.tasks[t]) then Leaked else Cancelled)
  }

  function At(m: Manager, t: Tid, task: Task): Manager {
    m.(tasks := m.tasks[t := task])
  }

  ghost predicate IsRun(trace: seq<Manager>, moves: seq<Move>, max: nat) {
    && |trace| == |moves| + 1 && trace[0] == Init(max)
    && forall i :: 0 <= i < |moves| ==> Enabled(trace[i], moves[i]) && trace[i + 1] == Apply(trace[i], moves[i])
  }

  /** Reserved, but not inserted yet. */
  predicate IsOwing(task: Task) {
    task.Reserved? || task.Spawned?
  }

  /** Inserted or failed, with the reservation not released yet. */
  predicate IsReleasing(task: Task) {
    task.Inserted? || task.Failed?
  }

  predicate InFlight(task: Task) {
    task.Locked? || task.Counted? || IsOwing(task) || IsReleasing(task)
  }

  function Owing(m: Manager): set<Tid> {
    set t | t in m.tasks && IsOwing(m.tasks[t])
  }

  function Releasing(m: Manager): set<Tid> {
    set t | t in m.tasks && IsReleasing(m.tasks[t])
  }

  /** Reservations of creates that were cancelled; nobody releases them any more. */
  function Leaks(m: Manager): set<Tid> {
    set t | t in m.tasks && m.tasks[t].Leaked?
  }

  ghost predicate LockOk(m: Manager) {
    && (m.lock.Some? ==> m.lock.value in m.tasks)
    && forall t :: t in m.tasks ==>
         ((m.tasks[t].Locked? || m.tasks[t].Counted?) <==> m.lock == Some(t))
  }

  /** The count read under the mutex may be stale, but only in the safe direction:
      inserts since then were counted in `pending`, which cannot shrink meanwhile. */
  ghost predicate CountOk(m: Manager) {
    forall t :: t in m.tasks && m.tasks[t].Counted? ==>
      |m.instances| + |Owing(m)| <= m.tasks[t].current + m.pending
  }

  ghost predicate Inv(m: Manager) {
    && LockOk(m) && CountOk(m)
    && m.pending == |Owing(m)| + |Releasing(m)| + |Leaks(m)|
    && |m.instances| + |Owing(m)| <= m.max
  }

  function Bit(b: bool): nat {
    if b then 1 else 0
  }

  /** How the two sets move when one task does. */
  lemma MoveOwing(m: Manager, n: Manager, t: Tid, task: Task)
    requires n.tasks == m.tasks[t := task]
    ensures |Owing(n)| == |Owing(m)| + Bit(IsOwing(task)) - Bit(t in m.tasks && IsOwing(m.tasks[t]))
  {
    assert Owing(n) == if IsOwing(task) then Owing(m) + {t} else Owing(m) - {t};
    assert t in Owing(m) <==> t in m.tasks && IsOwing(m.tasks[t]);
  }

  lemma MoveReleasing(m: Manager, n: Manager, t: Tid, task: Task)
    requires n.tasks == m.tasks[t := task]
    ensures |Releasing(n)| == |Releasing(m)| + Bit(IsReleasing(task)) - Bit(t in m.tasks && IsReleasing(m.tasks[t]))
  {
    assert Releasing(n) == if IsReleasing(task) then Releasing(m) + {t} else Releasing(m) - {t};
    assert t in Releasing(m) <==> t in m.tasks && IsReleasing(m.tasks[t]);
  }

  lemma MoveLeaks(m: Manager, n: Manager, t: Tid, task: Task)
    requires n.tasks == m.tasks[t := task]
    ensures |Leaks(n)| == |Leaks(m)| + Bit(task.Leaked?) - Bit(t in m.tasks && m.tasks[t].Leaked?)
  {
    assert Leaks(n) == if task.Leaked? then Leaks(m) + {t} else Leaks(m) - {t};
    assert t in Leaks(m) <==> t in m.tasks && m.tasks[t].Leaked?;
  }

  /** What one move may do to the counter, to the instances and to its own task. */
  ghost predicate BitsOk(m: Manager, a: Move, n: Manager) {
    && a.t in n.tasks && n.tasks == m.tasks[a.t := n.tasks[a.t]]
    && var now, was := n.tasks[a.t], if a.t in m.tasks then m.tasks[a.t] else Created;
       && n.pending - m.pending == Bit(HasReserved(now)) + Bit(now.Leaked?) - Bit(HasReserved(was)) - Bit(was.Leaked?)
       && (!a.Reserve? && !a.Release? ==> n.pending == m.pending)
       && (a.Reserve? ==> n.pending - m.pending == Bit(IsOwing(now)) - Bit(IsOwing(was)))
       && (a.Reserve? ==> n.instances == m.instances)
       && (!a.Reserve? ==> Bit(IsOwing(now)) + Bit(a.Insert?) <= Bit(IsOwing(was)))
  }

  predicate IsCreateMove(a: Move) {
    a.Lock? || a.Count? || a.Reserve? || a.BackendOk? || a.BackendErr? || a.Insert? || a.Release?
  }

  lemma CreateBits(m: Manager, a: Move)
    requires Enabled(m, a) && IsCreateMove(a)
    ensures BitsOk(m, a, Apply(m, a))
  {
  }

  lemma CancelBits(m: Manager, a: Move)
    requires Enabled(m, a) && a.Cancel?
    ensures BitsOk(m, a, Apply(m, a))
  {
  }

  lemma OtherBits(m: Manager, a: Move)
    requires Enabled(m, a) && !IsCreateMove(a) && !a.Cancel?
    ensures BitsOk(m, a, Apply(m, a))
  {
  }

  lemma StepInstances(m: Manager, a: Move)
    requires Enabled(m, a)
    ensures |Apply(m, a).instances| <= |m.instances| + Bit(a.Insert?)
  {
    var n := Apply(m, a);
    if a.Insert? {
      Smaller(n.instances - {m.tasks[a.t].id}, m.instances);
    } else {
      Smaller(n.instances, m.instances);
    }
  }

  lemma {:induction false} Smaller(a: set<Id>, b: set<Id>)
    requires a <= b
    ensures |a| <= |b|
  {
    if a == {} {
    } else {
      var x :| x in a;
      Smaller(a - {x}, b - {x});
    }
  }

  /** Only `Reserve` can raise instances plus owing creates, and only `Reserve` and
      `Release` touch the counter, which always matches the reservations. */
  lemma StepCounts(m: Manager, a: Move)
    requires Enabled(m, a) && m.pending == |Owing(m)| + |Releasing(m)| + |Leaks(m)|
    ensures var n := Apply(m, a);
            && n.pending == |Owing(n)| + |Releasing(n)| + |Leaks(n)|
            && (!a.Reserve? ==> |n.instances| + |Owing(n)| <= |m.instances| + |Owing(m)|)
            && (!a.Reserve? && !a.Release? ==> n.pending == m.pending)
            && (a.Reserve? ==> |n.instances| + |Owing(n)| - |m.instances| - |Owing(m)| == n.pending - m.pending)
  {
    StepInstances(m, a);
    if IsCreateMove(a) {
      CreateBits(m, a);
    } else if a.Cancel? {
      CancelBits(m, a);
    } else {
      OtherBits(m, a);
    }
    hide Owing, Releasing, Leaks, Apply, Enabled;
    var n := Apply(m, a);
    MoveOwing(m, n, a.t, n.tasks[a.t]);
    MoveReleasing(m, n, a.t, n.tasks[a.t]);
    MoveLeaks(m, n, a.t, n.tasks[a.t]);
  }

  lemma StepKeepsLock(m: Manager, a: Move)
    requires LockOk(m) && Enabled(m, a)
    ensures LockOk(Apply(m, a))
  {
  }

  lemma StepKeepsCount(m: Manager, a: Move)
    requires Inv(m) && Enabled(m, a)
    ensures CountOk(Apply(m, a))
  {
    hide Owing, Releasing, Leaks;
    var n := Apply(m, a);
    StepCounts(m, a);
    forall t | t in n.tasks && n.tasks[t].Counted?
      ensures |n.instances| + |Owing(n)| <= n.tasks[t].current + n.pending
    {
      if !a.Count? || t != a.t {
        assert t in m.tasks && n.tasks[t] == m.tasks[t];
        assert m.lock == Some(t);
      }
    }
  }

  lemma StepKeepsInv(m: Manager, a: Move)
    requires Inv(m) && Enabled(m, a)
    ensures Inv(Apply(m, a)) && Apply(m, a).max == m.max
  {
    hide Owing, Releasing, Leaks, LockOk;
    StepCounts(m, a);
    StepKeepsLock(m, a);
    StepKeepsCount(m, a);
  }

  lemma {:induction false} ReachableInv(trace: seq<Manager>, moves: seq<Move>, max: nat, i: nat)
    requires IsRun(trace, moves, max) && i < |trace|
    ensures Inv(trace[i]) && trace[i].max == max
  {
    if i == 0 {
    } else {
      ReachableInv(trace, moves, max, i - 1);
      StepKeepsInv(trace[i - 1], moves[i - 1]);
    }
  }

  /** Under every interleaving, tracked instances plus creates that hold a
      reservation without having inserted never exceed the limit. */
  lemma CapNeverExceeded(trace: seq<Manager>, moves: seq<Move>, max: nat, i: nat)
    requires IsRun(trace, moves, max) && i < |trace|
    ensures |trace[i].instances| + |Owing(trace[i])| <= max
  {
    ReachableInv(trace, moves, max, i);
  }

  /** `pending_creates` counts the reservations, held or leaked. It never underflows, and
      is 0 whenever no create is under way and none was cancelled after reserving. */
  lemma PendingIsExact(trace: seq<Manager>, moves: seq<Move>, max: nat, i: nat)
    requires IsRun(trace, moves, max) && i < |trace|
    ensures trace[i].pending == |Owing(trace[i])| + |Releasing(trace[i])| + |Leaks(trace[i])|
    ensures i < |moves| && moves[i].Release? ==> trace[i].pending >= 1
    ensures (forall t :: t in trace[i].tasks ==> !InFlight(trace[i].tasks[t])) ==> trace[i].pending == |Leaks(trace[i])|
  {
    ReachableInv(trace, moves, max, i);
    if i < |moves| && moves[i].Release? {
      assert moves[i].t in Releasing(trace[i]);
    }
    if forall t :: t in trace[i].tasks ==> !InFlight(trace[i].tasks[t]) {
      assert Owing(trace[i]) == {} && Releasing(trace[i]) == {};
    }
  }

  /** Exactly when a create is refused: the instances it counted, the creates that
      may still insert, and those that have not released yet reach the limit. An
      instance inserted but not released counts twice. */
  lemma RefusedIff(trace: seq<Manager>, moves: seq<Move>, max: nat, i: nat)
    requires IsRun(trace, moves, max) && i < |moves| && moves[i].Reserve?
    ensures trace[i].tasks[moves[i].t].Counted?
    ensures trace[i + 1].tasks[moves[i].t] == Refused <==>
            trace[i].tasks[moves[i].t].current + |Owing(trace[i])| + |Releasing(trace[i])| + |Leaks(trace[i])| >= max
  {
    ReachableInv(trace, moves, max, i);
    assert Enabled(trace[i], moves[i]);
  }

  /** While a create holds the mutex between its count and its reservation, other calls
      move, but none of them can touch what it counted or the counter. */
  lemma {:induction false} CountIsKept(trace: seq<Manager>, moves: seq<Move>, max: nat, i: nat, j: nat)
    requires IsRun(trace, moves, max) && i < j <= |moves| && moves[i].Count?
    requires forall k :: i < k < j ==> moves[k] != Reserve(moves[i].t)
    ensures moves[i].t in trace[j].tasks && trace[j].tasks[moves[i].t] == Counted(|trace[i].instances|)
    ensures trace[j].pending == trace[i].pending && trace[j].max == max
  {
    hide Apply, Enabled, LockOk, CountOk, Owing, Releasing, Leaks;
    ReachableInv(trace, moves, max, j);
    ReachableInv(trace, moves, max, i);
    if j == i + 1 {
      CountSets(trace[i], moves[i]);
    } else {
      CountIsKept(trace, moves, max, i, j - 1);
      ReachableInv(trace, moves, max, j - 1);
      KeepsCounted(trace[j - 1], moves[j - 1], moves[i].t);
    }
  }

  lemma CountSets(m: Manager, a: Move)
    requires Enabled(m, a) && a.Count?
    ensures Apply(m, a) == m.(tasks := m.tasks[a.t := Counted(|m.instances|)])
  {
  }

  lemma KeepsCounted(m: Manager, a: Move, t: Tid)
    requires LockOk(m) && Enabled(m, a) && t in m.tasks && m.tasks[t].Counted? && a != Reserve(t)
    ensures t in Apply(m, a).tasks && Apply(m, a).tasks[t] == m.tasks[t] && Apply(m, a).pending == m.pending
  {
    assert m.lock == Some(t);
  }

  /** A create that finds no other one under way when it counts is refused exactly when
      the limit, lowered by one for every leaked reservation, is reached then, whatever
      other calls do before it reserves. */
  lemma AloneRefusedIffFull(trace: seq<Manager>, moves: seq<Move>, max: nat, i: nat, j: nat)
    requires IsRun(trace, moves, max) && i < j < |moves| && moves[i].Count? && moves[j] == Reserve(moves[i].t)
    requires forall k :: i < k < j ==> moves[k] != Reserve(moves[i].t)
    requires forall t :: t in trace[i].tasks && t != moves[i].t ==> !InFlight(trace[i].tasks[t])
    ensures moves[i].t in trace[j + 1].tasks
    ensures trace[j + 1].tasks[moves[i].t] == Refused <==> |trace[i].instances| + |Leaks(trace[i])| >= max
  {
    ReachableInv(trace, moves, max, i);
    CountIsKept(trace, moves, max, i, j);
    assert Enabled(trace[i], moves[i]) && Enabled(trace[j], moves[j]);
    assert Owing(trace[i]) == {} && Releasing(trace[i]) == {};
  }

  lemma StepKeepsLeaks(m: Manager, a: Move)
    requires Enabled(m, a)
    ensures Leaks(m) <= Leaks(Apply(m, a))
  {
  }

  /** A leak is for ever. */
  lemma {:induction false} LeaksStay(trace: seq<Manager>, moves: seq<Move>, max: nat, i: nat, j: nat)
    requires IsRun(trace, moves, max) && i <= j < |trace|
    ensures Leaks(trace[i]) <= Leaks(trace[j])
  {
    hide Enabled, Apply, Leaks;
    if i == j {
    } else {
      LeaksStay(trace, moves, max, i, j - 1);
      StepKeepsLeaks(trace[j - 1], moves[j - 1]);
    }
  }

  lemma Extend(trace: seq<Manager>, moves: seq<Move>, max: nat, a: Move, next: Manager)
    returns (trace': seq<Manager>, moves': seq<Move>)
    requires IsRun(trace, moves, max) && Enabled(trace[|moves|], a) && next == Apply(trace[|moves|], a)
    ensures IsRun(trace', moves', max) && |moves'| > 0 && trace'[|moves'|] == next
  {
    trace', moves' := trace + [next], moves + [a];
  }

  const A: Tid := 0
  const B: Tid := 1

  const ONE_INSERTED: Manager := Manager(2, {7}, 1, None, map[A := Inserted])

  const ONE_RESERVED: Manager := Manager(2, {}, 1, None, map[A := Reserved])

  lemma OneReserved() returns (trace: seq<Manager>, moves: seq<Move>)
    ensures IsRun(trace, moves, 2) && trace[|moves|] == ONE_RESERVED
  {
    var m := Init(2);
    trace, moves := [m], [];
    m := m.(tasks := map[A := Starting]);
    trace, moves := Extend(trace, moves, 2, Call(A, Starting), m);
    hide IsRun;
    m := m.(tasks := map[A := Locked], lock := Some(A));
    trace, moves := Extend(trace, moves, 2, Lock(A), m);
    m := m.(tasks := map[A := Counted(0)]);
    trace, moves := Extend(trace, moves, 2, Count(A), m);
    trace, moves := Extend(trace, moves, 2, Reserve(A), ONE_RESERVED);
  }

  /** A limit of 2, and one create that has inserted its instance but not released yet. */
  lemma OneInserted() returns (trace: seq<Manager>, moves: seq<Move>)
    ensures IsRun(trace, moves, 2) && trace[|moves|] == ONE_INSERTED
  {
    trace, moves := OneReserved();
    var m := ONE_RESERVED.(tasks := map[A := Spawned(7)]);
    trace, moves := Extend(trace, moves, 2, BackendOk(A, 7), m);
    hide IsRun;
    trace, moves := Extend(trace, moves, 2, Insert(A), ONE_INSERTED);
  }

  /** With a limit of 2 and a single tracked instance, a second create is refused
      when it looks between the first one's insert and release. */
  lemma RefusedBelowTheLimit() returns (trace: seq<Manager>, moves: seq<Move>)
    ensures IsRun(trace, moves, 2)
    ensures trace[|moves|].tasks == map[A := Inserted, B := Refused]
    ensures trace[|moves|].instances == {7}
  {
    trace, moves := OneInserted();
    var m := ONE_INSERTED.(tasks := map[A := Inserted, B := Starting]);
    trace, moves := Extend(trace, moves, 2, Call(B, Starting), m);
    hide IsRun;
    m := m.(tasks := map[A := Inserted, B := Locked], lock := Some(B));
    trace, moves := Extend(trace, moves, 2, Lock(B), m);
    m := m.(tasks := map[A := Inserted, B := Counted(1)]);
    trace, moves := Extend(trace, moves, 2, Count(B), m);
    m := m.(tasks := map[A := Inserted, B := Refused], lock := None);
    trace, moves := Extend(trace, moves, 2, Reserve(B), m);
  }
}
