/** The emulator loop's frame pacing in src/bin/worker.rs. Instants and durations
    are naturals of one clock tick. */
module FramePacing {
  import opened Bytes

  datatype Paced = Paced(nextFrameAt: nat, sleep: Option<nat>)

  /** The new deadline, and how long to sleep: until the deadline if it is ahead;
      a deadline more than one frame behind is given up. */
  function Pace(nextFrameAt: nat, now: nat, frameDuration: nat): Paced {
    var next := nextFrameAt + frameDuration;
    if now < next then Paced(next, Some(next - now))
    else if now - next > frameDuration then Paced(now, None)
    else Paced(next, None)
  }

  /** The deadline the loop keeps between iterations. */
  class Pacer {
    var nextFrameAt: nat

    constructor (start: nat)
      ensures nextFrameAt == start
    {
      nextFrameAt := start;
    }

    method ScheduleNextFrameSleep(now: nat, frameDuration: nat) returns (sleep: Option<nat>)
      modifies this
      ensures Paced(nextFrameAt, sleep) == Pace(old(nextFrameAt), now, frameDuration)
    {
      nextFrameAt := nextFrameAt + frameDuration;
      if now < nextFrameAt {
        return Some(nextFrameAt - now);
      }
      if now - nextFrameAt > frameDuration {
        nextFrameAt := now;
      }
      sleep := None;
    }
  }

  /** One iteration: the clock when it asked, and when it was done sleeping. */
  datatype Tick = Tick(now: nat, done: nat)

  /** The deadline after the iterations so far. */
  function Deadline(start: nat, d: nat, ticks: seq<Tick>): nat {
    if ticks == [] then start
    else Pace(Deadline(start, d, ticks[..|ticks| - 1]), ticks[|ticks| - 1].now, d).nextFrameAt
  }

  function SleepOf(start: nat, d: nat, ticks: seq<Tick>, i: nat): nat
    requires i < |ticks|
  {
    var s := Pace(Deadline(start, d, ticks[..i]), ticks[i].now, d).sleep;
    if s.Some? then s.value else 0
  }

  /** The clock never runs backwards and no sleep is shorter than asked. */
  ghost predicate FairClock(start: nat, d: nat, ticks: seq<Tick>) {
    forall i :: 0 <= i < |ticks| ==> FairAt(start, d, ticks, i)
  }

  ghost predicate FairAt(start: nat, d: nat, ticks: seq<Tick>, i: nat)
    requires i < |ticks|
  {
    && ticks[i].now >= Clock(start, ticks[..i])
    && ticks[i].done >= ticks[i].now + SleepOf(start, d, ticks, i)
  }

  lemma FairPrefix(start: nat, d: nat, ticks: seq<Tick>, n: nat)
    requires FairClock(start, d, ticks) && n <= |ticks|
    ensures FairClock(start, d, ticks[..n])
  {
    forall i | 0 <= i < n
      ensures FairAt(start, d, ticks[..n], i)
    {
      assert ticks[..n][..i] == ticks[..i];
      assert FairAt(start, d, ticks, i);
    }
  }

  /** The clock after `n` iterations. */
  function Clock(start: nat, ticks: seq<Tick>): nat {
    if ticks == [] then start else ticks[|ticks| - 1].done
  }

  /** After N iterations the clock has reached the deadline, and the deadline is
      at least N frames after the start: the loop never runs ahead. */
  lemma {:induction false} NeverAhead(start: nat, d: nat, ticks: seq<Tick>)
    requires FairClock(start, d, ticks)
    ensures Clock(start, ticks) >= Deadline(start, d, ticks) >= start + |ticks| * d
  {
    if ticks == [] {
    } else {
      var n := |ticks| - 1;
      FairPrefix(start, d, ticks, n);
      NeverAhead(start, d, ticks[..n]);
      assert FairAt(start, d, ticks, n);
      OneMore(n, d);
    }
  }

  lemma OneMore(n: nat, d: nat)
    ensures (n + 1) * d == n * d + d
  {
  }

  /** No sleep is longer than one frame. */
  lemma SleepAtMostOneFrame(start: nat, d: nat, ticks: seq<Tick>, i: nat)
    requires FairClock(start, d, ticks) && i < |ticks|
    ensures SleepOf(start, d, ticks, i) <= d
  {
    FairPrefix(start, d, ticks, i);
    NeverAhead(start, d, ticks[..i]);
    assert FairAt(start, d, ticks, i);
  }

  /** The deadline is never more than one frame behind the clock reading it was made from. */
  lemma DeadlineFollowsClock(start: nat, d: nat, ticks: seq<Tick>, i: nat)
    requires i < |ticks|
    ensures Deadline(start, d, ticks[..i + 1]) + d >= ticks[i].now
  {
    assert ticks[..i + 1][..i] == ticks[..i];
  }

  lemma {:induction false} DeadlineAdvances(start: nat, d: nat, ticks: seq<Tick>, i: nat, j: nat)
    requires i <= j <= |ticks|
    ensures Deadline(start, d, ticks[..j]) >= Deadline(start, d, ticks[..i]) + (j - i) * d
  {
    if i == j {
    } else {
      DeadlineAdvances(start, d, ticks, i, j - 1);
      assert ticks[..j][..j - 1] == ticks[..j - 1];
      OneMore(j - 1 - i, d);
    }
  }

  /** Catching up is bounded: between the clock reading of iteration `i` and the end
      of iteration `j`, the loop has run at most one frame more than the time allows. */
  lemma BurstsAreBounded(start: nat, d: nat, ticks: seq<Tick>, i: nat, j: nat)
    requires FairClock(start, d, ticks) && i <= j < |ticks| && d > 0
    ensures ticks[j].done >= ticks[i].now
    ensures j - i <= (ticks[j].done - ticks[i].now) / d + 1
  {
    hide Deadline, FairClock;
    FairPrefix(start, d, ticks, j + 1);
    NeverAhead(start, d, ticks[..j + 1]);
    DeadlineFollowsClock(start, d, ticks, i);
    DeadlineAdvances(start, d, ticks, i + 1, j + 1);
    ClockMonotone(start, d, ticks, i, j);
    assert Clock(start, ticks[..j + 1]) == ticks[j].done;
    Quotient(ticks[j].done - ticks[i].now, d, j - i);
  }

  lemma {:induction false} ClockMonotone(start: nat, d: nat, ticks: seq<Tick>, i: nat, j: nat)
    requires FairClock(start, d, ticks) && i <= j < |ticks|
    ensures ticks[i].now <= ticks[j].done
  {
    assert FairAt(start, d, ticks, j);
    if i == j {
    } else {
      ClockMonotone(start, d, ticks, i, j - 1);
      assert Clock(start, ticks[..j]) == ticks[j - 1].done;
    }
  }

  lemma Quotient(elapsed: nat, d: nat, n: nat)
    requires d > 0 && elapsed + d >= n * d
    ensures n <= elapsed / d + 1
  {
    var q := elapsed / d;
    assert elapsed == q * d + elapsed % d;
    AtLeast(n, q + 2, d);
    assert (q + 2) * d == q * d + 2 * d;
  }

  lemma AtLeast(n: nat, m: nat, d: nat)
    ensures n >= m ==> n * d >= m * d
  {
  }

  /** The deadline is `start + N*d` as long as no clock reading was more than one frame
      late, and only as long: a longer lag is given up for good. */
  lemma {:induction false} DeadlineExactIff(start: nat, d: nat, ticks: seq<Tick>)
    ensures Deadline(start, d, ticks) >= start + |ticks| * d
    ensures Deadline(start, d, ticks) == start + |ticks| * d <==>
            forall i :: 0 <= i < |ticks| ==> InTime(start, d, ticks, i)
  {
    if ticks == [] {
    } else {
      var n := |ticks| - 1;
      DeadlineExactIff(start, d, ticks[..n]);
      OneMore(n, d);
      OneMore(n + 1, d);
      assert forall i :: 0 <= i < n ==> InTime(start, d, ticks[..n], i) == InTime(start, d, ticks, i);
      hide InTime;
      LastInTime(start, d, ticks);
    }
  }

  /** Iteration `i` read the clock at most one frame after its own deadline. */
  predicate InTime(start: nat, d: nat, ticks: seq<Tick>, i: nat)
    requires i < |ticks|
  {
    ticks[i].now <= start + (i + 2) * d
  }

  lemma LastInTime(start: nat, d: nat, ticks: seq<Tick>)
    requires ticks != [] && Deadline(start, d, ticks[..|ticks| - 1]) >= start + (|ticks| - 1) * d
    ensures Deadline(start, d, ticks) >= start + |ticks| * d
    ensures Deadline(start, d, ticks) == start + |ticks| * d <==>
            && Deadline(start, d, ticks[..|ticks| - 1]) == start + (|ticks| - 1) * d
            && InTime(start, d, ticks, |ticks| - 1)
  {
    var n := |ticks| - 1;
    OneMore(n, d);
    OneMore(n + 1, d);
  }

  /** The loop when iteration `i` works for `works[i]` and every sleep is as asked. */
  function Play(start: nat, d: nat, works: seq<nat>): (ticks: seq<Tick>)
    ensures |ticks| == |works|
  {
    if works == [] then []
    else
      var before := Play(start, d, works[..|works| - 1]);
      var now := Clock(start, before) + works[|works| - 1];
      var s := Pace(Deadline(start, d, before), now, d).sleep;
      before + [Tick(now, now + if s.Some? then s.value else 0)]
  }

  /** Such a clock is fair. */
  lemma {:induction false} PlayIsFair(start: nat, d: nat, works: seq<nat>)
    ensures FairClock(start, d, Play(start, d, works))
  {
    if works == [] {
    } else {
      var n := |works| - 1;
      var ticks, before := Play(start, d, works), Play(start, d, works[..n]);
      PlayIsFair(start, d, works[..n]);
      assert ticks[..n] == before;
      forall i | 0 <= i < |ticks|
        ensures FairAt(start, d, ticks, i)
      {
        if i < n {
          assert before[..i] == ticks[..i];
          assert FairAt(start, d, before, i);
        }
      }
    }
  }

  /** A worker that never works longer than one frame ends iteration N exactly N frames
      after the start: pacing keeps the nominal frame rate without drift. */
  lemma {:induction false} SteadyRate(start: nat, d: nat, works: seq<nat>)
    requires forall i :: 0 <= i < |works| ==> works[i] <= d
    ensures Clock(start, Play(start, d, works)) == start + |works| * d
    ensures Deadline(start, d, Play(start, d, works)) == start + |works| * d
  {
    if works == [] {
    } else {
      var n := |works| - 1;
      SteadyRate(start, d, works[..n]);
      OneMore(n, d);
      assert Play(start, d, works)[..n] == Play(start, d, works[..n]);
    }
  }
}
