/** When the sender produces keyframes, over whole runs and across the wrap of
    its 32-bit frame counter. */
module KeyframeCadence {
  import opened Bytes
  import opened StreamProtocol
  import opened Broadcast
  import opened StreamRuns

  /** Frames the encoder can index. Nothing is asked of the codec, nor of the frames'
      sizes from one to the next. */
  ghost predicate Encodable(l: Line, arrivals: seq<Arrival>) {
    && ValidConfig(l.cfg)
    && forall i :: 0 <= i < |arrivals| ==> CanSend(l.cfg, After(l, arrivals[..i]), arrivals[i].frame)
  }

  lemma EncodablePrefix(l: Line, arrivals: seq<Arrival>, n: nat)
    requires Encodable(l, arrivals) && n <= |arrivals|
    ensures Encodable(l, arrivals[..n])
  {
    assert forall i :: 0 <= i < n ==> arrivals[..n][..i] == arrivals[..i];
  }

  /** One turn's effect on the counter and on recovery. */
  lemma TurnCounts(l: Line, s: Sender, a: Arrival)
    requires ValidConfig(l.cfg) && CanSend(l.cfg, s, a.frame)
    ensures var r := TryStep(l, s, a);
            && r.next.count == U32(s.count + 1)
            && (r.next.recovery <==> r.kind == Delta && !r.delivered)
  {
  }

  /** The counter is the number of frames so far, modulo 2^32, and recovery is on
      exactly after a dropped delta. */
  lemma {:induction false} SenderState(l: Line, arrivals: seq<Arrival>)
    requires Encodable(l, arrivals)
    ensures After(l, arrivals).count == U32(|arrivals|)
    ensures After(l, arrivals).recovery <==>
            (|arrivals| > 0 && Turn(l, arrivals, |arrivals| - 1).kind == Delta
             && !Delivered(l, arrivals, |arrivals| - 1))
  {
    hide Step, CanSend;
    if arrivals == [] {
    } else {
      var n := |arrivals| - 1;
      PrefixOk(l, arrivals, n);
      EncodablePrefix(l, arrivals, n);
      SenderState(l, arrivals[..n]);
      TurnCounts(l, After(l, arrivals[..n]), arrivals[n]);
      WrapStep(n);
    }
  }

  lemma WrapStep(n: nat)
    ensures U32(U32(n) + 1) == U32(n + 1)
  {
  }

  /** Exactly when frame `i` is a keyframe: the counter says so, the frame before
      was a dropped delta, or nothing has been delivered yet. */
  lemma KeyframeIff(l: Line, arrivals: seq<Arrival>, i: nat)
    requires Encodable(l, arrivals) && i < |arrivals|
    ensures Turn(l, arrivals, i).kind == Keyframe <==>
            (|| U32(i + 1) % l.cfg.keyframeInterval == 1
             || (i > 0 && Turn(l, arrivals, i - 1).kind == Delta && !Delivered(l, arrivals, i - 1))
             || forall j :: 0 <= j < i ==> !Delivered(l, arrivals, j))
  {
    hide Step, CanSend, After;
    var before := arrivals[..i];
    PrefixOk(l, arrivals, i);
    assert forall j :: 0 <= j < i ==> Delivered(l, before, j) == Delivered(l, arrivals, j);
    EncodablePrefix(l, arrivals, i);
    SenderState(l, before);
    WrapStep(i);
    NoPrevIffNoneDelivered(l, before);
    TurnKind(l, After(l, before), arrivals[i]);
  }

  lemma TurnKind(l: Line, s: Sender, a: Arrival)
    requires ValidConfig(l.cfg) && CanSend(l.cfg, s, a.frame)
    ensures TryStep(l, s, a).kind == KindOfNext(l.cfg, s)
  {
  }

  /** A dropped delta makes the very next frame a keyframe. */
  lemma DropForcesKeyframe(l: Line, arrivals: seq<Arrival>, i: nat)
    requires Encodable(l, arrivals) && i + 1 < |arrivals|
    requires Turn(l, arrivals, i).kind == Delta && !Delivered(l, arrivals, i)
    ensures Turn(l, arrivals, i + 1).kind == Keyframe
  {
    KeyframeIff(l, arrivals, i + 1);
  }

  lemma Multiples(k: nat, d: int)
    ensures d >= 1 ==> k * d >= k
    ensures d <= -1 ==> k * d + k <= 0
  {
  }

  lemma Congruent(k: nat, q: int, x: int)
    requires k >= 2 && x == k * q + 1
    ensures x % k == 1
  {
    assert x == k * (x / k) + x % k;
    assert k * (x / k - q) == 1 - x % k;
    Multiples(k, x / k - q);
  }

  /** Among `k` consecutive numbers one is 1 modulo `k`. */
  lemma OneInEveryK(k: nat, c: int) returns (v: int)
    requires k >= 2
    ensures c <= v < c + k && v % k == 1
  {
    v := c + (1 - c) % k;
    assert 1 - c == k * ((1 - c) / k) + (1 - c) % k;
    assert v == k * (-((1 - c) / k)) + 1;
    Congruent(k, -((1 - c) / k), v);
  }

  lemma AwayFromOne(k: nat, t: nat, wrap: nat)
    requires k >= 2 && wrap % k == 1 && 1 <= t < k && t <= wrap
    ensures (wrap - t) % k != 1
  {
    var v := wrap - t;
    var d := wrap / k - v / k;
    assert wrap == k * (wrap / k) + 1 && v == k * (v / k) + v % k;
    assert t == k * d + 1 - v % k;
    Multiples(k, d);
  }

  /** The counter forces a keyframe somewhere in the `len` frames from frame number `n`. */
  ghost predicate ForcedWithin(k: nat, n: nat, len: nat)
    requires k > 0
  {
    exists j :: n <= j < n + len && U32(j) % k == 1
  }

  /** ...and that from every frame number on. */
  ghost predicate AlwaysForced(k: nat, len: nat)
    requires k > 0
  {
    forall n: nat :: ForcedWithin(k, n, len)
  }

  /** The counter reaches `v` before it wraps. */
  lemma AtCount(n: nat, v: nat, k: nat, len: nat)
    requires 0 < k && U32(n) <= v < TWO_32 && v % k == 1 && v - U32(n) < len
    ensures ForcedWithin(k, n, len)
  {
    var j := n + (v - U32(n));
    assert U32(j) == v;
    assert n <= j < n + len;
  }

  /** The counter reaches 1 after it wrapped. */
  lemma AtWrap(n: nat, k: nat, len: nat)
    requires k >= 2 && TWO_32 - U32(n) + 1 < len
    ensures ForcedWithin(k, n, len)
  {
    var j := n + (TWO_32 - U32(n)) + 1;
    assert U32(j) == 1;
    assert n <= j < n + len;
  }

  /** The only window of `k` frames without a forced one ends where the counter is 0. */
  lemma UnforcedWindow(k: nat, n: nat, j: nat)
    requires 2 <= k < TWO_32 && TWO_32 % k == 1 && U32(n) == TWO_32 - k + 1 && n <= j < n + k
    ensures U32(j) % k != 1
  {
    var t := n + k - 1 - j;
    if t > 0 {
      assert U32(j) == TWO_32 - t;
      AwayFromOne(k, t, TWO_32);
    } else {
      assert U32(j) == 0;
    }
  }

  /** `k` consecutive frames hold a counter-forced keyframe, except the one window
      that ends at the counter's wrap to 0 when 2^32 is 1 modulo `k`. */
  lemma ForcedEveryK(k: nat, n: nat)
    requires 2 <= k < TWO_32
    ensures ForcedWithin(k, n, k) <==> !(TWO_32 % k == 1 && U32(n) == TWO_32 - k + 1)
  {
    if TWO_32 % k == 1 && U32(n) == TWO_32 - k + 1 {
      forall j | n <= j < n + k
        ensures U32(j) % k != 1
      {
        UnforcedWindow(k, n, j);
      }
    } else {
      var v := OneInEveryK(k, U32(n));
      if v < TWO_32 {
        AtCount(n, v, k, k);
      } else if v == TWO_32 && U32(n) == TWO_32 - k + 1 {
        assert false;
      } else {
        AtWrap(n, k, k);
      }
    }
  }

  /** `k + 1` consecutive frames always hold a forced keyframe exactly when `k` is
      at least 2: with an interval of 1 the counter never forces one. */
  lemma ForcedEveryKPlusOne(k: nat)
    requires 0 < k < TWO_32
    ensures AlwaysForced(k, k + 1) <==> k >= 2
  {
    var len := k + 1;
    if k >= 2 {
      forall n: nat
        ensures ForcedWithin(k, n, len)
      {
        var v := OneInEveryK(k, U32(n));
        if v < TWO_32 {
          AtCount(n, v, k, len);
        } else {
          AtWrap(n, k, len);
        }
      }
    } else {
      assert !ForcedWithin(k, 0, len);
    }
  }

  /** Any `keyframeInterval + 1` consecutive frames of a run include a keyframe;
      `keyframeInterval` frames do unless they end at the wrap described above. */
  lemma KeyframeInEveryWindow(l: Line, arrivals: seq<Arrival>, i: nat, len: nat)
    requires Encodable(l, arrivals) && l.cfg.keyframeInterval >= 2 && i + len <= |arrivals|
    requires len == l.cfg.keyframeInterval + 1
          || (len == l.cfg.keyframeInterval
              && !(TWO_32 % len == 1 && U32(i + 1) == TWO_32 - len + 1))
    ensures exists j :: i <= j < i + len && Turn(l, arrivals, j).kind == Keyframe
  {
    hide Turn;
    var k: nat := l.cfg.keyframeInterval;
    ForcedEveryK(k, i + 1);
    ForcedEveryKPlusOne(k);
    assert ForcedWithin(k, i + 1, len);
    var count :| i + 1 <= count < i + 1 + len && U32(count) % k == 1;
    KeyframeIff(l, arrivals, count - 1);
  }
}
