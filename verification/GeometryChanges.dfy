/** What becomes of a stream when the size or the pitch of its frames changes between
    two keyframes. */
module GeometryChanges {
  import opened Bytes
  import opened Images
  import opened TileGrid
  import opened StreamProtocol
  import opened StreamParser
  import opened Viewer
  import opened StreamDisplay
  import opened Broadcast
  import opened StreamRuns

  lemma {:induction false} DeltaKeepsSize(payload: seq<byte>, canvas: Canvas, k: nat)
    ensures DeltaSteps(payload, canvas, k).canvas.width == canvas.width
    ensures DeltaSteps(payload, canvas, k).canvas.height == canvas.height
  {
    if k == 0 {
    } else {
      DeltaKeepsSize(payload, canvas, k - 1);
    }
  }

  /** A delta from a previous frame of geometry `p`. */
  ghost predicate IsDelta(cfg: Config, s: Sender, f: RawFrame, p: Geometry) {
    && ValidConfig(cfg) && CanSend(cfg, s, f) && KindOfNext(cfg, s) == Delta
    && s.prev.value.geo == p && Addressable(s.prev.value.data, p)
  }

  /** What a viewer of the previous frame shows after the delta. */
  ghost function ShownAfter(l: Line, s: Sender, f: RawFrame, p: Geometry): Canvas
    requires IsDelta(l.cfg, s, f, p)
  {
    ShowFrame(l.codec, Seen(NextParams(l, s, f)), Rgba(s.prev.value.data, p)).canvas
  }

  ghost predicate Shows(l: Line, s: Sender, f: RawFrame, p: Geometry)
    requires IsDelta(l.cfg, s, f, p)
  {
    SentIsAddressable(l.cfg, s, f);
    ShownAfter(l, s, f, p) == Rgba(f.data, f.geo)
  }

  /** A delta never resizes the canvas, so after a change of size it never shows its frame. */
  lemma NewSizeNotShown(l: Line, s: Sender, f: RawFrame, p: Geometry)
    requires ValidLine(l) && IsDelta(l.cfg, s, f, p)
    requires p.width != f.geo.width || p.height != f.geo.height
    ensures !Shows(l, s, f, p)
  {
    hide Addressable, Rgba, CanSend, DeltaReadable;
    SentIsAddressable(l.cfg, s, f);
    var before := Rgba(s.prev.value.data, p);
    var frame := Seen(NextParams(l, s, f));
    var inflated := InflatePayload(l.codec, frame);
    if inflated.Some? && |inflated.value| >= 2 {
      DeltaKeepsSize(inflated.value, before, GetBe16(inflated.value, 0));
    }
  }

  /** Exactly when a delta shows its frame, if not only the pitch has changed: no pixel
      has moved, and the tiles left out of the 16-bit count look the same. */
  lemma DeltaShowsIff(l: Line, s: Sender, f: RawFrame, p: Geometry)
    requires ValidLine(l) && IsDelta(l.cfg, s, f, p) && FitsHeader(f.geo)
    requires p.width == f.geo.width && p.height == f.geo.height ==> SameView(p, f.geo)
    ensures Shows(l, s, f, p) <==>
            && SameView(p, f.geo) && Addressable(s.prev.value.data, f.geo) && Addressable(f.data, f.geo)
            && UncountedLookSame(s.prev.value.data, f.data, f.geo, l.cfg.tileSize)
  {
    hide Rgba, DeltaReadable, UncountedLookSame, ShowFrame, Seen, Carries, ForceKeyframe;
    SentIsAddressable(l.cfg, s, f);
    if SameView(p, f.geo) {
      SameViewAddressable(s.prev.value.data, p, f.geo);
      hide Addressable;
      SameViewSamePicture(s.prev.value.data, p, f.geo);
      EmittedIffChanged(s.prev.value.data, f.data, f.geo, l.cfg.tileSize);
      SeenCarries(l, s, f);
      DeltaDisplaysIff(l.codec, Seen(NextParams(l, s, f)), s.prev.value.data, f.data, f.geo, l.cfg.tileSize);
    } else {
      hide Addressable;
      NewSizeNotShown(l, s, f, p);
    }
  }

  lemma SameViewAddressable(data: seq<byte>, p: Geometry, g: Geometry)
    requires SameView(p, g) && Addressable(data, p)
    ensures Addressable(data, g)
  {
  }

  // ---------- The frame after a keyframe ----------

  /** A fresh sender that has delivered its first frame. */
  function AfterKeyframe(f: RawFrame): Sender {
    Sender(Some(f), 1, false, false)
  }

  /** A run of two frames. */
  function TwoFrames(first: RawFrame, second: RawFrame): seq<Arrival> {
    [Arrival(first, []), Arrival(second, [])]
  }

  /** The first frame is a keyframe and the second one a delta, for every keyframe
      interval; if both are delivered the viewer shows what the delta makes of the first. */
  lemma TwoFrameRun(l: Line, first: RawFrame, second: RawFrame, screens: Screens)
    requires ValidLine(l) && CanSend(l.cfg, FRESH_SENDER, first) && FitsHeader(first.geo)
    requires Delivered(l, TwoFrames(first, second), 0)
    ensures var run := TwoFrames(first, second);
            && After(l, run[..1]) == AfterKeyframe(first)
            && KindOfNext(l.cfg, AfterKeyframe(first)) == Delta && Addressable(first.data, first.geo)
            && (CanSend(l.cfg, AfterKeyframe(first), second) && Delivered(l, run, 1) && l.index in screens ==>
                  Display(l, run, screens)[l.index] == ShownAfter(l, AfterKeyframe(first), second, first.geo))
            && (!CanSend(l.cfg, AfterKeyframe(first), second) ==> After(l, run).ended)
  {
    hide Rgba, Addressable, CanSend, DeltaReadable, ShowFrame, Seen, ShowMessages, NextMessage;
    var run := TwoFrames(first, second);
    FirstFrame(l, first, second);
    SecondIsDelta(l.cfg, first);
    SentIsAddressable(l.cfg, FRESH_SENDER, first);
    assert run[..1] == [run[0]] && run[..1][..0] == [] == run[..0];
    SecondFrame(l, first, second, screens);
  }

  lemma SecondIsDelta(cfg: Config, first: RawFrame)
    requires ValidConfig(cfg)
    ensures KindOfNext(cfg, AfterKeyframe(first)) == Delta
  {
    var k: nat := cfg.keyframeInterval;
    assert k >= 3 ==> 2 % k == 2;
  }

  lemma FirstFrame(l: Line, first: RawFrame, second: RawFrame)
    requires ValidConfig(l.cfg) && CanSend(l.cfg, FRESH_SENDER, first) && Delivered(l, TwoFrames(first, second), 0)
    ensures TryStep(l, FRESH_SENDER, Arrival(first, [])).next == AfterKeyframe(first)
    ensures TryStep(l, FRESH_SENDER, Arrival(first, [])).delivered
  {
    hide CanSend, NextMessage;
    assert TwoFrames(first, second)[..0] == [];
  }

  lemma SecondFrame(l: Line, first: RawFrame, second: RawFrame, screens: Screens)
    requires ValidLine(l) && CanSend(l.cfg, FRESH_SENDER, first) && FitsHeader(first.geo)
    requires Addressable(first.data, first.geo) && KindOfNext(l.cfg, AfterKeyframe(first)) == Delta
    requires After(l, TwoFrames(first, second)[..1]) == AfterKeyframe(first)
    requires Delivered(l, TwoFrames(first, second), 0)
    ensures var run := TwoFrames(first, second);
            && (CanSend(l.cfg, AfterKeyframe(first), second) && Delivered(l, run, 1) && l.index in screens ==>
                  Display(l, run, screens)[l.index] == ShownAfter(l, AfterKeyframe(first), second, first.geo))
            && (!CanSend(l.cfg, AfterKeyframe(first), second) ==> After(l, run).ended)
  {
    hide Rgba, Addressable, CanSend, DeltaReadable, ShowFrame, Seen, ShowMessages, NextMessage, Step;
    var run := TwoFrames(first, second);
    assert run[..|run| - 1] == run[..1] && run[1] == Arrival(second, []);
    if CanSend(l.cfg, AfterKeyframe(first), second) && Delivered(l, run, 1) && l.index in screens {
      var before := Display(l, run[..1], screens);
      FirstShown(l, first, second, screens);
      DeltaDelivered(l, AfterKeyframe(first), Arrival(second, []), before);
    }
  }

  lemma FirstShown(l: Line, first: RawFrame, second: RawFrame, screens: Screens)
    requires ValidLine(l) && CanSend(l.cfg, FRESH_SENDER, first) && FitsHeader(first.geo)
    requires Delivered(l, TwoFrames(first, second), 0) && l.index in screens && Addressable(first.data, first.geo)
    ensures Display(l, TwoFrames(first, second)[..1], screens)[l.index] == Rgba(first.data, first.geo)
  {
    hide Rgba, Addressable, CanSend, TryStep, Display;
    var run := TwoFrames(first, second)[..1];
    assert run == [Arrival(first, [])] && run[..0] == [] == TwoFrames(first, second)[..0];
    FirstFollowed(l, first);
    CanvasShowsLastDelivered(l, run, screens, 0);
  }

  lemma FirstFollowed(l: Line, first: RawFrame)
    requires ValidConfig(l.cfg) && CanSend(l.cfg, FRESH_SENDER, first) && FitsHeader(first.geo)
    ensures FollowedFrom(l, [Arrival(first, [])], 0)
  {
    hide CanSend;
    assert [Arrival(first, [])][..0] == [];
  }

  lemma DeltaDelivered(l: Line, s: Sender, a: Arrival, screens: Screens)
    requires ValidLine(l) && s.prev.Some? && IsDelta(l.cfg, s, a.frame, s.prev.value.geo) && l.index in screens
    requires TryStep(l, s, a).delivered && screens[l.index] == Rgba(s.prev.value.data, s.prev.value.geo)
    ensures ShowMessages(l.codec, screens, TryStep(l, s, a).messages)[l.index]
         == ShownAfter(l, s, a.frame, s.prev.value.geo)
  {
    hide Rgba, CanSend, ShowFrame, Seen, ShowMessages, ShowMessage, NextMessage;
    TurnShows(l, s, a, screens);
    OwnCanvasOnly(l, s, a.frame, screens);
  }

  // ---------- Any change of geometry ----------

  /** Two frames with the same bytes under the current geometry give an empty delta. */
  lemma SameBytesNoTiles(prev: seq<byte>, curr: seq<byte>, g: Geometry, tileSize: nat)
    requires tileSize > 0
    requires |prev| >= |curr| && prev[..|curr|] == curr
    ensures AllChanged(prev, curr, g, tileSize) == []
  {
    hide DivCeil;
    forall x: nat, y: nat
      ensures !Differs(prev, curr, g.pitch, x, y)
    {
      var at := At(g.pitch, x, y);
      assert at + 4 <= |curr| ==> prev[..|curr|][at..at + 4] == prev[at..at + 4];
    }
    var rs := AllChanged(prev, curr, g, tileSize);
    if rs != [] {
      ChangedTilesMembers(prev, curr, g, tileSize, DivCeil(g.height, tileSize), rs[0]);
      assert false;
    }
  }

  /** A delta without tiles leaves the picture of the previous frame. */
  lemma EmptyDeltaKeepsPicture(l: Line, s: Sender, f: RawFrame, p: Geometry)
    requires ValidLine(l) && IsDelta(l.cfg, s, f, p) && FitsHeader(f.geo)
    requires AllChanged(s.prev.value.data, f.data, f.geo, l.cfg.tileSize) == []
    ensures ShownAfter(l, s, f, p) == Rgba(s.prev.value.data, p)
  {
    hide Addressable, Rgba, DeltaBytes, DeltaReadable;
    SentIsAddressable(l.cfg, s, f);
    SeenCarries(l, s, f);
    DeltaConsumed(Rgba(s.prev.value.data, p), Rgba(f.data, f.geo), []);
    DeltaBytesLong(Rgba(f.data, f.geo), []);
  }

  function Zeros(n: nat): (data: seq<byte>)
    ensures |data| == n && forall i :: 0 <= i < n ==> data[i] == 0
  {
    seq(n, _ => 0)
  }

  function Ones(n: nat): (data: seq<byte>)
    ensures |data| == n && forall i :: 0 <= i < n ==> data[i] == 1
  {
    seq(n, _ => 1)
  }

  lemma NeededAddressable(g: Geometry)
    ensures forall data: seq<byte> :: Needed(g) <= |data| ==> Addressable(data, g)
  {
  }

  lemma DifferentPictures(p: Geometry, g: Geometry) returns (data: seq<byte>)
    requires !SameView(p, g)
    ensures Needed(p) <= |data| && Needed(g) <= |data|
    ensures Addressable(data, p) && Addressable(data, g) && Rgba(data, p) != Rgba(data, g)
  {
    hide Rgba, Marked, Needed;
    NeededAddressable(p);
    NeededAddressable(g);
    hide Addressable;
    if p.width == g.width && p.height == g.height {
      data := Marked(p, g);
      MarkedDiffers(p, g);
    } else {
      data := Zeros(Needed(p) + Needed(g));
    }
  }

  lemma WholeCanSend(cfg: Config, first: RawFrame, second: RawFrame)
    requires ValidConfig(cfg) && NoOverflow(first.geo) && NoOverflow(second.geo)
    requires Needed(first.geo) <= |first.data|
    requires DeltaReadable(first.data, second.data, second.geo, cfg.tileSize)
    ensures CanSend(cfg, FRESH_SENDER, first) && IsDelta(cfg, AfterKeyframe(first), second, first.geo)
  {
    hide DeltaReadable;
    SecondIsDelta(cfg, first);
  }

  /** Whenever pixels move, by a change of size or of pitch, there are two frames of the
      same bytes such that a fresh sender, for every keyframe interval, sends no tile for
      the second one, and a viewer that gets both keeps the first, different picture. */
  lemma GeometryChangeIsMissed(l: Line, p: Geometry, g: Geometry, screens: Screens)
    returns (first: RawFrame, second: RawFrame)
    requires ValidLine(l) && NoOverflow(p) && NoOverflow(g) && FitsHeader(p) && FitsHeader(g) && !SameView(p, g)
    ensures first.geo == p && second.geo == g && first.data == second.data
    ensures CanSend(l.cfg, FRESH_SENDER, first) && IsDelta(l.cfg, AfterKeyframe(first), second, p)
    ensures AllChanged(first.data, second.data, g, l.cfg.tileSize) == []
    ensures Addressable(second.data, g) && !Shows(l, AfterKeyframe(first), second, p)
    ensures var run := TwoFrames(first, second);
            Delivered(l, run, 0) && Delivered(l, run, 1) && l.index in screens ==>
              Display(l, run, screens)[l.index] == Rgba(first.data, p) != Rgba(second.data, g)
  {
    hide Rgba, DeltaReadable, CanSend, AllChanged, ShownAfter, KindOfNext, Display, After;
    var data := DifferentPictures(p, g);
    first, second := RawFrame(p, data, 0, 0), RawFrame(g, data, 0, 0);
    WholeReadable(data, data, g, l.cfg.tileSize);
    WholeCanSend(l.cfg, first, second);
    hide Addressable, NoOverflow, Needed;
    SameBytesNoTiles(data, data, g, l.cfg.tileSize);
    EmptyDeltaKeepsPicture(l, AfterKeyframe(first), second, p);
    if Delivered(l, TwoFrames(first, second), 0) {
      TwoFrameRun(l, first, second, screens);
    }
  }

  /** Every countable delta that follows a keyframe of geometry `p` with a frame of
      geometry `g` shows its frame. */
  ghost predicate DeltasShown(l: Line, p: Geometry, g: Geometry) {
    forall first: RawFrame, second: RawFrame :: first.geo == p && second.geo == g && FewChanges(l, first, second) ==>
      Shows(l, AfterKeyframe(first), second, p)
  }

  ghost predicate FewChanges(l: Line, first: RawFrame, second: RawFrame) {
    && ValidConfig(l.cfg) && CanSend(l.cfg, FRESH_SENDER, first)
    && IsDelta(l.cfg, AfterKeyframe(first), second, first.geo)
    && |AllChanged(first.data, second.data, second.geo, l.cfg.tileSize)| < 0x1_0000
  }

  /** Exactly which changes of geometry deltas survive: none that moves a pixel. */
  lemma DeltasShownIff(l: Line, p: Geometry, g: Geometry)
    requires ValidLine(l) && NoOverflow(p) && NoOverflow(g) && FitsHeader(p) && FitsHeader(g)
    ensures DeltasShown(l, p, g) <==> SameView(p, g)
  {
    hide Shows, CanSend, AllChanged, NoOverflow, KindOfNext, Addressable, SameView;
    if SameView(p, g) {
      forall first: RawFrame, second: RawFrame | first.geo == p && second.geo == g && FewChanges(l, first, second)
        ensures Shows(l, AfterKeyframe(first), second, p)
      {
        FewChangesShown(l, first, second);
      }
    } else {
      var first, second := GeometryChangeIsMissed(l, p, g, map[]);
      assert FewChanges(l, first, second);
    }
  }

  lemma FewChangesShown(l: Line, first: RawFrame, second: RawFrame)
    requires ValidLine(l) && FewChanges(l, first, second) && SameView(first.geo, second.geo) && FitsHeader(second.geo)
    ensures Shows(l, AfterKeyframe(first), second, first.geo)
  {
    hide Shows, CanSend, AllChanged, Addressable;
    SentIsAddressable(l.cfg, AfterKeyframe(first), second);
    SameViewAddressable(first.data, first.geo, second.geo);
    FewTilesLookSame(first.data, second.data, second.geo, l.cfg.tileSize);
    DeltaShowsIff(l, AfterKeyframe(first), second, first.geo);
  }
}
