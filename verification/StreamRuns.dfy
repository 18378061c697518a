/** Whole runs of one sender and one viewer. */
module StreamRuns {
  import opened Bytes
  import opened Images
  import opened TileGrid
  import opened StreamProtocol
  import opened StreamParser
  import opened Viewer
  import opened StreamDisplay
  import opened Broadcast

  /** Width and height fit their 16-bit header fields. */
  predicate FitsHeader(g: Geometry) {
    g.width < 0x1_0000 && g.height < 0x1_0000
  }

  /** A frame the viewer can follow: its size fits the header, and a delta is taken
      between two frames whose pixels lie at the same places and leaves no visible
      change out of its 16-bit count. */
  ghost predicate Followable(cfg: Config, s: Sender, f: RawFrame) {
    && ValidConfig(cfg) && CanSend(cfg, s, f) && FitsHeader(f.geo)
    && (KindOfNext(cfg, s) == Delta ==>
          && SameView(s.prev.value.geo, f.geo)
          && Addressable(s.prev.value.data, f.geo) && Addressable(f.data, f.geo)
          && UncountedLookSame(s.prev.value.data, f.data, f.geo, cfg.tileSize))
  }

  /** A fresh sender after the arrivals so far. */
  ghost function After(l: Line, arrivals: seq<Arrival>): Sender
    requires ValidConfig(l.cfg)
  {
    if arrivals == [] then FRESH_SENDER
    else TryStep(l, After(l, arrivals[..|arrivals| - 1]), arrivals[|arrivals| - 1]).next
  }

  /** What arrival `i` made the sender do. */
  ghost function Turn(l: Line, arrivals: seq<Arrival>, i: nat): Sent
    requires ValidConfig(l.cfg) && i < |arrivals|
  {
    TryStep(l, After(l, arrivals[..i]), arrivals[i])
  }

  ghost predicate Delivered(l: Line, arrivals: seq<Arrival>, i: nat)
    requires ValidConfig(l.cfg) && i < |arrivals|
  {
    Turn(l, arrivals, i).delivered
  }

  /** From arrival `k` on, the viewer can follow every frame that is delivered. */
  ghost predicate FollowedFrom(l: Line, arrivals: seq<Arrival>, k: nat)
    requires ValidConfig(l.cfg)
  {
    forall i :: k <= i < |arrivals| && Delivered(l, arrivals, i) ==>
      Followable(l.cfg, After(l, arrivals[..i]), arrivals[i].frame)
  }

  lemma PrefixOk(l: Line, arrivals: seq<Arrival>, n: nat)
    requires ValidConfig(l.cfg) && n <= |arrivals|
    ensures forall i :: 0 <= i < n ==> Turn(l, arrivals[..n], i) == Turn(l, arrivals, i)
    ensures forall i :: 0 <= i < n ==> Delivered(l, arrivals[..n], i) == Delivered(l, arrivals, i)
    ensures forall k :: FollowedFrom(l, arrivals, k) ==> FollowedFrom(l, arrivals[..n], k)
  {
    assert forall i :: 0 <= i < n ==> arrivals[..n][..i] == arrivals[..i];
  }

  /** The page after every message of the run has been shown in order. */
  ghost function Display(l: Line, arrivals: seq<Arrival>, screens: Screens): (r: Screens)
    requires ValidConfig(l.cfg)
    ensures r.Keys == screens.Keys
  {
    if arrivals == [] then screens
    else ShowMessages(l.codec, Display(l, arrivals[..|arrivals| - 1], screens),
                      Turn(l, arrivals, |arrivals| - 1).messages)
  }

  /** The viewer shows the sender's last delivered frame. */
  ghost predicate InStep(index: byte, s: Sender, screens: Screens) {
    s.prev.Some? ==>
      && Addressable(s.prev.value.data, s.prev.value.geo)
      && (index in screens ==> screens[index] == Rgba(s.prev.value.data, s.prev.value.geo))
  }

  /** Two message lists of the shapes a turn produces. */
  lemma ShowOne(codec: Codec, screens: Screens, m: seq<byte>)
    ensures ShowMessages(codec, screens, [m]) == ShowMessage(codec, screens, m)
  {
    assert [m][..0] == [];
  }

  lemma ShowTwo(codec: Codec, screens: Screens, m: seq<byte>, e: seq<byte>)
    requires ParseStreamFrame(e).Err?
    ensures ShowMessages(codec, screens, [m, e]) == ShowMessage(codec, screens, m)
  {
    assert [m, e][..1] == [m];
    ShowOne(codec, screens, m);
  }

  /** Everything one turn sends amounts to its keyframe or delta, or to nothing. */
  lemma TurnShows(l: Line, s: Sender, a: Arrival, screens: Screens)
    requires ValidLine(l) && CanSend(l.cfg, s, a.frame)
    ensures var r := Step(l.codec, l.cfg, l.index, s, a);
            (ShowMessages(l.codec, screens, r.messages)
             == if r.delivered then ShowMessage(l.codec, screens, NextMessage(l.codec, l.cfg, l.index, s, a.frame))
                else screens)
  {
    hide Envelope, NextMessage, ShowMessage;
    var r := Step(l.codec, l.cfg, l.index, s, a);
    var m := NextMessage(l.codec, l.cfg, l.index, s, a.frame);
    H264MessageRejected(l.index, a);
    if r.messages == [m] {
      ShowOne(l.codec, screens, m);
    } else if r.delivered {
      ShowTwo(l.codec, screens, m, H264Message(l.index, a));
    }
  }

  lemma H264MessageRejected(index: byte, a: Arrival)
    ensures ParseStreamFrame(H264Message(index, a)).Err?
  {
    var f := a.frame;
    H264Rejected(H264Params(a.nal, index, U32(f.sequence), U32(f.timestampMs), U16(f.geo.width), U16(f.geo.height)));
  }

  /** Showing a message that parses to `f` repaints exactly the canvas it names. */
  lemma ShowParsed(codec: Codec, screens: Screens, buffer: seq<byte>, f: StreamFrame)
    requires ParseStreamFrame(buffer) == Ok(f)
    ensures var r := ShowMessage(codec, screens, buffer);
            && (f.instanceIndex in screens ==>
                  r[f.instanceIndex] == ShowFrame(codec, f, screens[f.instanceIndex]).canvas)
            && forall j :: j in screens && j != f.instanceIndex ==> r[j] == screens[j]
  {
  }

  ghost function NextParams(l: Line, s: Sender, f: RawFrame): EncodeParams
    requires ValidConfig(l.cfg) && CanSend(l.cfg, s, f)
  {
    RawFrameParams(f, KindOfNext(l.cfg, s), NextPayload(l.codec, l.cfg, s, f), l.index, l.cfg.tileSize)
  }

  lemma SeenCarries(l: Line, s: Sender, f: RawFrame)
    requires ValidConfig(l.cfg) && CanSend(l.cfg, s, f) && FitsHeader(f.geo)
    ensures Carries(Seen(NextParams(l, s, f)), KindOf(KindOfNext(l.cfg, s)), f.geo,
                    NextPayload(l.codec, l.cfg, s, f))
  {
    hide RawBytes, Addressable, NextPayload, ForceKeyframe, DeltaReadable, Needed;
  }

  /** What the viewer makes of the next message is the next frame. */
  lemma NextFrameShown(l: Line, s: Sender, f: RawFrame, canvas: Canvas)
    requires ValidLine(l) && Followable(l.cfg, s, f) && Addressable(f.data, f.geo)
    requires KindOfNext(l.cfg, s) == Delta ==> Addressable(s.prev.value.data, s.prev.value.geo)
    requires KindOfNext(l.cfg, s) == Delta ==> canvas == Rgba(s.prev.value.data, s.prev.value.geo)
    ensures ShowFrame(l.codec, Seen(NextParams(l, s, f)), canvas).canvas == Rgba(f.data, f.geo)
  {
    hide ShowFrame, DeltaBytes, ImageBytes, Carries, Seen, Rgba, Addressable, DeltaReadable, UncountedLookSame;
    SeenCarries(l, s, f);
    if KindOfNext(l.cfg, s) == Keyframe {
      KeyframeDisplays(l.codec, Seen(NextParams(l, s, f)), canvas, f.data, f.geo);
    } else {
      SameViewSamePicture(s.prev.value.data, s.prev.value.geo, f.geo);
      EmittedIffChanged(s.prev.value.data, f.data, f.geo, l.cfg.tileSize);
      DeltaDisplaysIff(l.codec, Seen(NextParams(l, s, f)), s.prev.value.data, f.data, f.geo, l.cfg.tileSize);
    }
  }

  /** What is sent names its own canvas, whatever it shows there. */
  lemma OwnCanvasOnly(l: Line, s: Sender, f: RawFrame, screens: Screens)
    requires ValidLine(l) && CanSend(l.cfg, s, f)
    requires |NextMessage(l.codec, l.cfg, l.index, s, f)| <= l.cfg.backpressureLimit
    ensures var r := ShowMessage(l.codec, screens, NextMessage(l.codec, l.cfg, l.index, s, f));
            && (l.index in screens ==>
                  r[l.index] == ShowFrame(l.codec, Seen(NextParams(l, s, f)), screens[l.index]).canvas)
            && forall j :: j in screens && j != l.index ==> r[j] == screens[j]
  {
    hide Header, ShowMessage, ShowFrame, NextPayload, CanSend;
    var p := NextParams(l, s, f);
    EnvelopeRoundTrip(p);
    ShowParsed(l.codec, screens, Envelope(p, FLAG_DEFLATE_RAW), Seen(p));
  }

  /** A turn changes no canvas but its own, whatever frame arrives; without a delivery
      it changes none. */
  lemma TurnTouchesOwnCanvas(l: Line, s: Sender, a: Arrival, screens: Screens)
    requires ValidLine(l)
    ensures var r := TryStep(l, s, a);
            var shown := ShowMessages(l.codec, screens, r.messages);
            && (!r.delivered ==> shown == screens)
            && forall j :: j in screens && j != l.index ==> shown[j] == screens[j]
  {
    hide NextMessage, ShowMessage, CanSend;
    if CanSend(l.cfg, s, a.frame) {
      TurnShows(l, s, a, screens);
      hide ShowMessages;
      if Step(l.codec, l.cfg, l.index, s, a).delivered {
        OwnCanvasOnly(l, s, a.frame, screens);
      }
    }
  }

  /** A delivered turn that can be followed brings viewer and sender in step: a keyframe
      from any canvas, a delta if they were in step before. */
  lemma DeliveryShows(l: Line, s: Sender, a: Arrival, screens: Screens)
    requires ValidLine(l) && Followable(l.cfg, s, a.frame) && TryStep(l, s, a).delivered
    requires KindOfNext(l.cfg, s) == Keyframe || InStep(l.index, s, screens)
    ensures var r := TryStep(l, s, a);
            InStep(l.index, r.next, ShowMessages(l.codec, screens, r.messages))
  {
    hide NextMessage, ShowMessages, ShowMessage, ShowFrame, Rgba, Addressable, DeltaReadable, UncountedLookSame, Seen;
    SentIsAddressable(l.cfg, s, a.frame);
    TurnShows(l, s, a, screens);
    OwnCanvasOnly(l, s, a.frame, screens);
    if l.index in screens {
      NextFrameShown(l, s, a.frame, screens[l.index]);
    }
  }

  /** A turn keeps viewer and sender in step: delivered, dropped, or ended by a panic. */
  lemma TurnKeepsInStep(l: Line, s: Sender, a: Arrival, screens: Screens)
    requires ValidLine(l) && InStep(l.index, s, screens)
    requires TryStep(l, s, a).delivered ==> Followable(l.cfg, s, a.frame)
    ensures var r := TryStep(l, s, a);
            InStep(l.index, r.next, ShowMessages(l.codec, screens, r.messages))
  {
    hide ShowMessages, Followable, Step, Rgba, Addressable, CanSend;
    TurnTouchesOwnCanvas(l, s, a, screens);
    TurnMovesPrev(l, s, a);
    if TryStep(l, s, a).delivered {
      DeliveryShows(l, s, a, screens);
    }
  }

  /** Over every run, whatever arrives and whatever is dropped, other canvases stay as they were. */
  lemma {:induction false} OtherCanvasesStay(l: Line, arrivals: seq<Arrival>, screens: Screens)
    requires ValidLine(l)
    ensures forall j :: j in screens && j != l.index ==> Display(l, arrivals, screens)[j] == screens[j]
  {
    hide TryStep, ShowMessages;
    if arrivals == [] {
    } else {
      var n := |arrivals| - 1;
      OtherCanvasesStay(l, arrivals[..n], screens);
      TurnTouchesOwnCanvas(l, After(l, arrivals[..n]), arrivals[n], Display(l, arrivals[..n], screens));
    }
  }

  /** From a delivered keyframe on, over every run with any pattern of deliveries and
      drops, the canvas shows the sender's previous frame. Nothing is asked of what came
      before: a keyframe repairs any canvas. */
  lemma {:induction false} ViewerFollowsSender(l: Line, arrivals: seq<Arrival>, screens: Screens, k: nat)
    requires ValidLine(l) && k < |arrivals| && FollowedFrom(l, arrivals, k)
    requires Delivered(l, arrivals, k) && Turn(l, arrivals, k).kind == Keyframe
    ensures InStep(l.index, After(l, arrivals), Display(l, arrivals, screens))
    decreases |arrivals|
  {
    hide TryStep, ShowMessages, Followable, FollowedFrom, InStep;
    var n := |arrivals| - 1;
    var init := arrivals[..n];
    PrefixOk(l, arrivals, n);
    DeliveredKind(l, After(l, init), arrivals[n]);
    LastFollowed(l, arrivals, k);
    if k == n {
      DeliveryShows(l, After(l, init), arrivals[n], Display(l, init, screens));
    } else {
      ViewerFollowsSender(l, init, screens, k);
      TurnKeepsInStep(l, After(l, init), arrivals[n], Display(l, init, screens));
    }
  }

  lemma LastFollowed(l: Line, arrivals: seq<Arrival>, k: nat)
    requires ValidConfig(l.cfg) && k < |arrivals| && FollowedFrom(l, arrivals, k)
    ensures var n := |arrivals| - 1;
            Delivered(l, arrivals, n) ==> Followable(l.cfg, After(l, arrivals[..n]), arrivals[n].frame)
  {
  }

  lemma DeliveredKind(l: Line, s: Sender, a: Arrival)
    requires ValidConfig(l.cfg)
    ensures var r := TryStep(l, s, a);
            r.delivered ==> CanSend(l.cfg, s, a.frame) && r.kind == KindOfNext(l.cfg, s)
  {
    hide CanSend;
  }

  /** There is no `prev` exactly when nothing was delivered... */
  lemma {:induction false} NoPrevIffNoneDelivered(l: Line, arrivals: seq<Arrival>)
    requires ValidConfig(l.cfg)
    ensures After(l, arrivals).prev == None <==> forall i :: 0 <= i < |arrivals| ==> !Delivered(l, arrivals, i)
  {
    hide Step, CanSend;
    if arrivals == [] {
    } else {
      var n := |arrivals| - 1;
      NoPrevIffNoneDelivered(l, arrivals[..n]);
      PrefixOk(l, arrivals, n);
      assert forall i :: 0 <= i < n ==> Delivered(l, arrivals[..n], i) == Delivered(l, arrivals, i);
      TurnMovesPrev(l, After(l, arrivals[..n]), arrivals[n]);
      assert After(l, arrivals) == Turn(l, arrivals, n).next;
      assert Delivered(l, arrivals, n) ==> After(l, arrivals).prev.Some?;
    }
  }

  /** ...and otherwise `prev` is the frame of the last delivered arrival. */
  lemma {:induction false} PrevIsLastDelivered(l: Line, arrivals: seq<Arrival>, i: nat)
    requires ValidConfig(l.cfg) && i < |arrivals| && Delivered(l, arrivals, i)
    requires forall j :: i < j < |arrivals| ==> !Delivered(l, arrivals, j)
    ensures After(l, arrivals).prev == Some(arrivals[i].frame)
  {
    hide Step, CanSend;
    var n := |arrivals| - 1;
    TurnMovesPrev(l, After(l, arrivals[..n]), arrivals[n]);
    if i == n {
    } else {
      PrefixOk(l, arrivals, n);
      assert forall j :: 0 <= j < n ==> Delivered(l, arrivals[..n], j) == Delivered(l, arrivals, j);
      PrevIsLastDelivered(l, arrivals[..n], i);
      assert !Delivered(l, arrivals, n);
    }
  }

  /** `prev` moves on delivery and only then; a dropped keyframe or delta leaves it. */
  lemma TurnMovesPrev(l: Line, s: Sender, a: Arrival)
    requires ValidConfig(l.cfg)
    ensures var r := TryStep(l, s, a);
            && r.next.prev == (if r.delivered then Some(a.frame) else s.prev)
            && (r.kind == Delta ==> s.prev.Some?)
  {
  }

  /** After any run, the canvas is the picture of the last delivered frame, if the viewer
      can follow what is delivered from some delivered keyframe on. Whatever was shown
      before that keyframe, and whatever went wrong, is repaired. */
  lemma KeyframeRepairsCanvas(l: Line, arrivals: seq<Arrival>, screens: Screens, k: nat, i: nat)
    requires ValidLine(l) && k <= i < |arrivals| && l.index in screens
    requires Delivered(l, arrivals, k) && Turn(l, arrivals, k).kind == Keyframe && FollowedFrom(l, arrivals, k)
    requires Delivered(l, arrivals, i) && forall j :: i < j < |arrivals| ==> !Delivered(l, arrivals, j)
    ensures Addressable(arrivals[i].frame.data, arrivals[i].frame.geo)
    ensures Display(l, arrivals, screens)[l.index] == Rgba(arrivals[i].frame.data, arrivals[i].frame.geo)
  {
    hide Rgba, TryStep, Display, FollowedFrom, Addressable;
    ViewerFollowsSender(l, arrivals, screens, k);
    PrevIsLastDelivered(l, arrivals, i);
  }

  /** The headline: after any run whose delivered frames can all be followed, the canvas
      is the picture of the last delivered frame. */
  lemma CanvasShowsLastDelivered(l: Line, arrivals: seq<Arrival>, screens: Screens, i: nat)
    requires ValidLine(l) && i < |arrivals| && l.index in screens && FollowedFrom(l, arrivals, 0)
    requires Delivered(l, arrivals, i) && forall j :: i < j < |arrivals| ==> !Delivered(l, arrivals, j)
    ensures Addressable(arrivals[i].frame.data, arrivals[i].frame.geo)
    ensures Display(l, arrivals, screens)[l.index] == Rgba(arrivals[i].frame.data, arrivals[i].frame.geo)
  {
    hide Rgba, TryStep, Display, Followable, Addressable, After;
    var k := i;
    if Turn(l, arrivals, i).kind != Keyframe {
      TurnKinds(l, After(l, arrivals[..i]), arrivals[i]);
      NoDeltaBeforeKeyframe(l, arrivals, i);
      k :| 0 <= k < i && Delivered(l, arrivals, k) && Turn(l, arrivals, k).kind == Keyframe;
    }
    KeyframeRepairsCanvas(l, arrivals, screens, k, i);
  }

  /** No delta reaches a viewer before a live keyframe has. */
  lemma {:induction false} NoDeltaBeforeKeyframe(l: Line, arrivals: seq<Arrival>, j: nat)
    requires ValidConfig(l.cfg) && j < |arrivals|
    requires Turn(l, arrivals, j).kind == Delta
    ensures exists i :: 0 <= i < j && Delivered(l, arrivals, i) && Turn(l, arrivals, i).kind == Keyframe
    decreases j
  {
    hide CanSend, Step;
    TurnMovesPrev(l, After(l, arrivals[..j]), arrivals[j]);
    NoPrevIffNoneDelivered(l, arrivals[..j]);
    PrefixOk(l, arrivals, j);
    var i :| 0 <= i < j && Delivered(l, arrivals[..j], i);
    if Turn(l, arrivals, i).kind != Keyframe {
      TurnKinds(l, After(l, arrivals[..i]), arrivals[i]);
      NoDeltaBeforeKeyframe(l, arrivals, i);
    }
  }

  lemma TurnKinds(l: Line, s: Sender, a: Arrival)
    requires ValidConfig(l.cfg)
    ensures TryStep(l, s, a).kind == Keyframe || TryStep(l, s, a).kind == Delta
  {
  }
}
