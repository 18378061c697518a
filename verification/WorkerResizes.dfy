/** Changes of size in the frames a worker really sends: rows packed, and exactly as
    many bytes as pixels need. */
module WorkerResizes {
  import opened Bytes
  import opened Images
  import opened TileGrid
  import opened StreamProtocol
  import opened Viewer
  import opened Broadcast
  import opened StreamRuns
  import opened StreamLimits
  import opened GeometryChanges

  predicate WorkerGeometry(g: Geometry) {
    g.pitch == 4 * g.width && NoOverflow(g) && FitsHeader(g)
  }

  predicate WorkerFrame(f: RawFrame) {
    WorkerGeometry(f.geo) && |f.data| == RawBytes(f.geo)
  }

  lemma PackedNeeded(g: Geometry)
    requires WorkerGeometry(g)
    ensures Needed(g) == RawBytes(g)
  {
    if g.width > 0 && g.height > 0 {
      assert (g.height - 1) * (4 * g.width) + 4 * g.width == g.height * (4 * g.width);
      assert g.height * (4 * g.width) == 4 * (g.width * g.height);
    } else {
      assert g.width * g.height == 0;
    }
  }

  /** Where the comparison of the grid's last tile starts. */
  function LastTileStart(g: Geometry, tileSize: nat): nat
    requires tileSize > 0 && g.width > 0 && g.height > 0
  {
    LastTileExists(g, tileSize);
    var r := TileRect(g, tileSize, DivCeil(g.width, tileSize) - 1, DivCeil(g.height, tileSize) - 1);
    At(g.pitch, r.x, r.y)
  }

  lemma LastTileExists(g: Geometry, tileSize: nat)
    requires tileSize > 0 && g.width > 0 && g.height > 0
    ensures DivCeil(g.width, tileSize) > 0 && DivCeil(g.height, tileSize) > 0
  {
    DivCeilBound(g.width, tileSize, 0);
    DivCeilBound(g.height, tileSize, 0);
  }

  /** The last tile starts behind the buffer of the previous, smaller frame. */
  predicate StartsBeyond(p: Geometry, g: Geometry, tileSize: nat)
    requires tileSize > 0
  {
    g.width > 0 && g.height > 0 && LastTileStart(g, tileSize) + 4 > RawBytes(p)
  }

  /** A tile whose first pixel is missing in the previous buffer makes the encoder panic. */
  lemma BeyondPanics(prev: seq<byte>, curr: seq<byte>, g: Geometry, tileSize: nat)
    requires tileSize > 0 && g.width > 0 && g.height > 0 && LastTileStart(g, tileSize) + 4 > |prev|
    ensures !DeltaReadable(prev, curr, g, tileSize)
  {
    LastTileExists(g, tileSize);
    var tx, ty := DivCeil(g.width, tileSize) - 1, DivCeil(g.height, tileSize) - 1;
    var r := TileRect(g, tileSize, tx, ty);
    hide DivCeil, TileRect, Needed;
    assert Inside(r.x, r.y, r);
    assert !Decided(prev, curr, g.pitch, r, r.x, r.y);
    assert !TileReadable(prev, curr, g.pitch, TileRect(g, tileSize, tx, ty));
  }

  /** When a game's picture grows so much, the first delta after the change ends the
      sender of its viewer, whatever the two frames show. */
  lemma GrowthEndsStream(l: Line, s: Sender, a: Arrival)
    requires ValidConfig(l.cfg) && KindOfNext(l.cfg, s) == Delta && WorkerFrame(s.prev.value) && WorkerFrame(a.frame)
    requires StartsBeyond(s.prev.value.geo, a.frame.geo, l.cfg.tileSize)
    ensures !CanSend(l.cfg, s, a.frame) && TryStep(l, s, a).next.ended && TryStep(l, s, a).messages == []
  {
    BeyondPanics(s.prev.value.data, a.frame.data, a.frame.geo, l.cfg.tileSize);
    hide DeltaReadable, LastTileStart;
  }

  lemma TileStartBound(g: Geometry, tileSize: nat, tx: nat, ty: nat)
    requires tileSize > 0 && tx < DivCeil(g.width, tileSize) && ty < DivCeil(g.height, tileSize)
    ensures g.width > 0 && g.height > 0
    ensures var r := TileRect(g, tileSize, tx, ty); At(g.pitch, r.x, r.y) <= LastTileStart(g, tileSize)
  {
    DivCeilBound(g.width, tileSize, tx);
    DivCeilBound(g.height, tileSize, ty);
    LastTileExists(g, tileSize);
    var lx, ly := DivCeil(g.width, tileSize) - 1, DivCeil(g.height, tileSize) - 1;
    hide DivCeil;
    ProductsGrow(tx, lx, tileSize);
    ProductsGrow(ty, ly, tileSize);
    ProductsGrow(ty * tileSize, ly * tileSize, g.pitch);
  }

  lemma ProductsGrow(a: nat, b: nat, c: nat)
    requires a <= b
    ensures a * c <= b * c
  {
  }

  /** Otherwise some frames get through: every tile can differ in its first pixel. */
  lemma EarlyDifferences(p: Geometry, g: Geometry, tileSize: nat)
    requires tileSize > 0 && WorkerGeometry(g) && !StartsBeyond(p, g, tileSize)
    ensures DeltaReadable(Zeros(RawBytes(p)), Ones(RawBytes(g)), g, tileSize)
  {
    var prev, curr := Zeros(RawBytes(p)), Ones(RawBytes(g));
    PackedNeeded(g);
    forall tx, ty | 0 <= tx < DivCeil(g.width, tileSize) && 0 <= ty < DivCeil(g.height, tileSize)
      ensures TileReadable(prev, curr, g.pitch, TileRect(g, tileSize, tx, ty))
    {
      TileStartBound(g, tileSize, tx, ty);
      FirstPixelDiffers(prev, curr, g, TileRect(g, tileSize, tx, ty));
    }
  }

  lemma FirstPixelDiffers(prev: seq<byte>, curr: seq<byte>, g: Geometry, r: Rect)
    requires Within(r, g.width, g.height) && Needed(g) <= |curr| && At(g.pitch, r.x, r.y) + 4 <= |prev|
    requires (forall i :: 0 <= i < |prev| ==> prev[i] == 0) && (forall i :: 0 <= i < |curr| ==> curr[i] == 1)
    ensures TileReadable(prev, curr, g.pitch, r)
  {
    WholePixel(g, r.x, r.y);
    var at := At(g.pitch, r.x, r.y);
    assert prev[at..at + 4][0] != curr[at..at + 4][0];
    assert Inside(r.x, r.y, r) && Differs(prev, curr, g.pitch, r.x, r.y);
    forall x: nat, y: nat | Inside(x, y, r)
      ensures Decided(prev, curr, g.pitch, r, x, y) && InBuffer(curr, g.pitch, x, y)
    {
      WholePixel(g, x, y);
      assert (x, y) == (r.x, r.y) || Precedes(r.x, r.y, x, y);
    }
  }

  lemma WorkerCanSend(cfg: Config, first: RawFrame, second: RawFrame)
    requires ValidConfig(cfg) && WorkerFrame(first) && WorkerFrame(second)
    requires DeltaReadable(first.data, second.data, second.geo, cfg.tileSize)
    ensures CanSend(cfg, FRESH_SENDER, first) && IsDelta(cfg, AfterKeyframe(first), second, first.geo)
  {
    PackedNeeded(first.geo);
    hide DeltaReadable, RawBytes, Needed;
    WholeCanSend(cfg, first, second);
  }

  /** Every countable delta between worker frames of the two sizes shows its frame. */
  ghost predicate WorkerDeltasShown(l: Line, p: Geometry, g: Geometry) {
    forall first: RawFrame, second: RawFrame ::
      first.geo == p && second.geo == g && WorkerFrame(first) && WorkerFrame(second) && FewChanges(l, first, second) ==>
        Shows(l, AfterKeyframe(first), second, p)
  }

  /** Exactly which changes of size go well for a worker's frames: none, or one so large
      that no delta is ever sent because the encoder panics on all of them. */
  lemma WorkerDeltasShownIff(l: Line, p: Geometry, g: Geometry)
    requires ValidLine(l) && WorkerGeometry(p) && WorkerGeometry(g) && SmallGrid(l.cfg, g)
    ensures WorkerDeltasShown(l, p, g)
       <==> (p.width == g.width && p.height == g.height) || StartsBeyond(p, g, l.cfg.tileSize)
  {
    hide Shows, CanSend, AllChanged, NoOverflow, KindOfNext, Addressable, RawBytes, DeltaReadable;
    hide LastTileStart, SmallGrid;
    if p.width == g.width && p.height == g.height {
      forall first: RawFrame, second: RawFrame | first.geo == p && second.geo == g && FewChanges(l, first, second)
        ensures Shows(l, AfterKeyframe(first), second, p)
      {
        FewChangesShown(l, first, second);
      }
    } else if StartsBeyond(p, g, l.cfg.tileSize) {
      forall first: RawFrame, second: RawFrame |
        first.geo == p && second.geo == g && WorkerFrame(first) && WorkerFrame(second)
        ensures !FewChanges(l, first, second)
      {
        NothingSent(l, first, second);
      }
    } else {
      var first, second := RawFrame(p, Zeros(RawBytes(p)), 0, 0), RawFrame(g, Ones(RawBytes(g)), 0, 0);
      EarlyDifferences(p, g, l.cfg.tileSize);
      WorkerCanSend(l.cfg, first, second);
      CountSmall(l.cfg, first.data, second.data, g);
      NewSizeNotShown(l, AfterKeyframe(first), second, p);
    }
  }

  lemma NothingSent(l: Line, first: RawFrame, second: RawFrame)
    requires ValidConfig(l.cfg) && WorkerFrame(first) && WorkerFrame(second)
    requires StartsBeyond(first.geo, second.geo, l.cfg.tileSize)
    ensures !IsDelta(l.cfg, AfterKeyframe(first), second, first.geo)
  {
    BeyondPanics(first.data, second.data, second.geo, l.cfg.tileSize);
    hide DeltaReadable, LastTileStart;
  }

  lemma CountSmall(cfg: Config, prev: seq<byte>, curr: seq<byte>, g: Geometry)
    requires ValidConfig(cfg) && SmallGrid(cfg, g)
    ensures |AllChanged(prev, curr, g, cfg.tileSize)| < 0x1_0000
  {
    TileCount(prev, curr, g, cfg.tileSize, DivCeil(g.height, cfg.tileSize));
  }

  /** When the picture does not get more pixels, a change of size can even be missed
      altogether: two all-black worker frames, no tile, and a viewer that gets both
      keeps the first picture in its old size. */
  lemma ShrinkIsMissed(l: Line, p: Geometry, g: Geometry, screens: Screens)
    returns (first: RawFrame, second: RawFrame)
    requires ValidLine(l) && WorkerGeometry(p) && WorkerGeometry(g)
    requires (p.width != g.width || p.height != g.height) && RawBytes(g) <= RawBytes(p)
    ensures first.geo == p && second.geo == g && WorkerFrame(first) && WorkerFrame(second)
    ensures CanSend(l.cfg, FRESH_SENDER, first) && IsDelta(l.cfg, AfterKeyframe(first), second, p)
    ensures AllChanged(first.data, second.data, g, l.cfg.tileSize) == []
    ensures Addressable(second.data, g) && !Shows(l, AfterKeyframe(first), second, p)
    ensures var run := TwoFrames(first, second);
            Delivered(l, run, 0) && Delivered(l, run, 1) && l.index in screens ==>
              Display(l, run, screens)[l.index] == Rgba(first.data, p) != Rgba(second.data, g)
  {
    first, second := RawFrame(p, Zeros(RawBytes(p)), 0, 0), RawFrame(g, Zeros(RawBytes(g)), 0, 0);
    PackedNeeded(g);
    hide Rgba, DeltaReadable, CanSend, AllChanged, ShownAfter, KindOfNext, Display, After, NoOverflow, RawBytes;
    WholeReadable(first.data, second.data, g, l.cfg.tileSize);
    WorkerCanSend(l.cfg, first, second);
    SentIsAddressable(l.cfg, AfterKeyframe(first), second);
    hide Addressable, Needed;
    SameBytesNoTiles(first.data, second.data, g, l.cfg.tileSize);
    EmptyDeltaKeepsPicture(l, AfterKeyframe(first), second, p);
    if Delivered(l, TwoFrames(first, second), 0) {
      TwoFrameRun(l, first, second, screens);
    }
  }
}
