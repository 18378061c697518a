/** The conditions under which the stream theorems apply, and what happens outside them. */
module StreamLimits {
  import opened Bytes
  import opened Images
  import opened TileGrid
  import opened StreamProtocol
  import opened StreamParser
  import opened Viewer
  import opened StreamDisplay
  import opened Broadcast
  import opened StreamRuns

  lemma {:induction false} RowCount(prev: seq<byte>, curr: seq<byte>, g: Geometry, tileSize: nat, ty: nat, n: nat)
    requires tileSize > 0 && ty < DivCeil(g.height, tileSize) && n <= DivCeil(g.width, tileSize)
    ensures |ChangedInRow(prev, curr, g, tileSize, ty, n)| <= n
  {
    if n == 0 {
    } else {
      RowCount(prev, curr, g, tileSize, ty, n - 1);
    }
  }

  lemma {:induction false} TileCount(prev: seq<byte>, curr: seq<byte>, g: Geometry, tileSize: nat, n: nat)
    requires tileSize > 0 && n <= DivCeil(g.height, tileSize)
    ensures |ChangedTiles(prev, curr, g, tileSize, n)| <= n * DivCeil(g.width, tileSize)
  {
    var tilesX := DivCeil(g.width, tileSize);
    if n == 0 {
    } else {
      TileCount(prev, curr, g, tileSize, n - 1);
      RowCount(prev, curr, g, tileSize, n - 1, tilesX);
      assert n * tilesX == (n - 1) * tilesX + tilesX;
    }
  }

  /** The tiles of every frame of this geometry can be counted in 16 bits. */
  predicate SmallGrid(cfg: Config, g: Geometry)
    requires ValidConfig(cfg)
  {
    DivCeil(g.height, cfg.tileSize) * DivCeil(g.width, cfg.tileSize) < 0x1_0000
  }

  /** A frame that can always be encoded and compared: sizes within bounds, and every
      byte of every pixel in the buffer. */
  predicate WholeFrame(f: RawFrame) {
    NoOverflow(f.geo) && FitsHeader(f.geo) && Needed(f.geo) <= |f.data|
  }

  /** A stream of whole frames whose pixels stay in place, with a small enough grid,
      never panics and can be followed by its viewer, whatever is delivered or dropped. */
  lemma {:induction false} ConstantGeometrySuffices(l: Line, arrivals: seq<Arrival>, g: Geometry)
    requires ValidLine(l) && SmallGrid(l.cfg, g)
    requires forall i :: 0 <= i < |arrivals| ==> SameView(arrivals[i].frame.geo, g) && WholeFrame(arrivals[i].frame)
    ensures FollowedFrom(l, arrivals, 0)
    ensures var s := After(l, arrivals);
            !s.ended && (s.prev.Some? ==> SameView(s.prev.value.geo, g) && WholeFrame(s.prev.value))
  {
    hide TryStep, WholeFrame, SmallGrid, CanSend, AllChanged, Followable, SameView, ValidConfig, Invertible;
    if arrivals == [] {
    } else {
      var n := |arrivals| - 1;
      var init := arrivals[..n];
      ConstantGeometrySuffices(l, init, g);
      NextIsFollowable(l.cfg, After(l, init), arrivals[n].frame, g);
      TurnMovesPrev(l, After(l, init), arrivals[n]);
      SentGoesOn(l, After(l, init), arrivals[n]);
      PrefixOk(l, arrivals, n);
      forall i | 0 <= i < |arrivals| && Delivered(l, arrivals, i)
        ensures Followable(l.cfg, After(l, arrivals[..i]), arrivals[i].frame)
      {
        if i < n {
          assert init[..i] == arrivals[..i];
          assert Delivered(l, init, i);
        }
      }
    }
  }

  lemma NextIsFollowable(cfg: Config, s: Sender, f: RawFrame, g: Geometry)
    requires ValidConfig(cfg) && SmallGrid(cfg, g) && WholeFrame(f) && SameView(f.geo, g) && !s.ended
    requires s.prev.Some? ==> SameView(s.prev.value.geo, g) && WholeFrame(s.prev.value)
    ensures CanSend(cfg, s, f) && Followable(cfg, s, f)
  {
    SameViewSmallGrid(cfg, f.geo, g);
    hide SmallGrid, WholeFrame;
    SameViewFollowable(cfg, s, f);
  }

  lemma SentGoesOn(l: Line, s: Sender, a: Arrival)
    requires ValidConfig(l.cfg) && CanSend(l.cfg, s, a.frame)
    ensures !TryStep(l, s, a).next.ended
  {
    hide CanSend;
  }

  lemma SameViewSmallGrid(cfg: Config, g: Geometry, h: Geometry)
    requires ValidConfig(cfg) && SameView(g, h)
    ensures SmallGrid(cfg, g) == SmallGrid(cfg, h)
  {
  }

  lemma SameViewFollowable(cfg: Config, s: Sender, f: RawFrame)
    requires ValidConfig(cfg) && WholeFrame(f) && SmallGrid(cfg, f.geo) && !s.ended
    requires s.prev.Some? ==> WholeFrame(s.prev.value) && SameView(s.prev.value.geo, f.geo)
    ensures CanSend(cfg, s, f) && Followable(cfg, s, f)
  {
    if s.prev.Some? {
      SameViewNeeded(s.prev.value.geo, f.geo);
      WholeReadable(s.prev.value.data, f.data, f.geo, cfg.tileSize);
      FewTiles(cfg, s.prev.value.data, f.data, f.geo);
    }
  }

  lemma SameViewNeeded(p: Geometry, g: Geometry)
    requires SameView(p, g)
    ensures Needed(p) == Needed(g)
  {
  }

  lemma FewTiles(cfg: Config, prev: seq<byte>, curr: seq<byte>, g: Geometry)
    requires ValidConfig(cfg) && SmallGrid(cfg, g) && Needed(g) <= |prev| && Needed(g) <= |curr|
    ensures |AllChanged(prev, curr, g, cfg.tileSize)| < 0x1_0000
    ensures Addressable(prev, g) && Addressable(curr, g) && UncountedLookSame(prev, curr, g, cfg.tileSize)
  {
    TileCount(prev, curr, g, cfg.tileSize, DivCeil(g.height, cfg.tileSize));
    FewTilesLookSame(prev, curr, g, cfg.tileSize);
  }

  /** A keyframe shows its frame exactly when width and height fit their 16-bit
      header fields; a truncated size never matches the pixel data. */
  lemma KeyframeShowsIffSizeFits(l: Line, s: Sender, f: RawFrame, canvas: Canvas)
    requires ValidLine(l) && Addressable(f.data, f.geo)
    requires RawBytes(f.geo) < TWO_32
    ensures var p := RawFrameParams(f, Keyframe, l.codec.deflate(ImageBytes(Rgba(f.data, f.geo))),
                                    l.index, l.cfg.tileSize);
            ShowFrame(l.codec, Seen(p), canvas).canvas == Rgba(f.data, f.geo)
            <==> f.geo.width < 0x1_0000 && f.geo.height < 0x1_0000
  {
    var p := RawFrameParams(f, Keyframe, l.codec.deflate(ImageBytes(Rgba(f.data, f.geo))),
                            l.index, l.cfg.tileSize);
    if f.geo.width < 0x1_0000 && f.geo.height < 0x1_0000 {
      KeyframeDisplays(l.codec, Seen(p), canvas, f.data, f.geo);
    } else {
      ParseImageBytes(Rgba(f.data, f.geo));
      var shown := ShowFrame(l.codec, Seen(p), canvas).canvas;
      assert shown.width == U16(f.geo.width) && shown.height == U16(f.geo.height);
    }
  }
}
