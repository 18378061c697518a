/** The whole way of a worker's frames to the canvas, in plain numbers. */
module WorkerStreams {
  import opened Bytes
  import opened Images
  import opened TileGrid
  import opened StreamProtocol
  import opened Viewer
  import opened Broadcast
  import opened StreamRuns
  import opened StreamLimits
  import opened KeyframeCadence
  import opened WorkerResizes

  /** Frames of one size, rows packed, four bytes a pixel, sizes within the header's
      fields and the counters, and at most 65535 tiles. */
  predicate OneSize(cfg: Config, arrivals: seq<Arrival>, w: nat, h: nat) {
    && w < 0x1_0000 && h < 0x1_0000 && 4 * (w * h) < 0x1_0000_0000
    && cfg.tileSize > 0
    && Tiles(h, cfg.tileSize) * Tiles(w, cfg.tileSize) < 0x1_0000
    && forall i :: 0 <= i < |arrivals| ==>
         arrivals[i].frame.geo == Geometry(w, h, 4 * w) && |arrivals[i].frame.data| == 4 * (w * h)
  }

  /** How many tiles fit side by side, the last one perhaps clipped. */
  function Tiles(size: nat, tileSize: nat): nat
    requires tileSize > 0
  {
    if size % tileSize == 0 then size / tileSize else size / tileSize + 1
  }

  lemma TilesIsDivCeil(size: nat, tileSize: nat)
    requires tileSize > 0
    ensures Tiles(size, tileSize) == DivCeil(size, tileSize)
  {
    var n := Tiles(size, tileSize);
    assert size == tileSize * (size / tileSize) + size % tileSize;
    assert n * tileSize >= size && (n > 0 ==> (n - 1) * tileSize < size);
    DivCeilBound(size, tileSize, n);
    if n > 0 {
      DivCeilBound(size, tileSize, n - 1);
    }
  }

  lemma OneSizeIsWhole(cfg: Config, arrivals: seq<Arrival>, w: nat, h: nat)
    requires ValidConfig(cfg) && OneSize(cfg, arrivals, w, h)
    ensures SmallGrid(cfg, Geometry(w, h, 4 * w))
    ensures forall i :: 0 <= i < |arrivals| ==>
              SameView(arrivals[i].frame.geo, Geometry(w, h, 4 * w)) && WholeFrame(arrivals[i].frame)
  {
    TilesIsDivCeil(w, cfg.tileSize);
    TilesIsDivCeil(h, cfg.tileSize);
    var g := Geometry(w, h, 4 * w);
    PackedSize(g);
    hide DivCeil, Tiles, Needed;
  }

  lemma PackedSize(g: Geometry)
    requires g.pitch == 4 * g.width
    ensures Needed(g) == 4 * (g.width * g.height)
  {
    if g.width > 0 && g.height > 0 {
      assert (g.height - 1) * (4 * g.width) + 4 * g.width == g.height * (4 * g.width);
      assert g.height * (4 * g.width) == 4 * (g.width * g.height);
    } else {
      assert g.width * g.height == 0;
    }
  }

  /** Such frames, and only such, are a worker's frames. */
  lemma WorkerFrameIff(f: RawFrame)
    ensures var w, h := f.geo.width, f.geo.height;
            WorkerFrame(f) <==>
            && w < 0x1_0000 && h < 0x1_0000 && 4 * (w * h) < 0x1_0000_0000
            && f.geo.pitch == 4 * w && |f.data| == 4 * (w * h)
  {
    if f.geo.pitch == 4 * f.geo.width {
      PackedSize(f.geo);
    }
    hide Needed;
  }

  /** A worker's stream of one size never ends, every frame can be encoded, and the
      theorems about cadence apply. */
  lemma {:induction false} NeverEnds(l: Line, arrivals: seq<Arrival>, w: nat, h: nat)
    requires ValidLine(l) && OneSize(l.cfg, arrivals, w, h)
    ensures Encodable(l, arrivals) && !After(l, arrivals).ended && FollowedFrom(l, arrivals, 0)
  {
    hide After, WholeFrame, SmallGrid, CanSend, FollowedFrom, SameView;
    OneSizeIsWhole(l.cfg, arrivals, w, h);
    ConstantGeometrySuffices(l, arrivals, Geometry(w, h, 4 * w));
    forall i | 0 <= i < |arrivals|
      ensures CanSend(l.cfg, After(l, arrivals[..i]), arrivals[i].frame)
    {
      ConstantGeometrySuffices(l, arrivals[..i], Geometry(w, h, 4 * w));
      NextIsFollowable(l.cfg, After(l, arrivals[..i]), arrivals[i].frame, Geometry(w, h, 4 * w));
    }
  }

  /** Pixel (x, y) of a canvas `w` wide and `h` high has the colours stored at its place,
      blue first. */
  predicate ShowsPixel(canvas: Canvas, data: seq<byte>, w: nat, h: nat, x: nat, y: nat) {
    var at := 4 * (y * w + x);
    && canvas.width == w && canvas.height == h && x < w && y < h && at + 4 <= |data|
    && canvas.rows[y][x] == Pixel(data[at + 2], data[at + 1], data[at], 255)
  }

  /** After any run of such a stream, with any pattern of drops, every pixel of the
      canvas is the red, green and blue of the last delivered frame's four bytes there. */
  lemma PixelsShown(l: Line, arrivals: seq<Arrival>, screens: Screens, w: nat, h: nat, i: nat, x: nat, y: nat)
    requires ValidLine(l) && OneSize(l.cfg, arrivals, w, h) && i < |arrivals| && l.index in screens
    requires Delivered(l, arrivals, i) && forall j :: i < j < |arrivals| ==> !Delivered(l, arrivals, j)
    requires x < w && y < h
    ensures ShowsPixel(Display(l, arrivals, screens)[l.index], arrivals[i].frame.data, w, h, x, y)
  {
    hide FollowedFrom, Encodable, After, Display, Delivered;
    NeverEnds(l, arrivals, w, h);
    CanvasShowsLastDelivered(l, arrivals, screens, i);
    PixelOf(arrivals[i].frame, w, h, x, y);
  }

  lemma PixelOf(f: RawFrame, w: nat, h: nat, x: nat, y: nat)
    requires f.geo == Geometry(w, h, 4 * w) && |f.data| == 4 * (w * h) && x < w && y < h && Addressable(f.data, f.geo)
    ensures 4 * (y * w + x) + 4 <= |f.data|
    ensures var at := 4 * (y * w + x);
            Rgba(f.data, f.geo).rows[y][x] == Pixel(f.data[at + 2], f.data[at + 1], f.data[at], 255)
  {
    OffsetBound(w, h, x, y);
    RgbaAt(f.data, f.geo, x, y);
    assert At(f.geo.pitch, x, y) == 4 * (y * w + x);
    hide Rgba;
  }
}
