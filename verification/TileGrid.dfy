/** Raw XRGB frames and the grid of tiles a delta is made of: what the encoder
    in crates/streaming/src/protocol.rs is supposed to send. */
module TileGrid {
  import opened Bytes
  import opened Images

  /** `pitch` is the distance between rows in bytes. */
  datatype Geometry = Geometry(width: nat, height: nat, pitch: nat)

  /** `sequence` and `timestampMs` are the numbers the frame hub stamps on. */
  datatype RawFrame = RawFrame(geo: Geometry, data: seq<byte>, sequence: nat, timestampMs: nat)

  /** The three colour bytes of every visible pixel lie inside the buffer. The fourth
      byte of the last pixel may be missing. */
  predicate Addressable(data: seq<byte>, g: Geometry) {
    g.width > 0 && g.height > 0 ==> (g.height - 1) * g.pitch + 4 * g.width <= |data| + 1
  }

  /** The length of a frame's RGBA bytes. */
  function RawBytes(g: Geometry): nat {
    4 * (g.width * g.height)
  }

  /** First byte of pixel (x, y). */
  function At(pitch: nat, x: nat, y: nat): nat {
    y * pitch + 4 * x
  }

  lemma AtBound(data: seq<byte>, g: Geometry, x: nat, y: nat)
    requires Addressable(data, g) && x < g.width && y < g.height
    ensures At(g.pitch, x, y) + 4 <= (g.height - 1) * g.pitch + 4 * g.width <= |data| + 1
  {
    assert y * g.pitch <= (g.height - 1) * g.pitch;
  }

  /** The pixel of an XRGB8888 buffer as the viewer should show it: blue, green
      and red are stored in that order, the fourth byte is ignored. */
  function XrgbPixel(data: seq<byte>, at: nat): Pixel
    requires at + 3 <= |data|
  {
    Pixel(data[at + 2], data[at + 1], data[at], 255)
  }

  /** The RGBA image of an XRGB buffer. */
  function Rgba(data: seq<byte>, g: Geometry): (c: Canvas)
    requires Addressable(data, g)
    ensures c.width == g.width && c.height == g.height
  {
    Image(g.width, g.height, seq(g.height, y requires 0 <= y < g.height => RgbaRow(data, g, y)))
  }

  function RgbaRow(data: seq<byte>, g: Geometry, y: nat): (row: seq<Pixel>)
    requires Addressable(data, g) && y < g.height
    ensures |row| == g.width
  {
    seq(g.width, x requires 0 <= x < g.width =>
      AtBound(data, g, x, y);
      XrgbPixel(data, At(g.pitch, x, y)))
  }

  /** Two geometries that put every visible pixel at the same place. */
  predicate SameView(p: Geometry, g: Geometry) {
    p.width == g.width && p.height == g.height && (p.pitch == g.pitch || g.height <= 1 || g.width == 0)
  }

  /** Under such geometries a buffer is the same picture. */
  lemma SameViewSamePicture(data: seq<byte>, p: Geometry, g: Geometry)
    requires SameView(p, g) && Addressable(data, p) && Addressable(data, g)
    ensures Rgba(data, p) == Rgba(data, g)
  {
    forall y, x | 0 <= y < g.height && 0 <= x < g.width
      ensures Rgba(data, p).rows[y][x] == Rgba(data, g).rows[y][x]
    {
      AtBound(data, p, x, y);
      AtBound(data, g, x, y);
      assert y == 0 || p.pitch == g.pitch;
    }
    SameCanvas(Rgba(data, p), Rgba(data, g));
  }

  /** The shortest buffer for a geometry. */
  function Needed(g: Geometry): nat {
    if g.width > 0 && g.height > 0 then (g.height - 1) * g.pitch + 4 * g.width else 0
  }

  /** A black frame whose only lit pixel is the first of row 1 when rows are `g.pitch` apart. */
  function Marked(p: Geometry, g: Geometry): (data: seq<byte>)
    requires 0 < g.width && 1 < g.height && p.width == g.width && p.height == g.height
    ensures Addressable(data, p) && Addressable(data, g)
    ensures g.pitch + 4 <= |data| && p.pitch + 4 <= |data| && |data| == Needed(p) + Needed(g)
  {
    LastRow(p);
    LastRow(g);
    seq(Needed(p) + Needed(g), i => if i == g.pitch then 1 else 0)
  }

  lemma LastRow(g: Geometry)
    requires 1 < g.height
    ensures (g.height - 1) * g.pitch >= g.pitch
  {
    assert (g.height - 2) * g.pitch >= 0;
  }

  /** It looks different when the rows are another distance apart. */
  lemma MarkedDiffers(p: Geometry, g: Geometry)
    requires 0 < g.width && 1 < g.height && p.width == g.width && p.height == g.height && p.pitch != g.pitch
    ensures Rgba(Marked(p, g), p) != Rgba(Marked(p, g), g)
  {
    var data := Marked(p, g);
    hide Marked, Rgba, Addressable;
    RowOneStart(data, p);
    RowOneStart(data, g);
    MarkedAt(p, g);
  }

  lemma MarkedAt(p: Geometry, g: Geometry)
    requires 0 < g.width && 1 < g.height && p.width == g.width && p.height == g.height && p.pitch != g.pitch
    ensures Marked(p, g)[p.pitch] == 0 && Marked(p, g)[g.pitch] == 1
  {
    hide Needed, Addressable;
  }

  lemma RowOneStart(data: seq<byte>, g: Geometry)
    requires Addressable(data, g) && 0 < g.width && 1 < g.height && g.pitch + 4 <= |data|
    ensures Rgba(data, g).rows[1][0].b == data[g.pitch]
  {
    assert At(g.pitch, 0, 1) == g.pitch;
    hide Addressable;
  }

  /** All four bytes of pixel (x, y) are in both buffers; otherwise comparing them panics. */
  predicate Comparable(prev: seq<byte>, curr: seq<byte>, pitch: nat, x: nat, y: nat) {
    At(pitch, x, y) + 4 <= |prev| && At(pitch, x, y) + 4 <= |curr|
  }

  predicate Differs(prev: seq<byte>, curr: seq<byte>, pitch: nat, x: nat, y: nat) {
    && Comparable(prev, curr, pitch, x, y)
    && prev[At(pitch, x, y)..At(pitch, x, y) + 4] != curr[At(pitch, x, y)..At(pitch, x, y) + 4]
  }

  /** Some visible pixel under `r` differs in one of its four bytes. */
  ghost predicate Changed(prev: seq<byte>, curr: seq<byte>, pitch: nat, r: Rect) {
    exists x: nat, y: nat :: Inside(x, y, r) && Differs(prev, curr, pitch, x, y)
  }

  /** Row by row, left to right. */
  predicate Precedes(x: nat, y: nat, x': nat, y': nat) {
    y < y' || (y == y' && x < x')
  }

  /** The scan of a tile for a difference stops before pixel (x, y), or can read it. */
  ghost predicate Decided(prev: seq<byte>, curr: seq<byte>, pitch: nat, r: Rect, x: nat, y: nat) {
    || Comparable(prev, curr, pitch, x, y)
    || exists x': nat, y': nat :: Inside(x', y', r) && Precedes(x', y', x, y) && Differs(prev, curr, pitch, x', y')
  }

  ghost predicate Scans(prev: seq<byte>, curr: seq<byte>, pitch: nat, r: Rect) {
    forall x: nat, y: nat :: Inside(x, y, r) ==> Decided(prev, curr, pitch, r, x, y)
  }

  /** The three colour bytes of pixel (x, y) are in the buffer. */
  predicate InBuffer(data: seq<byte>, pitch: nat, x: nat, y: nat) {
    At(pitch, x, y) + 3 <= |data|
  }

  ghost predicate Colours(data: seq<byte>, pitch: nat, r: Rect) {
    forall x: nat, y: nat :: Inside(x, y, r) ==> InBuffer(data, pitch, x, y)
  }

  /** Encoding a tile reads no byte outside the buffers. */
  ghost predicate TileReadable(prev: seq<byte>, curr: seq<byte>, pitch: nat, r: Rect) {
    Scans(prev, curr, pitch, r) && (Changed(prev, curr, pitch, r) ==> Colours(curr, pitch, r))
  }

  /** `a.div_ceil(b)`. */
  function DivCeil(a: nat, b: nat): nat
    requires b > 0
  {
    (a + b - 1) / b
  }

  lemma DivCeilBound(a: nat, b: nat, k: nat)
    requires b > 0
    ensures k < DivCeil(a, b) <==> k * b < a
  {
    var n := DivCeil(a, b);
    assert n * b <= a + b - 1 < n * b + b by {
      assert (a + b - 1) == n * b + (a + b - 1) % b;
    }
    if k < n {
      assert (k + 1) * b <= n * b;
    } else {
      assert k * b >= n * b;
    }
  }

  function Min(a: nat, b: nat): nat {
    if a < b then a else b
  }

  /** Tile (tx, ty), clipped at the right and bottom edge. */
  function TileRect(g: Geometry, tileSize: nat, tx: nat, ty: nat): (r: Rect)
    requires tileSize > 0 && tx < DivCeil(g.width, tileSize) && ty < DivCeil(g.height, tileSize)
    ensures Within(r, g.width, g.height)
  {
    DivCeilBound(g.width, tileSize, tx);
    DivCeilBound(g.height, tileSize, ty);
    var x := tx * tileSize;
    var y := ty * tileSize;
    Rect(x, y, Min(x + tileSize, g.width) - x, Min(y + tileSize, g.height) - y)
  }

  /** Every visible pixel lies in exactly one tile of the grid. */
  lemma GridPartitions(g: Geometry, tileSize: nat, x: nat, y: nat, tx: nat, ty: nat)
    requires tileSize > 0 && x < g.width && y < g.height
    requires tx < DivCeil(g.width, tileSize) && ty < DivCeil(g.height, tileSize)
    ensures x / tileSize < DivCeil(g.width, tileSize) && y / tileSize < DivCeil(g.height, tileSize)
    ensures Inside(x, y, TileRect(g, tileSize, tx, ty))
       <==> tx == x / tileSize && ty == y / tileSize
  {
    Slot(g.width, tileSize, x, tx);
    Slot(g.height, tileSize, y, ty);
  }

  lemma Slot(a: nat, b: nat, v: nat, k: nat)
    requires b > 0 && v < a
    ensures v / b < DivCeil(a, b)
    ensures k * b <= v < k * b + b <==> k == v / b
  {
    var q := v / b;
    assert q * b <= v < q * b + b by {
      assert v == q * b + v % b;
    }
    DivCeilBound(a, b, q);
    SlotUnique(b, v, k, q);
  }

  lemma SlotUnique(b: nat, v: nat, k: nat, q: nat)
    requires b > 0 && q * b <= v < q * b + b
    ensures k * b <= v < k * b + b <==> k == q
  {
    if k < q {
      assert (k + 1) * b <= q * b;
    } else if k > q {
      assert (q + 1) * b <= k * b;
    }
  }

  /** The changed tiles among the first `n` of tile row `ty`, left to right. */
  ghost function ChangedInRow(prev: seq<byte>, curr: seq<byte>, g: Geometry,
                              tileSize: nat, ty: nat, n: nat): (rs: seq<Rect>)
    requires tileSize > 0 && ty < DivCeil(g.height, tileSize) && n <= DivCeil(g.width, tileSize)
  {
    if n == 0 then [] else
      var r := TileRect(g, tileSize, n - 1, ty);
      ChangedInRow(prev, curr, g, tileSize, ty, n - 1)
      + if Changed(prev, curr, g.pitch, r) then [r] else []
  }

  /** The changed tiles of the first `n` tile rows, top to bottom. */
  ghost function ChangedTiles(prev: seq<byte>, curr: seq<byte>, g: Geometry,
                              tileSize: nat, n: nat): (rs: seq<Rect>)
    requires tileSize > 0 && n <= DivCeil(g.height, tileSize)
  {
    if n == 0 then [] else
      ChangedTiles(prev, curr, g, tileSize, n - 1)
      + ChangedInRow(prev, curr, g, tileSize, n - 1, DivCeil(g.width, tileSize))
  }

  /** All changed tiles of a frame. */
  ghost function AllChanged(prev: seq<byte>, curr: seq<byte>, g: Geometry, tileSize: nat)
    : (rs: seq<Rect>)
    requires tileSize > 0
  {
    ChangedTiles(prev, curr, g, tileSize, DivCeil(g.height, tileSize))
  }

  lemma {:induction false} ChangedInRowMembers(
    prev: seq<byte>, curr: seq<byte>, g: Geometry, tileSize: nat, ty: nat, n: nat, r: Rect)
    requires tileSize > 0 && ty < DivCeil(g.height, tileSize) && n <= DivCeil(g.width, tileSize)
    ensures r in ChangedInRow(prev, curr, g, tileSize, ty, n)
       <==> (Changed(prev, curr, g.pitch, r) && exists tx :: 0 <= tx < n && r == TileRect(g, tileSize, tx, ty))
  {
    if n == 0 {
    } else {
      ChangedInRowMembers(prev, curr, g, tileSize, ty, n - 1, r);
    }
  }

  lemma {:induction false} ChangedTilesMembers(
    prev: seq<byte>, curr: seq<byte>, g: Geometry, tileSize: nat, n: nat, r: Rect)
    requires tileSize > 0 && n <= DivCeil(g.height, tileSize)
    ensures r in ChangedTiles(prev, curr, g, tileSize, n)
       <==> (&& Changed(prev, curr, g.pitch, r)
             && exists tx, ty :: 0 <= tx < DivCeil(g.width, tileSize) && 0 <= ty < n
                              && r == TileRect(g, tileSize, tx, ty))
  {
    if n == 0 {
    } else {
      ChangedTilesMembers(prev, curr, g, tileSize, n - 1, r);
      ChangedInRowMembers(prev, curr, g, tileSize, n - 1, DivCeil(g.width, tileSize), r);
    }
  }

  ghost predicate Drawable(rs: seq<Rect>, width: nat, height: nat) {
    forall i :: 0 <= i < |rs| ==> Within(rs[i], width, height)
  }

  /** A tile is sent iff it is a tile of the grid in which some visible pixel differs. */
  lemma EmittedIffChanged(prev: seq<byte>, curr: seq<byte>, g: Geometry, tileSize: nat)
    requires tileSize > 0
    ensures Drawable(AllChanged(prev, curr, g, tileSize), g.width, g.height)
    ensures forall tx, ty :: 0 <= tx < DivCeil(g.width, tileSize) && 0 <= ty < DivCeil(g.height, tileSize) ==>
              (TileRect(g, tileSize, tx, ty) in AllChanged(prev, curr, g, tileSize)
               <==> Changed(prev, curr, g.pitch, TileRect(g, tileSize, tx, ty)))
  {
    var rs := AllChanged(prev, curr, g, tileSize);
    var n := DivCeil(g.height, tileSize);
    forall i | 0 <= i < |rs|
      ensures Within(rs[i], g.width, g.height)
    {
      assert rs[i] in rs;
      ChangedTilesMembers(prev, curr, g, tileSize, n, rs[i]);
    }
    forall tx, ty | 0 <= tx < DivCeil(g.width, tileSize) && 0 <= ty < DivCeil(g.height, tileSize)
      ensures TileRect(g, tileSize, tx, ty) in rs
         <==> Changed(prev, curr, g.pitch, TileRect(g, tileSize, tx, ty))
    {
      ChangedTilesMembers(prev, curr, g, tileSize, n, TileRect(g, tileSize, tx, ty));
    }
  }

  /** One canvas after the crops of `img` under `rs` are painted in order. */
  ghost function PaintRects(canvas: Canvas, img: Canvas, rs: seq<Rect>): (c: Canvas)
    requires Drawable(rs, img.width, img.height)
    ensures c.width == canvas.width && c.height == canvas.height
  {
    if rs == [] then canvas else
      var r := rs[|rs| - 1];
      Overlay(PaintRects(canvas, img, rs[..|rs| - 1]), Crop(img, r), r.x, r.y)
  }

  ghost predicate Covered(rs: seq<Rect>, x: nat, y: nat) {
    exists i :: 0 <= i < |rs| && Inside(x, y, rs[i])
  }

  /** A painted pixel shows `img`, any other pixel keeps its colour. */
  lemma {:induction false} PaintRectsAt(canvas: Canvas, img: Canvas, rs: seq<Rect>, x: nat, y: nat)
    requires Drawable(rs, img.width, img.height)
    requires canvas.width == img.width && canvas.height == img.height
    requires x < img.width && y < img.height
    ensures PaintRects(canvas, img, rs).rows[y][x]
         == if Covered(rs, x, y) then img.rows[y][x] else canvas.rows[y][x]
  {
    if rs == [] {
    } else {
      var init := rs[..|rs| - 1];
      var r := rs[|rs| - 1];
      PaintRectsAt(canvas, img, init, x, y);
      OverlayCropAt(PaintRects(canvas, img, init), img, r, x, y);
      assert Covered(rs, x, y) <==> Covered(init, x, y) || Inside(x, y, r) by {
        if Covered(init, x, y) {
          var i :| 0 <= i < |init| && Inside(x, y, init[i]);
          assert Inside(x, y, rs[i]);
        }
      }
    }
  }

  /** Painting the same tiles in another order, or repeating some, gives the same canvas. */
  lemma PaintOrderIrrelevant(canvas: Canvas, img: Canvas, rs: seq<Rect>, ss: seq<Rect>)
    requires Drawable(rs, img.width, img.height)
    requires canvas.width == img.width && canvas.height == img.height
    requires forall r :: r in rs <==> r in ss
    ensures Drawable(ss, img.width, img.height)
    ensures PaintRects(canvas, img, rs) == PaintRects(canvas, img, ss)
  {
    assert forall i :: 0 <= i < |ss| ==> ss[i] in ss;
    var a, b := PaintRects(canvas, img, rs), PaintRects(canvas, img, ss);
    forall y, x | 0 <= y < img.height && 0 <= x < img.width
      ensures a.rows[y][x] == b.rows[y][x]
    {
      PaintRectsAt(canvas, img, rs, x, y);
      PaintRectsAt(canvas, img, ss, x, y);
      CoveredSame(rs, ss, x, y);
      CoveredSame(ss, rs, x, y);
    }
    SameCanvas(a, b);
  }

  lemma CoveredSame(rs: seq<Rect>, ss: seq<Rect>, x: nat, y: nat)
    requires forall r :: r in rs ==> r in ss
    ensures Covered(rs, x, y) ==> Covered(ss, x, y)
  {
    if Covered(rs, x, y) {
      var i :| 0 <= i < |rs| && Inside(x, y, rs[i]);
      assert rs[i] in ss;
    }
  }

  /** Exactly when encoding a delta does not panic. */
  ghost predicate DeltaReadable(prev: seq<byte>, curr: seq<byte>, g: Geometry, tileSize: nat)
    requires tileSize > 0
  {
    forall tx, ty :: 0 <= tx < DivCeil(g.width, tileSize) && 0 <= ty < DivCeil(g.height, tileSize) ==>
      TileReadable(prev, curr, g.pitch, TileRect(g, tileSize, tx, ty))
  }

  /** The tile of a pixel. */
  lemma TileAt(g: Geometry, tileSize: nat, x: nat, y: nat)
    requires tileSize > 0 && x < g.width && y < g.height
    ensures x / tileSize < DivCeil(g.width, tileSize) && y / tileSize < DivCeil(g.height, tileSize)
    ensures Inside(x, y, TileRect(g, tileSize, x / tileSize, y / tileSize))
  {
    Slot(g.width, tileSize, x, x / tileSize);
    Slot(g.height, tileSize, y, y / tileSize);
    GridPartitions(g, tileSize, x, y, x / tileSize, y / tileSize);
  }

  /** A delta is readable only if the current frame's picture is. */
  lemma ReadableAddressable(prev: seq<byte>, curr: seq<byte>, g: Geometry, tileSize: nat)
    requires tileSize > 0 && DeltaReadable(prev, curr, g, tileSize)
    ensures Addressable(curr, g)
  {
    if g.width > 0 && g.height > 0 {
      var x, y := g.width - 1, g.height - 1;
      TileAt(g, tileSize, x, y);
      var r := TileRect(g, tileSize, x / tileSize, y / tileSize);
      assert TileReadable(prev, curr, g.pitch, r);
      LastPixelRead(prev, curr, g.pitch, r, x, y);
    }
  }

  lemma LastPixelRead(prev: seq<byte>, curr: seq<byte>, pitch: nat, r: Rect, x: nat, y: nat)
    requires TileReadable(prev, curr, pitch, r) && Inside(x, y, r)
    ensures InBuffer(curr, pitch, x, y)
    ensures !Changed(prev, curr, pitch, r) ==>
              Comparable(prev, curr, pitch, x, y) && !Differs(prev, curr, pitch, x, y)
  {
    assert Decided(prev, curr, pitch, r, x, y);
  }

  /** Two buffers that hold every byte of every pixel can always be compared. */
  lemma WholeReadable(prev: seq<byte>, curr: seq<byte>, g: Geometry, tileSize: nat)
    requires tileSize > 0 && Needed(g) <= |prev| && Needed(g) <= |curr|
    ensures DeltaReadable(prev, curr, g, tileSize)
  {
    forall tx, ty | 0 <= tx < DivCeil(g.width, tileSize) && 0 <= ty < DivCeil(g.height, tileSize)
      ensures TileReadable(prev, curr, g.pitch, TileRect(g, tileSize, tx, ty))
    {
      var r := TileRect(g, tileSize, tx, ty);
      forall x: nat, y: nat | Inside(x, y, r)
        ensures Comparable(prev, curr, g.pitch, x, y) && InBuffer(curr, g.pitch, x, y)
      {
        WholePixel(g, x, y);
      }
    }
  }

  lemma WholePixel(g: Geometry, x: nat, y: nat)
    requires x < g.width && y < g.height
    ensures At(g.pitch, x, y) + 4 <= Needed(g)
  {
    assert y * g.pitch <= (g.height - 1) * g.pitch;
  }

  /** Painting the changed tiles over the previous image yields the current one. */
  lemma ChangedTilesPaintCurrent(
    prev: seq<byte>, curr: seq<byte>, g: Geometry, tileSize: nat)
    requires tileSize > 0
    requires Addressable(prev, g) && Addressable(curr, g) && DeltaReadable(prev, curr, g, tileSize)
    ensures Drawable(AllChanged(prev, curr, g, tileSize), g.width, g.height)
    ensures PaintRects(Rgba(prev, g), Rgba(curr, g),
                       AllChanged(prev, curr, g, tileSize))
         == Rgba(curr, g)
  {
    hide DeltaReadable, Rgba, AllChanged;
    EmittedIffChanged(prev, curr, g, tileSize);
    var rs := AllChanged(prev, curr, g, tileSize);
    var before, after := Rgba(prev, g), Rgba(curr, g);
    var painted := PaintRects(before, after, rs);
    forall y, x | 0 <= y < g.height && 0 <= x < g.width
      ensures painted.rows[y][x] == after.rows[y][x]
    {
      PaintRectsAt(before, after, rs, x, y);
      if !Covered(rs, x, y) {
        UncoveredIsSame(prev, curr, g, tileSize, x, y);
      }
    }
    SameCanvas(painted, after);
  }

  lemma UncoveredIsSame(prev: seq<byte>, curr: seq<byte>, g: Geometry, tileSize: nat, x: nat, y: nat)
    requires tileSize > 0 && x < g.width && y < g.height
    requires Addressable(prev, g) && Addressable(curr, g) && DeltaReadable(prev, curr, g, tileSize)
    requires !Covered(AllChanged(prev, curr, g, tileSize), x, y)
    ensures Rgba(prev, g).rows[y][x] == Rgba(curr, g).rows[y][x]
  {
    UncoveredIsUnchanged(prev, curr, g, tileSize, x, y);
    AtBound(prev, g, x, y);
    AtBound(curr, g, x, y);
    SameStored(prev, curr, At(g.pitch, x, y));
  }

  lemma UncoveredIsUnchanged(prev: seq<byte>, curr: seq<byte>, g: Geometry, tileSize: nat, x: nat, y: nat)
    requires tileSize > 0 && x < g.width && y < g.height && DeltaReadable(prev, curr, g, tileSize)
    requires !Covered(AllChanged(prev, curr, g, tileSize), x, y)
    ensures Comparable(prev, curr, g.pitch, x, y) && !Differs(prev, curr, g.pitch, x, y)
  {
    hide AllChanged, Changed, TileReadable;
    TileAt(g, tileSize, x, y);
    EmittedIffChanged(prev, curr, g, tileSize);
    var r := TileRect(g, tileSize, x / tileSize, y / tileSize);
    assert r !in AllChanged(prev, curr, g, tileSize);
    assert TileReadable(prev, curr, g.pitch, r);
    LastPixelRead(prev, curr, g.pitch, r, x, y);
  }

  lemma SameStored(prev: seq<byte>, curr: seq<byte>, at: nat)
    requires at + 4 <= |prev| && at + 4 <= |curr| && prev[at..at + 4] == curr[at..at + 4]
    ensures XrgbPixel(prev, at) == XrgbPixel(curr, at)
  {
    var s, t := prev[at..at + 4], curr[at..at + 4];
    assert prev[at] == s[0] && prev[at + 1] == s[1] && prev[at + 2] == s[2];
    assert curr[at] == t[0] && curr[at + 1] == t[1] && curr[at + 2] == t[2];
  }
}
