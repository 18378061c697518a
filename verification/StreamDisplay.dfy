/** What a viewer shows after one encoded keyframe or delta. */
module StreamDisplay {
  import opened Bytes
  import opened Images
  import opened TileGrid
  import opened FirstTiles
  import opened StreamProtocol
  import opened StreamParser
  import opened Viewer

  lemma {:induction false} RecordsPrefix(img: Canvas, rs: seq<Rect>, k: nat)
    requires Drawable(rs, img.width, img.height) && k < |rs|
    ensures Records(img, rs[..k]) + Record(img, rs[k]) <= Records(img, rs)
  {
    var init := rs[..|rs| - 1];
    if k < |rs| - 1 {
      RecordsPrefix(img, init, k);
      assert init[..k] == rs[..k];
    }
  }

  /** A record read back at `at` gives its rectangle and the pixels under it. */
  lemma ReadRecord(payload: seq<byte>, at: nat, canvas: Canvas, img: Canvas, r: Rect)
    requires Within(r, img.width, img.height) && img.width < 0x1_0000 && img.height < 0x1_0000
    requires at + |Record(img, r)| <= |payload| && payload[at..at + |Record(img, r)|] == Record(img, r)
    ensures DeltaStep(payload, Cursor(at, canvas, None))
         == Cursor(at + |Record(img, r)|, Overlay(canvas, Crop(img, r), r.x, r.y), None)
  {
    var rec, bytes := Record(img, r), ImageBytes(Crop(img, r));
    ReadRecordHeader(payload, at, r, bytes);
    ParseImageBytes(Crop(img, r));
    assert payload[at + 8..at + |rec|] == rec[8..] == bytes;
    assert r.w * r.h > 0;
  }

  lemma SubSlice(s: seq<byte>, at: nat, n: nat, i: nat, j: nat)
    requires at + n <= |s| && i <= j <= n
    ensures s[at..at + n][i..j] == s[at + i..at + j]
  {
    var t := s[at..at + n];
    assert forall k :: i <= k < j ==> t[k] == s[at + k];
  }

  lemma ReadRecordHeader(payload: seq<byte>, at: nat, r: Rect, rest: seq<byte>)
    requires r.x < 0x1_0000 && r.y < 0x1_0000 && r.w < 0x1_0000 && r.h < 0x1_0000
    requires at + 8 + |rest| <= |payload| && payload[at..at + 8 + |rest|] == RecordHeader(r) + rest
    ensures GetBe16(payload, at) == r.x && GetBe16(payload, at + 2) == r.y
    ensures GetBe16(payload, at + 4) == r.w && GetBe16(payload, at + 6) == r.h
  {
    RecordFields(r, rest);
    hide RecordHeader;
    var n := 8 + |rest|;
    ReadField(payload, at, n, 0, r.x);
    ReadField(payload, at, n, 2, r.y);
    ReadField(payload, at, n, 4, r.w);
    ReadField(payload, at, n, 6, r.h);
  }

  lemma RecordFields(r: Rect, rest: seq<byte>)
    requires r.x < 0x1_0000 && r.y < 0x1_0000 && r.w < 0x1_0000 && r.h < 0x1_0000
    ensures var s := RecordHeader(r) + rest;
            s[0..2] == Be16(r.x) && s[2..4] == Be16(r.y) && s[4..6] == Be16(r.w) && s[6..8] == Be16(r.h)
  {
    FourFields(Be16(U16(r.x)), Be16(U16(r.y)), Be16(U16(r.w)), Be16(U16(r.h)), rest);
  }

  lemma FourFields(a: seq<byte>, b: seq<byte>, c: seq<byte>, d: seq<byte>, rest: seq<byte>)
    requires |a| == |b| == |c| == |d| == 2
    ensures var s := a + b + c + d + rest; s[0..2] == a && s[2..4] == b && s[4..6] == c && s[6..8] == d
  {
  }

  lemma ReadField(payload: seq<byte>, at: nat, n: nat, i: nat, value: u16)
    requires at + n <= |payload| && i + 2 <= n && payload[at..at + n][i..i + 2] == Be16(value)
    ensures GetBe16(payload, at + i) == value
  {
    hide Be16, GetBe16;
    SubSlice(payload, at, n, i, i + 2);
    Be16At(payload, at + i, value);
  }

  /** After `k` records the decoder stands behind them and has painted their tiles. */
  lemma {:induction false} DeltaReadsRecords(payload: seq<byte>, canvas: Canvas, img: Canvas, rs: seq<Rect>, k: nat)
    requires Drawable(rs, img.width, img.height) && img.width < 0x1_0000 && img.height < 0x1_0000
    requires |payload| >= 2 && payload[2..] == Records(img, rs) && k <= |rs|
    ensures DeltaSteps(payload, canvas, k)
         == Cursor(2 + |Records(img, rs[..k])|, PaintRects(canvas, img, rs[..k]), None)
  {
    hide DeltaStep, Overlay, Crop, Record;
    if k == 0 {
    } else {
      DeltaReadsRecords(payload, canvas, img, rs, k - 1);
      ReadNextRecord(payload, PaintRects(canvas, img, rs[..k - 1]), img, rs, k - 1);
      assert rs[..k][..k - 1] == rs[..k - 1];
    }
  }

  lemma ReadNextRecord(payload: seq<byte>, canvas: Canvas, img: Canvas, rs: seq<Rect>, k: nat)
    requires Drawable(rs, img.width, img.height) && img.width < 0x1_0000 && img.height < 0x1_0000
    requires |payload| >= 2 && payload[2..] == Records(img, rs) && k < |rs|
    ensures DeltaStep(payload, Cursor(2 + |Records(img, rs[..k])|, canvas, None))
         == Cursor(2 + |Records(img, rs[..k + 1])|, Overlay(canvas, Crop(img, rs[k]), rs[k].x, rs[k].y), None)
  {
    hide DeltaStep, Overlay, Crop, RecordHeader, ImageBytes;
    var before, rec := Records(img, rs[..k]), Record(img, rs[k]);
    RecordsPrefix(img, rs, k);
    RecordsSnoc(img, rs, k);
    PayloadSlice(payload, before, rec);
    ReadRecord(payload, 2 + |before|, canvas, img, rs[k]);
  }

  lemma PayloadSlice(payload: seq<byte>, before: seq<byte>, rec: seq<byte>)
    requires |payload| >= 2 && before + rec <= payload[2..]
    ensures 2 + |before| + |rec| <= |payload|
    ensures payload[2 + |before|..2 + |before| + |rec|] == rec
  {
    var all := payload[2..];
    assert all[..|before + rec|] == before + rec;
    assert all[|before|..|before| + |rec|] == rec;
  }

  lemma {:induction false} RecordsGrow(img: Canvas, rs: seq<Rect>, k: nat)
    requires Drawable(rs, img.width, img.height) && k <= |rs|
    ensures |Records(img, rs[..k])| + 8 * (|rs| - k) <= |Records(img, rs)|
  {
    if k == |rs| {
      assert rs[..k] == rs;
    } else {
      var init := rs[..|rs| - 1];
      RecordsGrow(img, init, k);
      assert init[..k] == rs[..k];
    }
  }

  /** As many tiles as the 16-bit count says. */
  function Counted(rs: seq<Rect>): (r: seq<Rect>)
    ensures |r| <= |rs| && forall i :: 0 <= i < |r| ==> r[i] == rs[i]
  {
    Truncated(|rs|);
    rs[..U16(|rs|)]
  }

  /** The decoder never returns early from a delta and never throws. It paints the first
      tiles, as many as the truncated count says, and reads the delta to its last byte
      exactly when that is all of them. */
  lemma DeltaConsumed(canvas: Canvas, img: Canvas, rs: seq<Rect>)
    requires Drawable(rs, img.width, img.height) && img.width < 0x1_0000 && img.height < 0x1_0000
    ensures var payload := DeltaBytes(img, rs);
            var c := DeltaSteps(payload, canvas, GetBe16(payload, 0));
            && c.ended == None
            && (c.offset == |payload| <==> |rs| < 0x1_0000)
            && c.canvas == PaintRects(canvas, img, Counted(rs))
  {
    var payload := DeltaBytes(img, rs);
    assert payload[0..2] == Be16(U16(|rs|)) && payload[2..] == Records(img, rs);
    Be16At(payload, 0, U16(|rs|));
    Truncated(|rs|);
    CountedRecords(payload, canvas, img, rs, U16(|rs|));
  }

  lemma Truncated(n: nat)
    ensures U16(n) <= n && (U16(n) == n <==> n < 0x1_0000)
  {
  }

  /** The first `n` records end where the payload does only if they are all. */
  lemma CountedRecords(payload: seq<byte>, canvas: Canvas, img: Canvas, rs: seq<Rect>, n: nat)
    requires Drawable(rs, img.width, img.height) && img.width < 0x1_0000 && img.height < 0x1_0000
    requires |payload| >= 2 && payload[2..] == Records(img, rs) && n <= |rs|
    ensures var c := DeltaSteps(payload, canvas, n);
            && c.ended == None
            && (c.offset == |payload| <==> n == |rs|)
            && c.canvas == PaintRects(canvas, img, rs[..n])
  {
    hide DeltaSteps, Records, PaintRects, Within, Drawable;
    DeltaReadsRecords(payload, canvas, img, rs, n);
    RecordsGrow(img, rs, n);
    assert |payload| == 2 + |Records(img, rs)|;
    assert n == |rs| ==> rs[..n] == rs;
  }

  /** The message a gateway sends for one frame; `payload` is already deflated. */
  predicate Carries(f: StreamFrame, kind: FrameKind, g: Geometry, payload: seq<byte>) {
    f.kind == kind && f.width == g.width && f.height == g.height && f.rawBytes == RawBytes(g)
    && f.isDeflated && f.payload == payload
  }

  /** A keyframe shows its frame, whatever was on the canvas. */
  lemma KeyframeDisplays(codec: Codec, f: StreamFrame, canvas: Canvas, pixels: seq<byte>, g: Geometry)
    requires Invertible(codec) && Addressable(pixels, g)
    requires Carries(f, KeyframeKind, g, codec.deflate(ImageBytes(Rgba(pixels, g))))
    ensures ShowFrame(codec, f, canvas).canvas == Rgba(pixels, g)
  {
    var img := Rgba(pixels, g);
    ParseImageBytes(img);
    var rgba := ImageBytes(img);
    assert rgba[..f.rawBytes] == rgba;
    var shown := ShowFrame(codec, f, canvas).canvas;
    if g.width > 0 && g.height > 0 {
      assert g.width * g.height > 0;
    }
    SameCanvas(shown, img);
  }

  /** The changed tiles that the 16-bit count leaves out look the same as before. */
  ghost predicate UncountedLookSame(prev: seq<byte>, curr: seq<byte>, g: Geometry, tileSize: nat)
    requires tileSize > 0 && Addressable(prev, g) && Addressable(curr, g)
  {
    var rs := AllChanged(prev, curr, g, tileSize);
    EmittedIffChanged(prev, curr, g, tileSize);
    RestLooksSame(Rgba(prev, g), Rgba(curr, g), rs, U16(|rs|))
  }

  lemma FewTilesLookSame(prev: seq<byte>, curr: seq<byte>, g: Geometry, tileSize: nat)
    requires tileSize > 0 && Addressable(prev, g) && Addressable(curr, g)
    requires |AllChanged(prev, curr, g, tileSize)| < 0x1_0000
    ensures UncountedLookSame(prev, curr, g, tileSize)
  {
  }

  lemma DeltaBytesLong(img: Canvas, rs: seq<Rect>)
    requires Drawable(rs, img.width, img.height)
    ensures |DeltaBytes(img, rs)| >= 2
  {
  }

  /** A delta between two frames of the same geometry turns the previous image into the
      current one exactly when the tiles left out of the count look the same in both. */
  lemma DeltaDisplaysIff(codec: Codec, f: StreamFrame, prev: seq<byte>, curr: seq<byte>, g: Geometry, tileSize: nat)
    requires Invertible(codec) && tileSize > 0 && g.width < 0x1_0000 && g.height < 0x1_0000
    requires Addressable(prev, g) && Addressable(curr, g) && DeltaReadable(prev, curr, g, tileSize)
    requires Drawable(AllChanged(prev, curr, g, tileSize), g.width, g.height)
    requires Carries(f, DeltaKind, g,
                     codec.deflate(DeltaBytes(Rgba(curr, g), AllChanged(prev, curr, g, tileSize))))
    ensures ShowFrame(codec, f, Rgba(prev, g)).outcome == Painted
    ensures ShowFrame(codec, f, Rgba(prev, g)).canvas == Rgba(curr, g)
       <==> UncountedLookSame(prev, curr, g, tileSize)
  {
    hide AllChanged, DeltaReadable, Rgba, Addressable, RestLooksSame, DeltaSteps, DeltaBytes, PaintRects;
    var rs := AllChanged(prev, curr, g, tileSize);
    DeltaBytesLong(Rgba(curr, g), rs);
    DeltaConsumed(Rgba(prev, g), Rgba(curr, g), rs);
    FirstTilesPaintCurrentIff(prev, curr, g, tileSize, U16(|rs|));
  }
}
