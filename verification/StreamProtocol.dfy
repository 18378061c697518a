/** The gateway's frame encoder: crates/streaming/src/protocol.rs. */
module StreamProtocol {
  import opened Bytes
  import opened Images
  import opened TileGrid

  const HEADER_SIZE: nat := 34
  const STREAM_FORMAT: byte := 2
  const MAGIC: seq<byte> := [0x50, 0x53, 0x4d, 0x47]
  const FLAG_DEFLATE_RAW: byte := 1
  const FLAG_H264_PAYLOAD: byte := 2

  /** Raw DEFLATE (RFC 1951) is a library on both sides. */
  datatype Codec = Codec(deflate: seq<byte> -> seq<byte>, inflate: seq<byte> -> Option<seq<byte>>)

  ghost predicate Invertible(codec: Codec) {
    forall s: seq<byte> {:trigger codec.deflate(s)} :: codec.inflate(codec.deflate(s)) == Some(s)
  }

  datatype FrameType = Keyframe | Delta | H264

  function TypeByte(t: FrameType): byte {
    match t
    case Keyframe => 1
    case Delta => 2
    case H264 => 3
  }

  /** One tile record: position, size, then the tile's RGBA bytes. */
  function Record(img: Canvas, r: Rect): seq<byte>
    requires Within(r, img.width, img.height)
  {
    RecordHeader(r) + ImageBytes(Crop(img, r))
  }

  function RecordHeader(r: Rect): (s: seq<byte>)
    ensures |s| == 8
  {
    Be16(U16(r.x)) + Be16(U16(r.y)) + Be16(U16(r.w)) + Be16(U16(r.h))
  }

  ghost function Records(img: Canvas, rs: seq<Rect>): seq<byte>
    requires Drawable(rs, img.width, img.height)
  {
    if rs == [] then [] else
      Records(img, rs[..|rs| - 1]) + Record(img, rs[|rs| - 1])
  }

  lemma RecordsSnoc(img: Canvas, rs: seq<Rect>, k: nat)
    requires Drawable(rs, img.width, img.height) && k < |rs|
    ensures Records(img, rs[..k + 1]) == Records(img, rs[..k]) + Record(img, rs[k])
  {
    assert rs[..k + 1][..k] == rs[..k];
  }

  /** The raw delta payload: a 16-bit tile count, then one record per changed
      tile. The count is truncated, the records are not. */
  ghost function DeltaBytes(img: Canvas, rs: seq<Rect>): seq<byte>
    requires Drawable(rs, img.width, img.height)
  {
    Be16(U16(|rs|)) + Records(img, rs)
  }

  /** The method results are `None` where the source panics on an index. */
  method EncodeKeyframe(codec: Codec, pixels: seq<byte>, g: Geometry) returns (payload: Option<seq<byte>>)
    ensures payload.Some? <==> Addressable(pixels, g)
    ensures payload.Some? ==> payload.value == codec.deflate(ImageBytes(Rgba(pixels, g)))
  {
    var rgba: seq<byte> := [];
    for row := 0 to g.height
      invariant Addressable(pixels, g) ==> rgba == RowsBytes(Rgba(pixels, g).rows[..row])
      invariant row > 0 && g.width > 0 ==> InBuffer(pixels, g.pitch, g.width - 1, row - 1)
    {
      var pushed := PushRow(pixels, g, row, rgba);
      if pushed.None? {
        return None;
      }
      rgba := pushed.value;
      if Addressable(pixels, g) {
        RowsBytesGrow(Rgba(pixels, g).rows, row);
      }
    }
    LastPixelInBuffer(pixels, g);
    assert Rgba(pixels, g).rows[..g.height] == Rgba(pixels, g).rows;
    payload := Some(codec.deflate(rgba));
  }

  lemma LastPixelInBuffer(data: seq<byte>, g: Geometry)
    requires g.width > 0 && g.height > 0 ==> InBuffer(data, g.pitch, g.width - 1, g.height - 1)
    ensures Addressable(data, g)
  {
  }

  /** The loop over `col` of `encode_keyframe`. */
  method PushRow(pixels: seq<byte>, g: Geometry, row: nat, before: seq<byte>) returns (rgba: Option<seq<byte>>)
    requires row < g.height
    ensures rgba.None? ==> !Addressable(pixels, g)
    ensures rgba.Some? && g.width > 0 ==> InBuffer(pixels, g.pitch, g.width - 1, row)
    ensures rgba.Some? && Addressable(pixels, g) ==> rgba.value == before + RowBytes(Rgba(pixels, g).rows[row])
  {
    hide Rgba, RowBytes;
    var rowStart := row * g.pitch;
    var bytes := before;
    for col := 0 to g.width
      invariant Addressable(pixels, g) ==> bytes == before + RowBytes(Rgba(pixels, g).rows[row][..col])
      invariant col > 0 ==> InBuffer(pixels, g.pitch, col - 1, row)
    {
      var px := rowStart + col * 4;
      if px + 3 > |pixels| {
        if Addressable(pixels, g) { AtBound(pixels, g, col, row); }
        return None;
      }
      bytes := bytes + [pixels[px + 2], pixels[px + 1], pixels[px], 255];
      if Addressable(pixels, g) {
        RgbaAt(pixels, g, col, row);
        PixelPushed(before, Rgba(pixels, g).rows[row], col, pixels, px);
      }
    }
    if Addressable(pixels, g) {
      assert Rgba(pixels, g).rows[row][..g.width] == Rgba(pixels, g).rows[row];
    }
    rgba := Some(bytes);
  }

  lemma PixelPushed(before: seq<byte>, row: seq<Pixel>, col: nat, data: seq<byte>, at: nat)
    requires col < |row| && at + 3 <= |data| && row[col] == XrgbPixel(data, at)
    ensures before + RowBytes(row[..col]) + [data[at + 2], data[at + 1], data[at], 255]
         == before + RowBytes(row[..col + 1])
  {
    RowBytesGrow(row, col);
    hide RowBytes;
    assert PixelBytes(row[col]) == [data[at + 2], data[at + 1], data[at], 255];
  }

  lemma RgbaAt(data: seq<byte>, g: Geometry, x: nat, y: nat)
    requires Addressable(data, g) && x < g.width && y < g.height
    ensures At(g.pitch, x, y) + 3 <= |data| && Rgba(data, g).rows[y][x] == XrgbPixel(data, At(g.pitch, x, y))
  {
    AtBound(data, g, x, y);
  }

  /** The early-exit comparison loop of `encode_delta`. */
  method TileChanged(prev: seq<byte>, curr: seq<byte>, g: Geometry, r: Rect) returns (changed: Option<bool>)
    ensures changed.Some? <==> Scans(prev, curr, g.pitch, r)
    ensures changed.Some? ==> (changed.value <==> Changed(prev, curr, g.pitch, r))
  {
    for row := 0 to r.h
      invariant ScannedRows(prev, curr, g.pitch, r, row)
    {
      var y := r.y + row;
      for col := 0 to r.w
        invariant ScannedRows(prev, curr, g.pitch, r, row)
        invariant forall x: nat :: r.x <= x < r.x + col ==> Equal(prev, curr, g.pitch, x, y)
      {
        var x := r.x + col;
        var px := y * g.pitch + x * 4;
        assert Inside(x, y, r);
        if px + 4 > |prev| || px + 4 > |curr| {
          PanicsHere(prev, curr, g.pitch, r, x, y);
          return None;
        }
        if prev[px..px + 4] != curr[px..px + 4] {
          assert Differs(prev, curr, g.pitch, x, y);
          StopsHere(prev, curr, g.pitch, r, x, y);
          return Some(true);
        }
      }
    }
    changed := Some(false);
  }

  predicate Equal(prev: seq<byte>, curr: seq<byte>, pitch: nat, x: nat, y: nat) {
    Comparable(prev, curr, pitch, x, y) && !Differs(prev, curr, pitch, x, y)
  }

  /** The first rows of a tile have been compared and are equal. */
  ghost predicate ScannedRows(prev: seq<byte>, curr: seq<byte>, pitch: nat, r: Rect, row: nat) {
    forall x: nat, y: nat :: Inside(x, y, r) && y < r.y + row ==> Equal(prev, curr, pitch, x, y)
  }

  /** A pixel outside the buffers with nothing but equal pixels before it. */
  lemma PanicsHere(prev: seq<byte>, curr: seq<byte>, pitch: nat, r: Rect, x: nat, y: nat)
    requires Inside(x, y, r) && !Comparable(prev, curr, pitch, x, y)
    requires ScannedRows(prev, curr, pitch, r, y - r.y)
    requires forall u: nat :: r.x <= u < x ==> Equal(prev, curr, pitch, u, y)
    ensures !Scans(prev, curr, pitch, r)
  {
    forall u: nat, v: nat | Inside(u, v, r) && Precedes(u, v, x, y)
      ensures !Differs(prev, curr, pitch, u, v)
    {
      assert Equal(prev, curr, pitch, u, v);
    }
    assert !Decided(prev, curr, pitch, r, x, y);
  }

  /** The first difference decides every pixel behind it. */
  lemma StopsHere(prev: seq<byte>, curr: seq<byte>, pitch: nat, r: Rect, x: nat, y: nat)
    requires Inside(x, y, r) && Differs(prev, curr, pitch, x, y)
    requires ScannedRows(prev, curr, pitch, r, y - r.y)
    requires forall u: nat :: r.x <= u < x ==> Equal(prev, curr, pitch, u, y)
    ensures Scans(prev, curr, pitch, r) && Changed(prev, curr, pitch, r)
  {
    forall u: nat, v: nat | Inside(u, v, r)
      ensures Decided(prev, curr, pitch, r, u, v)
    {
      if !Precedes(x, y, u, v) && (u, v) != (x, y) {
        assert Equal(prev, curr, pitch, u, v);
      }
    }
  }

  lemma CropPixel(curr: seq<byte>, g: Geometry, r: Rect, col: nat, row: nat)
    requires Addressable(curr, g) && Within(r, g.width, g.height) && col < r.w && row < r.h
    requires At(g.pitch, r.x + col, r.y + row) + 3 <= |curr|
    ensures Crop(Rgba(curr, g), r).rows[row][col] == XrgbPixel(curr, At(g.pitch, r.x + col, r.y + row))
  {
  }

  method TileRgba(curr: seq<byte>, g: Geometry, r: Rect) returns (rgba: Option<seq<byte>>)
    requires Within(r, g.width, g.height)
    ensures rgba.Some? <==> Colours(curr, g.pitch, r)
    ensures rgba.Some? && Addressable(curr, g) ==> rgba.value == ImageBytes(Crop(Rgba(curr, g), r))
  {
    hide Rgba, RowsBytes;
    var bytes: seq<byte> := [];
    if Addressable(curr, g) { NoRows(Crop(Rgba(curr, g), r)); }
    for row := 0 to r.h
      invariant Addressable(curr, g) ==> bytes == RowsBytes(Crop(Rgba(curr, g), r).rows[..row])
      invariant forall y: nat :: r.y <= y < r.y + row ==> RowColours(curr, g.pitch, r, y, r.w)
    {
      var pushed := PushTileRow(curr, g, r, row, bytes);
      if pushed.None? {
        var x: nat :| r.x <= x < r.x + r.w && !InBuffer(curr, g.pitch, x, r.y + row);
        assert Inside(x, r.y + row, r);
        return None;
      }
      bytes := pushed.value;
      if Addressable(curr, g) {
        RowsBytesGrow(Crop(Rgba(curr, g), r).rows, row);
      }
    }
    ColoursByRow(curr, g.pitch, r);
    if Addressable(curr, g) {
      assert Crop(Rgba(curr, g), r).rows[..r.h] == Crop(Rgba(curr, g), r).rows;
    }
    rgba := Some(bytes);
  }

  lemma ColoursByRow(data: seq<byte>, pitch: nat, r: Rect)
    requires forall y: nat :: r.y <= y < r.y + r.h ==> RowColours(data, pitch, r, y, r.w)
    ensures Colours(data, pitch, r)
  {
    forall x: nat, y: nat | Inside(x, y, r)
      ensures InBuffer(data, pitch, x, y)
    {
      assert RowColours(data, pitch, r, y, r.w);
    }
  }

  lemma NoRows(img: Canvas)
    ensures RowsBytes(img.rows[..0]) == []
  {
  }

  /** The first `n` pixels of a tile's row `y` are in the buffer. */
  ghost predicate RowColours(data: seq<byte>, pitch: nat, r: Rect, y: nat, n: nat) {
    forall x: nat :: r.x <= x < r.x + n ==> InBuffer(data, pitch, x, y)
  }

  /** The loop over `col` that fills `tile_rgba`. */
  method PushTileRow(curr: seq<byte>, g: Geometry, r: Rect, row: nat, before: seq<byte>)
    returns (rgba: Option<seq<byte>>)
    requires Within(r, g.width, g.height) && row < r.h
    ensures rgba.Some? <==> RowColours(curr, g.pitch, r, r.y + row, r.w)
    ensures rgba.Some? && Addressable(curr, g) ==> rgba.value == before + RowBytes(Crop(Rgba(curr, g), r).rows[row])
  {
    ghost var pixels: seq<Pixel> := if Addressable(curr, g) then Crop(Rgba(curr, g), r).rows[row] else [];
    assert Addressable(curr, g) ==> |pixels| == r.w;
    NoPixels(pixels);
    hide Rgba, Crop, Addressable, RowBytes, At, XrgbPixel;
    var y := r.y + row;
    var bytes := before;
    for col := 0 to r.w
      invariant Addressable(curr, g) ==> bytes == before + RowBytes(pixels[..col])
      invariant RowColours(curr, g.pitch, r, y, col)
    {
      var x := r.x + col;
      var px := At(g.pitch, x, y);
      if px + 3 > |curr| {
        assert !InBuffer(curr, g.pitch, x, y);
        assert r.x <= x < r.x + r.w;
        return None;
      }
      bytes := bytes + [curr[px + 2], curr[px + 1], curr[px], 255];
      if Addressable(curr, g) {
        CropPixel(curr, g, r, col, row);
        PixelPushed(before, pixels, col, curr, px);
      }
    }
    assert Addressable(curr, g) ==> pixels[..r.w] == pixels;
    rgba := Some(bytes);
  }

  lemma NoPixels(row: seq<Pixel>)
    ensures RowBytes(row[..0]) == []
  {
  }

  datatype ChangedTile = ChangedTile(rect: Rect, rgba: seq<byte>)

  ghost predicate TilesOf(tiles: seq<ChangedTile>, img: Canvas, rs: seq<Rect>) {
    && |tiles| == |rs|
    && Drawable(rs, img.width, img.height)
    && forall i :: 0 <= i < |rs| ==> tiles[i].rect == rs[i] && tiles[i].rgba == ImageBytes(Crop(img, rs[i]))
  }

  lemma TilesOfGrow(tiles: seq<ChangedTile>, img: Canvas, rs: seq<Rect>, r: Rect, rgba: seq<byte>)
    requires TilesOf(tiles, img, rs) && Within(r, img.width, img.height) && rgba == ImageBytes(Crop(img, r))
    ensures TilesOf(tiles + [ChangedTile(r, rgba)], img, rs + [r])
  {
  }

  method EncodeDelta(codec: Codec, prev: seq<byte>, curr: seq<byte>, g: Geometry, tileSize: nat)
    returns (payload: Option<seq<byte>>)
    requires tileSize > 0
    ensures payload.Some? <==> DeltaReadable(prev, curr, g, tileSize)
    ensures payload.Some? ==>
              && Addressable(curr, g)
              && Drawable(AllChanged(prev, curr, g, tileSize), g.width, g.height)
              && payload.value == codec.deflate(DeltaBytes(Rgba(curr, g), AllChanged(prev, curr, g, tileSize)))
  {
    hide TileReadable, Rgba, TileRect, Addressable, DeltaBytes;
    var tilesY := DivCeil(g.height, tileSize);
    var changedTiles: seq<ChangedTile> := [];
    ghost var rs := ChangedTiles(prev, curr, g, tileSize, 0);
    for ty := 0 to tilesY
      invariant rs == ChangedTiles(prev, curr, g, tileSize, ty)
      invariant Addressable(curr, g) ==> TilesOf(changedTiles, Rgba(curr, g), rs)
      invariant forall v, u :: 0 <= u < DivCeil(g.width, tileSize) && 0 <= v < ty ==>
                  TileReadable(prev, curr, g.pitch, TileRect(g, tileSize, u, v))
    {
      var row := EncodeTileRow(prev, curr, g, tileSize, ty, changedTiles, rs);
      if row.None? {
        return None;
      }
      changedTiles := row.value;
      rs := rs + ChangedInRow(prev, curr, g, tileSize, ty, DivCeil(g.width, tileSize));
    }
    ReadableAddressable(prev, curr, g, tileSize);
    var raw := WriteRecords(changedTiles, Rgba(curr, g), rs);
    payload := Some(codec.deflate(raw));
  }

  /** The loop over `tx` of `encode_delta`. */
  method EncodeTileRow(prev: seq<byte>, curr: seq<byte>, g: Geometry, tileSize: nat, ty: nat,
                       above: seq<ChangedTile>, ghost aboveRects: seq<Rect>)
    returns (changedTiles: Option<seq<ChangedTile>>)
    requires tileSize > 0 && ty < DivCeil(g.height, tileSize)
    requires Addressable(curr, g) ==> TilesOf(above, Rgba(curr, g), aboveRects)
    ensures changedTiles.Some? <==>
            forall u :: 0 <= u < DivCeil(g.width, tileSize) ==>
              TileReadable(prev, curr, g.pitch, TileRect(g, tileSize, u, ty))
    ensures changedTiles.Some? && Addressable(curr, g) ==>
              TilesOf(changedTiles.value, Rgba(curr, g),
                      aboveRects + ChangedInRow(prev, curr, g, tileSize, ty, DivCeil(g.width, tileSize)))
  {
    hide Rgba, TileRect, Addressable, Changed, Scans, Colours, TilesOf, Crop, ImageBytes;
    ghost var rs := aboveRects;
    var tilesX := DivCeil(g.width, tileSize);
    var tiles := above;
    for tx := 0 to tilesX
      invariant rs == aboveRects + ChangedInRow(prev, curr, g, tileSize, ty, tx)
      invariant Addressable(curr, g) ==> TilesOf(tiles, Rgba(curr, g), rs)
      invariant forall u :: 0 <= u < tx ==> TileReadable(prev, curr, g.pitch, TileRect(g, tileSize, u, ty))
    {
      var r := TileRect(g, tileSize, tx, ty);
      var changed := TileChanged(prev, curr, g, r);
      if changed.None? {
        assert !TileReadable(prev, curr, g.pitch, r);
        return None;
      }
      if changed.value {
        var tileRgba := TileRgba(curr, g, r);
        if tileRgba.None? {
          assert !TileReadable(prev, curr, g.pitch, r);
          return None;
        }
        if Addressable(curr, g) {
          TilesOfGrow(tiles, Rgba(curr, g), rs, r, tileRgba.value);
        }
        tiles := tiles + [ChangedTile(r, tileRgba.value)];
        rs := rs + [r];
      }
    }
    changedTiles := Some(tiles);
  }

  method WriteRecords(changedTiles: seq<ChangedTile>, ghost img: Canvas, ghost rs: seq<Rect>)
    returns (raw: seq<byte>)
    requires TilesOf(changedTiles, img, rs)
    ensures raw == DeltaBytes(img, rs)
  {
    hide ImageBytes, Crop;
    var tileCount := U16(|changedTiles|);
    raw := Be16(tileCount);
    for i := 0 to |changedTiles|
      invariant raw == Be16(tileCount) + Records(img, rs[..i])
    {
      var t := changedTiles[i];
      ghost var before := raw;
      raw := raw + Be16(U16(t.rect.x));
      raw := raw + Be16(U16(t.rect.y));
      raw := raw + Be16(U16(t.rect.w));
      raw := raw + Be16(U16(t.rect.h));
      assert raw == before + RecordHeader(rs[i]);
      raw := raw + t.rgba;
      RecordsSnoc(img, rs, i);
    }
    assert rs[..|rs|] == rs;
  }

  /** `metadata` is the serialised sidecar, empty when there is none. */
  datatype EncodeParams = EncodeParams(
    frameType: FrameType, instanceIndex: byte, sequence: u32, timestampMs: u32,
    width: u16, height: u16, tileSize: u16, rawBytes: u32, metadata: seq<byte>, payload: seq<byte>)

  /** The 34-byte header, field by field. */
  function Header(p: EncodeParams, flags: byte): (s: seq<byte>)
    ensures |s| == HEADER_SIZE
  {
    MAGIC + [STREAM_FORMAT, TypeByte(p.frameType), p.instanceIndex, flags]
    + Be32(p.sequence) + Be32(p.timestampMs)
    + Be16(p.width) + Be16(p.height) + Be16(p.tileSize)
    + Be32(p.rawBytes) + Be32(U32(|p.payload|)) + Be32(U32(|p.metadata|))
  }

  function Envelope(p: EncodeParams, flags: byte): (s: seq<byte>)
    ensures |s| == HEADER_SIZE + |p.metadata| + |p.payload|
  {
    Header(p, flags) + p.metadata + p.payload
  }

  method EncodeStreamFrame(p: EncodeParams) returns (buf: seq<byte>)
    ensures buf == Envelope(p, FLAG_DEFLATE_RAW)
  {
    var payloadBytes := U32(|p.payload|);
    var metadataBytes := U32(|p.metadata|);
    buf := MAGIC;
    buf := buf + [STREAM_FORMAT];
    buf := buf + [TypeByte(p.frameType)];
    buf := buf + [p.instanceIndex];
    buf := buf + [FLAG_DEFLATE_RAW];
    buf := buf + Be32(p.sequence);
    buf := buf + Be32(p.timestampMs);
    buf := buf + Be16(p.width);
    buf := buf + Be16(p.height);
    buf := buf + Be16(p.tileSize);
    buf := buf + Be32(p.rawBytes);
    buf := buf + Be32(payloadBytes);
    buf := buf + Be32(metadataBytes);
    assert buf == Header(p, FLAG_DEFLATE_RAW);
    buf := buf + p.metadata;
    buf := buf + p.payload;
  }

  function H264Params(nal: seq<byte>, index: byte, sequence: u32, timestampMs: u32, width: u16, height: u16)
    : EncodeParams
  {
    EncodeParams(H264, index, sequence, timestampMs, width, height, 0, 0, [], nal)
  }

  /** Where each header field sits: the byte layout of the wire format. */
  predicate HasHeader(s: seq<byte>, p: EncodeParams, flags: byte) {
    && |s| >= HEADER_SIZE
    && s[0..4] == MAGIC && s[4] == STREAM_FORMAT && s[5] == TypeByte(p.frameType)
    && s[6] == p.instanceIndex && s[7] == flags
    && GetBe32(s, 8) == p.sequence && GetBe32(s, 12) == p.timestampMs
    && GetBe16(s, 16) == p.width && GetBe16(s, 18) == p.height && GetBe16(s, 20) == p.tileSize
    && GetBe32(s, 22) == p.rawBytes
    && GetBe32(s, 26) == U32(|p.payload|) && GetBe32(s, 30) == U32(|p.metadata|)
  }

  lemma HeaderFields(p: EncodeParams, flags: byte, body: seq<byte>)
    ensures HasHeader(Header(p, flags) + body, p, flags)
  {
    var s := Header(p, flags) + body;
    HeaderSlices(p, flags);
    KeepSlices(Header(p, flags), body);
    Be32At(s, 8, p.sequence);
    Be32At(s, 12, p.timestampMs);
    Be16At(s, 16, p.width);
    Be16At(s, 18, p.height);
    Be16At(s, 20, p.tileSize);
    Be32At(s, 22, p.rawBytes);
    Be32At(s, 26, U32(|p.payload|));
    Be32At(s, 30, U32(|p.metadata|));
  }

  lemma HeaderSlices(p: EncodeParams, flags: byte)
    ensures var h := Header(p, flags);
            && h[0..4] == MAGIC && h[4] == STREAM_FORMAT && h[5] == TypeByte(p.frameType)
            && h[6] == p.instanceIndex && h[7] == flags
            && h[8..12] == Be32(p.sequence) && h[12..16] == Be32(p.timestampMs)
            && h[16..18] == Be16(p.width) && h[18..20] == Be16(p.height) && h[20..22] == Be16(p.tileSize)
            && h[22..26] == Be32(p.rawBytes)
            && h[26..30] == Be32(U32(|p.payload|)) && h[30..34] == Be32(U32(|p.metadata|))
  {
  }

  lemma KeepSlices(h: seq<byte>, body: seq<byte>)
    ensures forall i, j {:trigger (h + body)[i..j]} :: 0 <= i <= j <= |h| ==> (h + body)[i..j] == h[i..j]
  {
  }

  datatype ProtocolError = TooShort | InvalidMagic | InvalidFormat | LengthMismatch

  datatype Decoded = Decoded(metadata: seq<byte>, payload: seq<byte>)

  /** The gateway's own decoder; metadata stays in its serialised form. */
  function DecodeStreamFrame(bytes: seq<byte>): Result<Decoded, ProtocolError> {
    if |bytes| < HEADER_SIZE then Err(TooShort)
    else if bytes[0..4] != MAGIC then Err(InvalidMagic)
    else if bytes[4] != STREAM_FORMAT then Err(InvalidFormat)
    else
      var payloadBytes := GetBe32(bytes, 26);
      var metadataBytes := GetBe32(bytes, 30);
      if |bytes| != HEADER_SIZE + metadataBytes + payloadBytes then Err(LengthMismatch)
      else
        var payloadStart := HEADER_SIZE + metadataBytes;
        Ok(Decoded(bytes[HEADER_SIZE..payloadStart], bytes[payloadStart..]))
  }
}
