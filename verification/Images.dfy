/** Pixels, canvases and the flat RGBA byte layout shared by the encoder and
    the viewer. */
module Images {
  import opened Bytes

  datatype Pixel = Pixel(r: byte, g: byte, b: byte, a: byte)

  /** A rectangle of pixels, row by row; row `y` holds `width` pixels. */
  datatype Image = Image(width: nat, height: nat, rows: seq<seq<Pixel>>)

  predicate WellSized(img: Image) {
    |img.rows| == img.height && forall y :: 0 <= y < img.height ==> |img.rows[y]| == img.width
  }

  type Canvas = img: Image | WellSized(img) witness Image(0, 0, [])

  datatype Rect = Rect(x: nat, y: nat, w: nat, h: nat)

  predicate Inside(x: int, y: int, r: Rect) {
    r.x <= x < r.x + r.w && r.y <= y < r.y + r.h
  }

  /** A non-empty rectangle inside a picture. */
  predicate Within(r: Rect, width: nat, height: nat) {
    r.w > 0 && r.h > 0 && r.x + r.w <= width && r.y + r.h <= height
  }

  lemma SameCanvas(a: Canvas, b: Canvas)
    requires a.width == b.width && a.height == b.height
    requires forall y, x :: 0 <= y < a.height && 0 <= x < a.width ==> a.rows[y][x] == b.rows[y][x]
    ensures a == b
  {
    forall y | 0 <= y < a.height
      ensures a.rows[y] == b.rows[y]
    {
      assert forall x :: 0 <= x < a.width ==> a.rows[y][x] == b.rows[y][x];
    }
  }

  /** The part of `img` under `r`. */
  function Crop(img: Canvas, r: Rect): (c: Canvas)
    requires Within(r, img.width, img.height)
  {
    Image(r.w, r.h, seq(r.h, y requires 0 <= y < r.h => img.rows[r.y + y][r.x..r.x + r.w]))
  }

  /** `putImageData(part, dx, dy)`: pixels outside the canvas are clipped. */
  function Overlay(canvas: Canvas, part: Canvas, dx: nat, dy: nat): (c: Canvas)
    ensures c.width == canvas.width && c.height == canvas.height
  {
    Image(canvas.width, canvas.height,
          seq(canvas.height, y requires 0 <= y < canvas.height =>
            OverlayRow(canvas.rows[y], part, dx, dy, y)))
  }

  function OverlayRow(row: seq<Pixel>, part: Canvas, dx: nat, dy: nat, y: nat): (r: seq<Pixel>)
    ensures |r| == |row|
  {
    seq(|row|, x requires 0 <= x < |row| =>
      if Inside(x, y, Rect(dx, dy, part.width, part.height)) then part.rows[y - dy][x - dx] else row[x])
  }

  /** A canvas whose size was just assigned: transparent black. */
  function Blank(width: nat, height: nat): (c: Canvas)
    ensures c.width == width && c.height == height
  {
    Image(width, height, seq(height, _ => seq(width, _ => Pixel(0, 0, 0, 0))))
  }

  function PixelBytes(p: Pixel): seq<byte> {
    [p.r, p.g, p.b, p.a]
  }

  function RowBytes(row: seq<Pixel>): (s: seq<byte>)
    ensures |s| == 4 * |row|
  {
    if row == [] then [] else RowBytes(row[..|row| - 1]) + PixelBytes(row[|row| - 1])
  }

  function RowsBytes(rows: seq<seq<Pixel>>): seq<byte> {
    if rows == [] then [] else RowsBytes(rows[..|rows| - 1]) + RowBytes(rows[|rows| - 1])
  }

  lemma RowBytesGrow(row: seq<Pixel>, col: nat)
    requires col < |row|
    ensures RowBytes(row[..col + 1]) == RowBytes(row[..col]) + PixelBytes(row[col])
  {
    assert row[..col + 1][..col] == row[..col];
  }

  lemma RowsBytesGrow(rows: seq<seq<Pixel>>, row: nat)
    requires row < |rows|
    ensures RowsBytes(rows[..row + 1]) == RowsBytes(rows[..row]) + RowBytes(rows[row])
  {
    assert rows[..row + 1][..row] == rows[..row];
  }

  /** Row-major RGBA bytes. */
  function ImageBytes(img: Canvas): seq<byte> {
    RowsBytes(img.rows)
  }

  /** Where the four bytes of pixel (x, y) start. */
  function Offset(width: nat, x: nat, y: nat): nat {
    4 * (y * width + x)
  }

  lemma OffsetBound(width: nat, height: nat, x: nat, y: nat)
    requires x < width && y < height
    ensures Offset(width, x, y) + 4 <= 4 * (width * height)
  {
    assert (y + 1) * width <= height * width;
  }

  function PixelAt(data: seq<byte>, at: nat): Pixel
    requires at + 4 <= |data|
  {
    Pixel(data[at], data[at + 1], data[at + 2], data[at + 3])
  }

  /** `new ImageData(data, width, height)` read back as pixels. */
  function ParseImage(data: seq<byte>, width: nat, height: nat): (c: Canvas)
    requires |data| == 4 * (width * height)
    ensures c.width == width && c.height == height
  {
    Image(width, height, seq(height, y requires 0 <= y < height => ParseRow(data, width, height, y)))
  }

  function ParseRow(data: seq<byte>, width: nat, height: nat, y: nat): (row: seq<Pixel>)
    requires |data| == 4 * (width * height) && y < height
    ensures |row| == width
  {
    seq(width, x requires 0 <= x < width =>
      OffsetBound(width, height, x, y);
      PixelAt(data, Offset(width, x, y)))
  }

  lemma {:induction false} RowBytesAt(row: seq<Pixel>, x: nat)
    requires x < |row|
    ensures PixelAt(RowBytes(row), 4 * x) == row[x]
  {
    if x < |row| - 1 {
      RowBytesAt(row[..|row| - 1], x);
    }
  }

  lemma {:induction false} RowsBytesLength(rows: seq<seq<Pixel>>, width: nat)
    requires forall y :: 0 <= y < |rows| ==> |rows[y]| == width
    ensures |RowsBytes(rows)| == 4 * (width * |rows|)
  {
    if rows == [] {
    } else {
      RowsBytesLength(rows[..|rows| - 1], width);
      assert width * |rows| == width * (|rows| - 1) + width;
    }
  }

  lemma {:induction false} RowsBytesAt(rows: seq<seq<Pixel>>, width: nat, x: nat, y: nat)
    requires forall k :: 0 <= k < |rows| ==> |rows[k]| == width
    requires y < |rows| && x < width
    ensures Offset(width, x, y) + 4 <= |RowsBytes(rows)|
    ensures PixelAt(RowsBytes(rows), Offset(width, x, y)) == rows[y][x]
  {
    var init := rows[..|rows| - 1];
    RowsBytesLength(init, width);
    if y < |rows| - 1 {
      RowsBytesAt(init, width, x, y);
    } else {
      assert Offset(width, x, y) == |RowsBytes(init)| + 4 * x by {
        assert width * y == y * width;
      }
      RowBytesAt(rows[y], x);
    }
  }

  /** Flattening an image and reading it back is the identity. */
  lemma ParseImageBytes(img: Canvas)
    ensures |ImageBytes(img)| == 4 * (img.width * img.height)
    ensures ParseImage(ImageBytes(img), img.width, img.height) == img
  {
    RowsBytesLength(img.rows, img.width);
    var back := ParseImage(ImageBytes(img), img.width, img.height);
    forall y, x | 0 <= y < img.height && 0 <= x < img.width
      ensures back.rows[y][x] == img.rows[y][x]
    {
      RowsBytesAt(img.rows, img.width, x, y);
    }
    SameCanvas(back, img);
  }

  /** Where a canvas ends up after an overlay of a crop of `img`. */
  lemma OverlayCropAt(canvas: Canvas, img: Canvas, r: Rect, x: nat, y: nat)
    requires Within(r, img.width, img.height)
    requires canvas.width == img.width && canvas.height == img.height
    requires x < img.width && y < img.height
    ensures Overlay(canvas, Crop(img, r), r.x, r.y).rows[y][x]
         == if Inside(x, y, r) then img.rows[y][x] else canvas.rows[y][x]
  {
  }
}
