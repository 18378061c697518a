/** The worker's conversion of emulator frames to XRGB8888 in src/bin/worker.rs,
    on a little-endian machine (`from_ne_bytes`). */
module PixelConversion {
  import opened Bytes
  import opened Images
  import opened TileGrid
  import opened StreamProtocol
  import opened StreamParser
  import opened Viewer
  import opened StreamDisplay

  datatype PixelFormat = Xrgb1555 | Xrgb8888 | Rgb565

  function BytesPerPixel(f: PixelFormat): nat {
    if f == Xrgb8888 then 4 else 2
  }

  /** Bytes taken by `n` adjacent source pixels. */
  function Span(f: PixelFormat, n: nat): nat {
    n * BytesPerPixel(f)
  }

  /** `(value << 3) | (value >> 2)`. */
  function Expand5(value: nat): byte
    requires value < 32
  {
    value * 8 + value / 4
  }

  /** `(value << 2) | (value >> 4)`. */
  function Expand6(value: nat): byte
    requires value < 64
  {
    value * 4 + value / 16
  }

  /** The source's shifts and ors compute these sums on every value they are given. */
  lemma ExpansionFaithful(value: bv16)
    ensures value as int < 32 ==> ((value << 3) | (value >> 2)) as int == Expand5(value as int)
    ensures value as int < 64 ==> ((value << 2) | (value >> 4)) as int == Expand6(value as int)
  {
  }

  lemma ExpansionKeepsTopBits(value: nat)
    requires value < 64
    ensures value < 32 ==> Expand5(value) / 8 == value
    ensures Expand6(value) / 4 == value
  {
  }

  /** The pixel at `at`, little-endian. */
  function SourceValue(src: seq<byte>, at: nat): u16
    requires at + 2 <= |src|
  {
    var lo: int, hi: int := src[at], src[at + 1];
    hi * 256 + lo
  }

  /** Red, green and blue of a two-byte source pixel. */
  function Expanded(value: u16, f: PixelFormat): Pixel
    requires f != Xrgb8888
  {
    if f == Rgb565
    then Pixel(Expand5(value / 2048 % 32), Expand6(value / 32 % 64), Expand5(value % 32), 255)
    else Pixel(Expand5(value / 1024 % 32), Expand5(value / 32 % 32), Expand5(value % 32), 255)
  }

  /** No colour is lost: two source pixels look the same only if they are the same, up
      to the unused top bit of the 5-5-5 format. */
  lemma ColoursKept(v: u16, w: u16, f: PixelFormat)
    requires f != Xrgb8888
    ensures Expanded(v, f) == Expanded(w, f) <==> if f == Rgb565 then v == w else v % 32768 == w % 32768
  {
    Distinct5(v % 32, w % 32);
    Distinct6(v / 32 % 64, w / 32 % 64);
    Distinct5(v / 2048 % 32, w / 2048 % 32);
    Distinct5(v / 32 % 32, w / 32 % 32);
    Distinct5(v / 1024 % 32, w / 1024 % 32);
    hide Expand5, Expand6;
    if f == Rgb565 {
      Fields565(v);
      Fields565(w);
    } else {
      Fields555(v);
      Fields555(w);
      OneSetOfDigits(v / 1024 % 32, v / 32 % 32, v % 32, w / 1024 % 32, w / 32 % 32, w % 32);
    }
  }

  lemma Distinct5(a: nat, b: nat)
    requires a < 32 && b < 32
    ensures Expand5(a) == Expand5(b) <==> a == b
  {
    ExpansionKeepsTopBits(a);
    ExpansionKeepsTopBits(b);
  }

  lemma Distinct6(a: nat, b: nat)
    requires a < 64 && b < 64
    ensures Expand6(a) == Expand6(b) <==> a == b
  {
    ExpansionKeepsTopBits(a);
    ExpansionKeepsTopBits(b);
  }

  lemma Fields565(n: nat)
    requires n < 0x1_0000
    ensures n == n / 2048 % 32 * 2048 + n / 32 % 64 * 32 + n % 32
  {
    var q := n / 32;
    assert q / 64 == n / 2048;
    assert q == 64 * (q / 64) + q % 64;
  }

  lemma Fields555(n: nat)
    requires n < 0x1_0000
    ensures n % 32768 == n / 1024 % 32 * 1024 + n / 32 % 32 * 32 + n % 32
  {
    var q := n / 32;
    var p := q / 32;
    assert p == n / 1024;
    assert q == 32 * p + q % 32;
    assert p == 32 * (p / 32) + p % 32;
    assert n == 32768 * (p / 32) + (p % 32 * 1024 + q % 32 * 32 + n % 32);
  }

  /** A number has one set of digits to the base 32. */
  lemma OneSetOfDigits(a: nat, b: nat, c: nat, a': nat, b': nat, c': nat)
    requires b < 32 && c < 32 && b' < 32 && c' < 32
    ensures a * 1024 + b * 32 + c == a' * 1024 + b' * 32 + c' <==> a == a' && b == b' && c == c'
  {
  }

  /** What the source pixel at `at` looks like; an 8888 pixel is stored b, g, r, x. */
  function SourceColour(src: seq<byte>, at: nat, f: PixelFormat): Pixel
    requires at + BytesPerPixel(f) <= |src|
  {
    if f == Xrgb8888 then Pixel(src[at + 2], src[at + 1], src[at], 255) else Expanded(SourceValue(src, at), f)
  }

  /** The colour of a two-byte pixel, stored low byte first: red in the top bits. */
  function Colour565(lo: int, hi: int): Pixel
    requires 0 <= lo < 256 && 0 <= hi < 256
  {
    var r, g, b := hi / 8, hi % 8 * 8 + lo / 32, lo % 32;
    Pixel(r * 8 + r / 4, g * 4 + g / 16, b * 8 + b / 4, 255)
  }

  function Colour555(lo: int, hi: int): Pixel
    requires 0 <= lo < 256 && 0 <= hi < 256
  {
    var r, g, b := hi / 4 % 32, hi % 4 * 8 + lo / 32, lo % 32;
    Pixel(r * 8 + r / 4, g * 8 + g / 4, b * 8 + b / 4, 255)
  }

  /** The colours of a source pixel from its bytes. */
  lemma ColoursFromBytes(src: seq<byte>, at: nat)
    requires at + 2 <= |src|
    ensures SourceColour(src, at, Rgb565) == Colour565(src[at], src[at + 1])
    ensures SourceColour(src, at, Xrgb1555) == Colour555(src[at], src[at + 1])
    ensures at + 4 <= |src| ==> SourceColour(src, at, Xrgb8888) == Pixel(src[at + 2], src[at + 1], src[at], 255)
  {
    hide Expanded, Colour565, Colour555;
    var lo: int, hi: int := src[at], src[at + 1];
    ValueOfBytes(src, at, lo, hi);
    hide SourceValue;
    From565(SourceValue(src, at), lo, hi);
    From555(SourceValue(src, at), lo, hi);
  }

  lemma ValueOfBytes(src: seq<byte>, at: nat, lo: int, hi: int)
    requires at + 2 <= |src| && lo == src[at] && hi == src[at + 1]
    ensures SourceValue(src, at) == hi * 256 + lo
  {
  }

  function Mix565(r: nat, g: nat, b: nat): Pixel
    requires r < 32 && g < 64 && b < 32
  {
    Pixel(Expand5(r), Expand6(g), Expand5(b), 255)
  }

  function Mix555(r: nat, g: nat, b: nat): Pixel
    requires r < 32 && g < 32 && b < 32
  {
    Pixel(Expand5(r), Expand5(g), Expand5(b), 255)
  }

  lemma From565(v: u16, lo: int, hi: int)
    requires 0 <= lo < 256 && 0 <= hi < 256 && v == hi * 256 + lo
    ensures Expanded(v, Rgb565) == Colour565(lo, hi)
  {
    assert Expanded(v, Rgb565) == Mix565(v / 2048 % 32, v / 32 % 64, v % 32);
    assert Colour565(lo, hi) == Mix565(hi / 8, hi % 8 * 8 + lo / 32, lo % 32);
    hide Expanded, Colour565, Mix565, Expand5, Expand6;
    FieldsOfBytes(lo, hi);
  }

  lemma From555(v: u16, lo: int, hi: int)
    requires 0 <= lo < 256 && 0 <= hi < 256 && v == hi * 256 + lo
    ensures Expanded(v, Xrgb1555) == Colour555(lo, hi)
  {
    assert Expanded(v, Xrgb1555) == Mix555(v / 1024 % 32, v / 32 % 32, v % 32);
    assert Colour555(lo, hi) == Mix555(hi / 4 % 32, hi % 4 * 8 + lo / 32, lo % 32);
    hide Expanded, Colour555, Mix555, Expand5, Expand6;
    FieldsOfBytes(lo, hi);
  }

  lemma FieldsOfBytes(lo: int, hi: int)
    requires 0 <= lo < 256 && 0 <= hi < 256
    ensures var v := hi * 256 + lo;
            && v / 2048 % 32 == hi / 8 && v / 32 % 64 == hi % 8 * 8 + lo / 32 && v % 32 == lo % 32
            && v / 1024 % 32 == hi / 4 % 32 && v / 32 % 32 == hi % 4 * 8 + lo / 32
  {
    var v := hi * 256 + lo;
    var q := v / 32;
    assert q == hi * 8 + lo / 32;
    assert v / 2048 == q / 64 == hi / 8;
    assert v / 1024 == q / 32 == hi / 4;
    assert hi * 8 == 64 * (hi / 8) + hi % 8 * 8 && hi * 8 == 32 * (hi / 4) + hi % 4 * 8;
  }

  /** The four output bytes for the source pixel at `at`, in memory order. */
  function OutputPixel(src: seq<byte>, at: nat, f: PixelFormat): Pixel
    requires at + BytesPerPixel(f) <= |src|
  {
    if f == Xrgb8888 then PixelAt(src, at)
    else
      var p := Expanded(SourceValue(src, at), f);
      Pixel(p.b, p.g, p.r, 255)
  }

  lemma PixelInRow(col: nat, width: nat, f: PixelFormat)
    requires col < width
    ensures Span(f, col) + BytesPerPixel(f) <= Span(f, width)
  {
  }

  /** The output pixels of the row that starts at `start`. */
  function OutputRow(src: seq<byte>, start: nat, width: nat, f: PixelFormat): (row: seq<Pixel>)
    requires start + Span(f, width) <= |src|
    ensures |row| == width
  {
    seq(width, col requires 0 <= col < width =>
      PixelInRow(col, width, f);
      OutputPixel(src, start + Span(f, col), f))
  }

  /** The conversion goes ahead: a row fits its pitch and the buffer holds them all. */
  predicate Accepted(src: seq<byte>, width: nat, height: nat, pitch: nat, f: PixelFormat) {
    Span(f, width) <= pitch && height * pitch <= |src|
  }

  lemma RowInBounds(src: seq<byte>, width: nat, height: nat, pitch: nat, f: PixelFormat, row: nat)
    requires Accepted(src, width, height, pitch, f) && row < height
    ensures row * pitch + Span(f, width) <= |src|
  {
    assert (row + 1) * pitch <= height * pitch;
  }

  /** Where source pixel (row, col) starts. */
  function SourceAt(pitch: nat, f: PixelFormat, row: nat, col: nat): nat {
    row * pitch + Span(f, col)
  }

  /** The picture written out: pixel (row, col) comes from the source bytes at
      row*pitch + col*bytes and from nowhere else, so padding never shows. */
  function Output(src: seq<byte>, width: nat, height: nat, pitch: nat, f: PixelFormat): (img: Canvas)
    requires Accepted(src, width, height, pitch, f)
    ensures img.width == width && img.height == height
  {
    Image(width, height, seq(height, row requires 0 <= row < height =>
      RowInBounds(src, width, height, pitch, f, row);
      OutputRow(src, row * pitch, width, f)))
  }

  /** `convert_xrgb1555_row` and `convert_rgb565_row`. */
  method ConvertRow(src: seq<byte>, start: nat, width: nat, f: PixelFormat, before: seq<byte>) returns (out: seq<byte>)
    requires f != Xrgb8888 && start + Span(f, width) <= |src|
    ensures out == before + RowBytes(OutputRow(src, start, width, f))
  {
    out := before;
    ghost var pixels := OutputRow(src, start, width, f);
    for col := 0 to width
      invariant out == before + RowBytes(pixels[..col])
    {
      var p := Expanded(SourceValue(src, start + col * 2), f);
      RowBytesGrow(pixels, col);
      out := out + [p.b, p.g, p.r, 255];
    }
    assert pixels[..width] == pixels;
  }

  /** An 8888 row is copied whole. */
  lemma CopiedRow(src: seq<byte>, start: nat, width: nat)
    requires start + Span(Xrgb8888, width) <= |src|
    ensures src[start..start + Span(Xrgb8888, width)] == RowBytes(OutputRow(src, start, width, Xrgb8888))
  {
    hide OutputRow, RowBytes;
    CopiedPart(src, start, width, width);
    var row := OutputRow(src, start, width, Xrgb8888);
    assert row[..width] == row;
  }

  lemma {:induction false} CopiedPart(src: seq<byte>, start: nat, width: nat, n: nat)
    requires start + width * 4 <= |src| && n <= width
    ensures src[start..start + n * 4] == RowBytes(OutputRow(src, start, width, Xrgb8888)[..n])
  {
    if n == 0 {
    } else {
      CopiedPart(src, start, width, n - 1);
      var pixels := OutputRow(src, start, width, Xrgb8888);
      RowBytesGrow(pixels, n - 1);
      var at := start + (n - 1) * 4;
      assert src[start..at + 4] == src[start..at] + src[at..at + 4];
      assert src[at..at + 4] == PixelBytes(pixels[n - 1]);
    }
  }

  lemma OneMoreRow(src: seq<byte>, width: nat, height: nat, pitch: nat, f: PixelFormat, row: nat)
    requires Accepted(src, width, height, pitch, f) && row < height
    ensures row * pitch + Span(f, width) <= |src|
    ensures var rows := Output(src, width, height, pitch, f).rows;
            RowsBytes(rows[..row + 1]) == RowsBytes(rows[..row]) + RowBytes(OutputRow(src, row * pitch, width, f))
  {
    RowInBounds(src, width, height, pitch, f, row);
    hide OutputRow, Accepted, Span, RowBytes;
    RowsBytesGrow(Output(src, width, height, pitch, f).rows, row);
  }

  lemma AllRows(img: Canvas)
    ensures RowsBytes(img.rows[..0]) == []
    ensures RowsBytes(img.rows[..img.height]) == ImageBytes(img)
  {
    assert img.rows[..img.height] == img.rows;
  }

  /** A buffer with packed rows and no bytes to spare is converted. */
  lemma PackedAccepted(src: seq<byte>, width: nat, height: nat, f: PixelFormat)
    requires |src| == width * height * if f == Xrgb8888 then 4 else 2
    ensures Accepted(src, width, height, width * if f == Xrgb8888 then 4 else 2, f)
  {
    var bytes := if f == Xrgb8888 then 4 else 2;
    assert height * (width * bytes) == width * height * bytes;
  }

  /** `convert_video_frame_to_xrgb8888`: refused exactly when not accepted. */
  method ConvertVideoFrame(src: seq<byte>, width: nat, height: nat, pitch: nat, f: PixelFormat)
    returns (out: Option<seq<byte>>)
    ensures out.Some? <==> width * (if f == Xrgb8888 then 4 else 2) <= pitch && height * pitch <= |src|
    ensures out.Some? ==> out.value == ImageBytes(Output(src, width, height, pitch, f))
  {
    hide RowBytes, OutputRow, RowsBytes, ImageBytes;
    var rowBytes := Span(f, width);
    if pitch < rowBytes || |src| < height * pitch {
      return None;
    }
    hide Output, Accepted, Span, BytesPerPixel, RowsBytes;
    var bytes: seq<byte> := [];
    AllRows(Output(src, width, height, pitch, f));
    ghost var rows := Output(src, width, height, pitch, f).rows;
    for row := 0 to height
      invariant bytes == RowsBytes(rows[..row])
    {
      OneMoreRow(src, width, height, pitch, f, row);
      var start := row * pitch;
      if f == Xrgb8888 {
        CopiedRow(src, start, width);
        bytes := bytes + src[start..start + rowBytes];
      } else {
        bytes := ConvertRow(src, start, width, f, bytes);
      }
    }
    out := Some(bytes);
  }

  lemma TightlyPacked(width: nat, height: nat, row: nat, col: nat)
    requires row < height && col < width
    ensures At(width * 4, col, row) == Offset(width, col, row)
    ensures (height - 1) * (width * 4) + 4 * width == 4 * (width * height)
  {
    assert row * (width * 4) == 4 * (row * width);
    assert (height - 1) * width + width == width * height;
    assert (height - 1) * (width * 4) == 4 * ((height - 1) * width);
  }

  lemma PixelInBounds(src: seq<byte>, width: nat, height: nat, pitch: nat, f: PixelFormat, row: nat, col: nat)
    requires Accepted(src, width, height, pitch, f) && row < height && col < width
    ensures SourceAt(pitch, f, row, col) + BytesPerPixel(f) <= |src|
    ensures Output(src, width, height, pitch, f).rows[row][col] == OutputPixel(src, SourceAt(pitch, f, row, col), f)
  {
    RowInBounds(src, width, height, pitch, f, row);
    hide Span, BytesPerPixel, OutputPixel, OutputRow, Accepted;
    OutputRowAt(src, row * pitch, width, f, col);
  }

  lemma OutputRowAt(src: seq<byte>, start: nat, width: nat, f: PixelFormat, col: nat)
    requires start + Span(f, width) <= |src| && col < width
    ensures start + Span(f, col) + BytesPerPixel(f) <= |src|
    ensures OutputRow(src, start, width, f)[col] == OutputPixel(src, start + Span(f, col), f)
  {
    PixelInRow(col, width, f);
    hide Span, BytesPerPixel, OutputPixel;
  }

  /** The worker announces the converted frame with pitch 4*width; it is just long enough. */
  lemma OutputAddressable(img: Canvas)
    ensures |ImageBytes(img)| == 4 * (img.width * img.height)
    ensures Addressable(ImageBytes(img), Packed(img))
  {
    RowsBytesLength(img.rows, img.width);
    if img.width > 0 && img.height > 0 {
      TightlyPacked(img.width, img.height, 0, 0);
    }
  }

  function Packed(img: Canvas): Geometry {
    Geometry(img.width, img.height, img.width * 4)
  }

  lemma PackedPixel(img: Canvas, row: nat, col: nat)
    requires row < img.height && col < img.width && Addressable(ImageBytes(img), Packed(img))
    ensures var p := img.rows[row][col];
            Rgba(ImageBytes(img), Packed(img)).rows[row][col] == Pixel(p.b, p.g, p.r, 255)
  {
    TightlyPacked(img.width, img.height, row, col);
    RowsBytesAt(img.rows, img.width, col, row);
    AtBound(ImageBytes(img), Packed(img), col, row);
    hide Addressable, Offset, RowsBytes;
  }

  /** From the emulator's buffer to the screen: the picture the stream shows of the
      converted frame has, at every position, the red, green and blue of that source
      pixel, opaque. */
  lemma SourceToScreen(src: seq<byte>, width: nat, height: nat, pitch: nat, f: PixelFormat, row: nat, col: nat)
    requires Accepted(src, width, height, pitch, f) && row < height && col < width
    ensures SourceAt(pitch, f, row, col) + BytesPerPixel(f) <= |src|
    ensures var img := Output(src, width, height, pitch, f); Addressable(ImageBytes(img), Packed(img))
    ensures Screen(Output(src, width, height, pitch, f)).rows[row][col]
         == SourceColour(src, SourceAt(pitch, f, row, col), f)
  {
    var img := Output(src, width, height, pitch, f);
    OutputAddressable(img);
    PixelInBounds(src, width, height, pitch, f, row, col);
    PackedPixel(img, row, col);
  }

  /** What the stream shows of a frame sent with its rows packed. */
  function Screen(img: Canvas): (c: Canvas)
    ensures c.width == img.width && c.height == img.height
  {
    OutputAddressable(img);
    Rgba(ImageBytes(img), Packed(img))
  }

  /** ...and so does the canvas of a viewer, whatever it showed before, once it has
      rendered a keyframe of that frame. */
  lemma SourceToCanvas(codec: Codec, message: StreamFrame, canvas: Canvas,
                       src: seq<byte>, width: nat, height: nat, pitch: nat, f: PixelFormat, row: nat, col: nat)
    requires Invertible(codec) && Accepted(src, width, height, pitch, f) && row < height && col < width
    requires Carries(message, KeyframeKind, Packed(Output(src, width, height, pitch, f)),
                     codec.deflate(ImageBytes(Screen(Output(src, width, height, pitch, f)))))
    ensures SourceAt(pitch, f, row, col) + BytesPerPixel(f) <= |src|
    ensures var after := ShowFrame(codec, message, canvas).canvas;
            && after.width == width && after.height == height
            && after.rows[row][col] == SourceColour(src, SourceAt(pitch, f, row, col), f)
  {
    var img := Output(src, width, height, pitch, f);
    OutputAddressable(img);
    SourceToScreen(src, width, height, pitch, f, row, col);
    KeyframeDisplays(codec, message, canvas, ImageBytes(img), Packed(img));
    hide ShowFrame, Accepted, SourceColour, SourceAt, Carries;
  }
}
