/** The dashboard's renderer, dashboard/src/App.tsx: a keyframe replaces the
    canvas, a delta paints tile records onto it. */
module Viewer {
  import opened Bytes
  import opened Images
  import opened StreamProtocol
  import opened StreamParser

  /** How rendering one message ends. `StoppedEarly` is a silent return from the
      middle of a delta, `Threw` an exception; both keep what was painted so far. */
  datatype Outcome = Painted | StoppedEarly | Threw

  datatype Shown = Shown(canvas: Canvas, outcome: Outcome)

  function InflatePayload(codec: Codec, frame: StreamFrame): Option<seq<byte>> {
    if frame.isDeflated then codec.inflate(frame.payload) else Some(frame.payload)
  }

  /** When `new ImageData(pixels, width, height)` does not throw. */
  predicate ImageDataOk(length: nat, width: nat, height: nat) {
    length > 0 && length == 4 * (width * height)
  }

  function PixelBytesOf(width: nat, height: nat): nat {
    4 * (width * height)
  }

  function ShowKeyframe(codec: Codec, frame: StreamFrame, canvas: Canvas): Shown {
    match InflatePayload(codec, frame)
    case None => Shown(canvas, Threw)
    case Some(rgba) =>
      if |rgba| < frame.rawBytes then Shown(canvas, Threw)
      else
        var sized := if canvas.width != frame.width || canvas.height != frame.height
                     then Blank(frame.width, frame.height) else canvas;
        if !ImageDataOk(frame.rawBytes, frame.width, frame.height) then Shown(sized, Threw)
        else Shown(Overlay(sized, ParseImage(rgba[..frame.rawBytes], frame.width, frame.height), 0, 0), Painted)
  }

  /** The decoder inside a delta: where it reads, what is painted, and whether it still runs. */
  datatype Cursor = Cursor(offset: nat, canvas: Canvas, ended: Option<Outcome>)

  /** One tile record. */
  function DeltaStep(payload: seq<byte>, c: Cursor): Cursor {
    if c.ended.Some? then c
    else if c.offset + 8 > |payload| then c.(ended := Some(StoppedEarly))
    else
      var x := GetBe16(payload, c.offset);
      var y := GetBe16(payload, c.offset + 2);
      var width := GetBe16(payload, c.offset + 4);
      var height := GetBe16(payload, c.offset + 6);
      var start := c.offset + 8;
      var pixelBytes := PixelBytesOf(width, height);
      if start + pixelBytes > |payload| then Cursor(start, c.canvas, Some(StoppedEarly))
      else if !ImageDataOk(pixelBytes, width, height) then Cursor(start, c.canvas, Some(Threw))
      else
        Cursor(start + pixelBytes,
               Overlay(c.canvas, ParseImage(payload[start..start + pixelBytes], width, height), x, y), None)
  }

  function DeltaSteps(payload: seq<byte>, canvas: Canvas, k: nat): Cursor {
    if k == 0 then Cursor(2, canvas, None) else DeltaStep(payload, DeltaSteps(payload, canvas, k - 1))
  }

  function ShowDelta(codec: Codec, frame: StreamFrame, canvas: Canvas): Shown {
    match InflatePayload(codec, frame)
    case None => Shown(canvas, Threw)
    case Some(payload) =>
      if |payload| < 2 then Shown(canvas, StoppedEarly)
      else
        var c := DeltaSteps(payload, canvas, GetBe16(payload, 0));
        Shown(c.canvas, if c.ended.Some? then c.ended.value else Painted)
  }

  function ShowFrame(codec: Codec, frame: StreamFrame, canvas: Canvas): Shown {
    match frame.kind
    case KeyframeKind => ShowKeyframe(codec, frame, canvas)
    case DeltaKind => ShowDelta(codec, frame, canvas)
  }

  lemma {:induction false} EndedStays(payload: seq<byte>, canvas: Canvas, k: nat, n: nat)
    requires k <= n && DeltaSteps(payload, canvas, k).ended.Some?
    ensures DeltaSteps(payload, canvas, n) == DeltaSteps(payload, canvas, k)
  {
    if k == n {
    } else {
      EndedStays(payload, canvas, k, n - 1);
    }
  }

  /** The bytes a keyframe or delta is read from. */
  lemma PayloadRead(codec: Codec, frame: StreamFrame)
    ensures !frame.isDeflated ==> InflatePayload(codec, frame) == Some(frame.payload)
    ensures frame.isDeflated ==> InflatePayload(codec, frame) == codec.inflate(frame.payload)
  {
  }

  /** Exactly when a keyframe is painted, and what the canvas shows then and otherwise. */
  lemma KeyframeEffect(codec: Codec, frame: StreamFrame, canvas: Canvas)
    ensures var rgba, r := InflatePayload(codec, frame), ShowKeyframe(codec, frame, canvas);
            var w: nat, h: nat := frame.width, frame.height;
            && (r.outcome == Painted || r.outcome == Threw)
            && (r.outcome == Painted <==>
                  rgba.Some? && |rgba.value| >= frame.rawBytes && frame.rawBytes == 4 * (w * h) > 0)
            && (r.outcome == Painted ==>
                  && r.canvas.width == w && r.canvas.height == h
                  && forall y: nat, x: nat :: y < h && x < w ==> PaintedFrom(r.canvas, rgba.value, 0, w, 0, 0, x, y))
            && (rgba.None? || |rgba.value| < frame.rawBytes ==> r.canvas == canvas)
            && (r.outcome == Threw && canvas.width == w && canvas.height == h ==> r.canvas == canvas)
            && (rgba.Some? && |rgba.value| >= frame.rawBytes && r.outcome == Threw
                && (canvas.width != w || canvas.height != h) ==>
                  && r.canvas.width == w && r.canvas.height == h
                  && forall y, x :: 0 <= y < h && 0 <= x < w ==> r.canvas.rows[y][x] == Pixel(0, 0, 0, 0))
  {
    var rgba, w, h := InflatePayload(codec, frame), frame.width, frame.height;
    if rgba.Some? && |rgba.value| >= frame.rawBytes && ImageDataOk(frame.rawBytes, w, h) {
      forall y: nat, x: nat | y < h && x < w
        ensures PaintedFrom(ShowKeyframe(codec, frame, canvas).canvas, rgba.value, 0, w, 0, 0, x, y)
      {
        OffsetBound(w, h, x, y);
      }
    }
  }

  /** Pixel (x, y) of the canvas shows its four bytes of a `w` wide rectangle at (left,
      top) whose bytes start at `start`. */
  predicate PaintedFrom(canvas: Canvas, data: seq<byte>, start: nat, w: nat, left: nat, top: nat, x: nat, y: nat)
    requires left <= x && top <= y
  {
    var at := start + 4 * ((y - top) * w + (x - left));
    && y < canvas.height && x < canvas.width && at + 4 <= |data|
    && canvas.rows[y][x] == Pixel(data[at], data[at + 1], data[at + 2], data[at + 3])
  }

  /** What one complete record of a tile at (x, y), `w` wide and `h` high, does to each pixel. */
  lemma TileEffect(payload: seq<byte>, offset: nat, canvas: Canvas, x: nat, y: nat, w: nat, h: nat, u: nat, v: nat)
    requires offset + 8 <= |payload| && u < canvas.width && v < canvas.height
    requires x == GetBe16(payload, offset) && y == GetBe16(payload, offset + 2)
    requires w == GetBe16(payload, offset + 4) > 0 && h == GetBe16(payload, offset + 6) > 0
    requires offset + 8 + 4 * (w * h) <= |payload|
    ensures var c := DeltaStep(payload, Cursor(offset, canvas, None));
            && c.offset == offset + 8 + 4 * (w * h) && c.ended == None
            && c.canvas.width == canvas.width && c.canvas.height == canvas.height
            && if x <= u < x + w && y <= v < y + h
               then PaintedFrom(c.canvas, payload, offset + 8, w, x, y, u, v)
               else c.canvas.rows[v][u] == canvas.rows[v][u]
  {
    TilePainted(payload, offset, canvas, x, y, w, h);
    hide DeltaStep, GetBe16;
    PartPainted(payload, offset + 8, canvas, x, y, w, h, u, v);
  }

  lemma PartPainted(data: seq<byte>, start: nat, canvas: Canvas, x: nat, y: nat, w: nat, h: nat, u: nat, v: nat)
    requires start + 4 * (w * h) <= |data| && u < canvas.width && v < canvas.height
    ensures var c := Overlay(canvas, ParseImage(data[start..start + 4 * (w * h)], w, h), x, y);
            if x <= u < x + w && y <= v < y + h then PaintedFrom(c, data, start, w, x, y, u, v)
            else c.rows[v][u] == canvas.rows[v][u]
  {
    hide Overlay, ParseImage;
    OverlayAt(canvas, ParseImage(data[start..start + 4 * (w * h)], w, h), x, y, u, v);
    if x <= u < x + w && y <= v < y + h {
      ParsedAt(data, start, w, h, u - x, v - y);
    }
  }

  lemma TilePainted(payload: seq<byte>, offset: nat, canvas: Canvas, x: nat, y: nat, w: nat, h: nat)
    requires offset + 8 <= |payload|
    requires x == GetBe16(payload, offset) && y == GetBe16(payload, offset + 2)
    requires w == GetBe16(payload, offset + 4) > 0 && h == GetBe16(payload, offset + 6) > 0
    requires offset + 8 + 4 * (w * h) <= |payload|
    ensures DeltaStep(payload, Cursor(offset, canvas, None))
         == Cursor(offset + 8 + 4 * (w * h),
                   Overlay(canvas, ParseImage(payload[offset + 8..offset + 8 + 4 * (w * h)], w, h), x, y), None)
  {
    PositiveArea(w, h);
    hide GetBe16, Overlay, ParseImage;
  }

  lemma OverlayAt(canvas: Canvas, part: Canvas, x: nat, y: nat, u: nat, v: nat)
    requires u < canvas.width && v < canvas.height
    ensures Overlay(canvas, part, x, y).rows[v][u]
         == if x <= u < x + part.width && y <= v < y + part.height then part.rows[v - y][u - x] else canvas.rows[v][u]
  {
  }

  lemma ParsedAt(data: seq<byte>, start: nat, w: nat, h: nat, a: nat, b: nat)
    requires start + 4 * (w * h) <= |data| && a < w && b < h
    ensures start + 4 * (b * w + a) + 4 <= |data|
    ensures var at := start + 4 * (b * w + a);
            ParseImage(data[start..start + 4 * (w * h)], w, h).rows[b][a]
            == Pixel(data[at], data[at + 1], data[at + 2], data[at + 3])
  {
    OffsetBound(w, h, a, b);
  }

  lemma PositiveArea(w: nat, h: nat)
    requires w > 0 && h > 0
    ensures PixelBytesOf(w, h) > 0
  {
    assert w * h > 0;
  }

  /** One `<canvas>` with its drawing context. */
  class Renderer {
    var canvas: Canvas

    constructor (canvas: Canvas)
      ensures this.canvas == canvas
    {
      this.canvas := canvas;
    }

    method RenderKeyframe(codec: Codec, frame: StreamFrame) returns (outcome: Outcome)
      modifies this
      ensures Shown(canvas, outcome) == ShowKeyframe(codec, frame, old(canvas))
    {
      var inflated := InflatePayload(codec, frame);
      if inflated.None? || |inflated.value| < frame.rawBytes {
        return Threw;
      }
      if canvas.width != frame.width || canvas.height != frame.height {
        canvas := Blank(frame.width, frame.height);
      }
      if !ImageDataOk(frame.rawBytes, frame.width, frame.height) {
        return Threw;
      }
      var pixels := inflated.value[..frame.rawBytes];
      canvas := Overlay(canvas, ParseImage(pixels, frame.width, frame.height), 0, 0);
      outcome := Painted;
    }

    method RenderDelta(codec: Codec, frame: StreamFrame) returns (outcome: Outcome)
      modifies this
      ensures Shown(canvas, outcome) == ShowDelta(codec, frame, old(canvas))
    {
      var inflated := InflatePayload(codec, frame);
      if inflated.None? {
        return Threw;
      }
      var payload := inflated.value;
      if |payload| < 2 {
        return StoppedEarly;
      }
      var tileCount := GetBe16(payload, 0);
      var offset: nat := 2;
      for tileIndex := 0 to tileCount
        invariant DeltaSteps(payload, old(canvas), tileIndex) == Cursor(offset, canvas, None)
      {
        var ended;
        offset, ended := RenderTile(payload, offset);
        if ended.Some? {
          EndedStays(payload, old(canvas), tileIndex + 1, tileCount);
          return ended.value;
        }
      }
      outcome := Painted;
    }

    /** The body of the loop over tile records. */
    method RenderTile(payload: seq<byte>, start: nat) returns (offset: nat, ended: Option<Outcome>)
      modifies this
      ensures Cursor(offset, canvas, ended) == DeltaStep(payload, Cursor(start, old(canvas), None))
    {
      offset := start;
      if offset + 8 > |payload| {
        return offset, Some(StoppedEarly);
      }
      var x := GetBe16(payload, offset);
      var y := GetBe16(payload, offset + 2);
      var width := GetBe16(payload, offset + 4);
      var height := GetBe16(payload, offset + 6);
      offset := offset + 8;
      var pixelBytes: nat := PixelBytesOf(width, height);
      if offset + pixelBytes > |payload| {
        return offset, Some(StoppedEarly);
      }
      if !ImageDataOk(pixelBytes, width, height) {
        return offset, Some(Threw);
      }
      var pixels := payload[offset..offset + pixelBytes];
      canvas := Overlay(canvas, ParseImage(pixels, width, height), x, y);
      return offset + pixelBytes, None;
    }
  }

  /** Every canvas on the page, by instance index. */
  type Screens = map<byte, Canvas>

  /** One binary message: unparsable bytes and unknown indices change nothing. */
  function ShowMessage(codec: Codec, screens: Screens, buffer: seq<byte>): (r: Screens)
    ensures r.Keys == screens.Keys
  {
    match ParseStreamFrame(buffer)
    case Err(_) => screens
    case Ok(frame) =>
      if frame.instanceIndex !in screens then screens
      else screens[frame.instanceIndex := ShowFrame(codec, frame, screens[frame.instanceIndex]).canvas]
  }

  /** Messages in arrival order. */
  function ShowMessages(codec: Codec, screens: Screens, buffers: seq<seq<byte>>): (r: Screens)
    ensures r.Keys == screens.Keys
  {
    if buffers == [] then screens
    else ShowMessage(codec, ShowMessages(codec, screens, buffers[..|buffers| - 1]), buffers[|buffers| - 1])
  }
}
