/** What a viewer shows when it paints only the first changed tiles of a delta. */
module FirstTiles {
  import opened Bytes
  import opened Images
  import opened TileGrid

  /** Rows from top to bottom, and each row from left to right. */
  ghost predicate InGridOrder(rs: seq<Rect>) {
    forall i, j :: 0 <= i < j < |rs| ==> Precedes(rs[i].x, rs[i].y, rs[j].x, rs[j].y)
  }

  lemma {:induction false} RowInOrder(
    prev: seq<byte>, curr: seq<byte>, g: Geometry, tileSize: nat, ty: nat, n: nat)
    requires tileSize > 0 && ty < DivCeil(g.height, tileSize) && n <= DivCeil(g.width, tileSize)
    ensures InGridOrder(ChangedInRow(prev, curr, g, tileSize, ty, n))
    ensures forall r :: r in ChangedInRow(prev, curr, g, tileSize, ty, n) ==>
              r.y == ty * tileSize && r.x < n * tileSize
  {
    hide Changed;
    if n == 0 {
    } else {
      RowInOrder(prev, curr, g, tileSize, ty, n - 1);
      assert n * tileSize == (n - 1) * tileSize + tileSize;
    }
  }

  lemma {:induction false} TilesInOrder(prev: seq<byte>, curr: seq<byte>, g: Geometry, tileSize: nat, n: nat)
    requires tileSize > 0 && n <= DivCeil(g.height, tileSize)
    ensures InGridOrder(ChangedTiles(prev, curr, g, tileSize, n))
    ensures forall r :: r in ChangedTiles(prev, curr, g, tileSize, n) ==> r.y < n * tileSize
  {
    if n == 0 {
    } else {
      var tilesX := DivCeil(g.width, tileSize);
      TilesInOrder(prev, curr, g, tileSize, n - 1);
      RowInOrder(prev, curr, g, tileSize, n - 1, tilesX);
      assert n * tileSize == (n - 1) * tileSize + tileSize;
      RowBelow(ChangedTiles(prev, curr, g, tileSize, n - 1), ChangedInRow(prev, curr, g, tileSize, n - 1, tilesX),
               (n - 1) * tileSize);
      hide ChangedInRow, DivCeil;
    }
  }

  lemma RowBelow(above: seq<Rect>, row: seq<Rect>, y: nat)
    requires InGridOrder(above) && InGridOrder(row)
    requires (forall r :: r in above ==> r.y < y) && (forall r :: r in row ==> r.y == y)
    ensures InGridOrder(above + row)
  {
  }

  /** No pixel lies in two of the changed tiles. */
  lemma TilesAreDisjoint(
    prev: seq<byte>, curr: seq<byte>, g: Geometry, tileSize: nat, i: nat, j: nat, x: nat, y: nat)
    requires tileSize > 0 && i < j < |AllChanged(prev, curr, g, tileSize)|
    requires Inside(x, y, AllChanged(prev, curr, g, tileSize)[i])
    ensures !Inside(x, y, AllChanged(prev, curr, g, tileSize)[j])
  {
    var rs := AllChanged(prev, curr, g, tileSize);
    TilesInOrder(prev, curr, g, tileSize, DivCeil(g.height, tileSize));
    assert Precedes(rs[i].x, rs[i].y, rs[j].x, rs[j].y);
    if Inside(x, y, rs[j]) {
      SameTile(prev, curr, g, tileSize, rs[i], rs[j], x, y);
    }
  }

  lemma SameTile(
    prev: seq<byte>, curr: seq<byte>, g: Geometry, tileSize: nat, r: Rect, r': Rect, x: nat, y: nat)
    requires tileSize > 0 && r in AllChanged(prev, curr, g, tileSize) && r' in AllChanged(prev, curr, g, tileSize)
    requires Inside(x, y, r) && Inside(x, y, r')
    ensures r == r'
  {
    hide Changed, DivCeil, TileRect, ChangedTiles;
    ChangedTilesMembers(prev, curr, g, tileSize, DivCeil(g.height, tileSize), r);
    ChangedTilesMembers(prev, curr, g, tileSize, DivCeil(g.height, tileSize), r');
    var tx, ty :| 0 <= tx < DivCeil(g.width, tileSize) && 0 <= ty < DivCeil(g.height, tileSize)
                  && r == TileRect(g, tileSize, tx, ty);
    var tx', ty' :| 0 <= tx' < DivCeil(g.width, tileSize) && 0 <= ty' < DivCeil(g.height, tileSize)
                    && r' == TileRect(g, tileSize, tx', ty');
    GridPartitions(g, tileSize, x, y, tx, ty);
    GridPartitions(g, tileSize, x, y, tx', ty');
  }

  /** The changed tiles after the first `n` differ only in bytes that are not shown. */
  ghost predicate RestLooksSame(before: Canvas, after: Canvas, rs: seq<Rect>, n: nat)
    requires before.width == after.width && before.height == after.height
    requires Drawable(rs, after.width, after.height) && n <= |rs|
  {
    forall k :: n <= k < |rs| ==> Crop(before, rs[k]) == Crop(after, rs[k])
  }

  /** Painting only the first `n` changed tiles still yields the current image exactly
      when the others look the same as before. */
  lemma FirstTilesPaintCurrentIff(prev: seq<byte>, curr: seq<byte>, g: Geometry, tileSize: nat, n: nat)
    requires tileSize > 0 && n <= |AllChanged(prev, curr, g, tileSize)|
    requires Addressable(prev, g) && Addressable(curr, g) && DeltaReadable(prev, curr, g, tileSize)
    ensures Drawable(AllChanged(prev, curr, g, tileSize), g.width, g.height)
    ensures var rs := AllChanged(prev, curr, g, tileSize);
            PaintRects(Rgba(prev, g), Rgba(curr, g), rs[..n]) == Rgba(curr, g)
            <==> RestLooksSame(Rgba(prev, g), Rgba(curr, g), rs, n)
  {
    hide DeltaReadable, Rgba, AllChanged;
    EmittedIffChanged(prev, curr, g, tileSize);
    var rs := AllChanged(prev, curr, g, tileSize);
    var before, after := Rgba(prev, g), Rgba(curr, g);
    var painted := PaintRects(before, after, rs[..n]);
    if RestLooksSame(before, after, rs, n) {
      forall y, x | 0 <= y < g.height && 0 <= x < g.width
        ensures painted.rows[y][x] == after.rows[y][x]
      {
        FirstTilesAt(prev, curr, g, tileSize, n, x, y);
      }
      SameCanvas(painted, after);
    } else {
      var k :| n <= k < |rs| && Crop(before, rs[k]) != Crop(after, rs[k]);
      var x, y := DifferentCrops(before, after, rs[k]);
      NotAmongFirst(prev, curr, g, tileSize, n, k, x, y);
      PaintRectsAt(before, after, rs[..n], x, y);
    }
  }

  lemma FirstTilesAt(prev: seq<byte>, curr: seq<byte>, g: Geometry, tileSize: nat, n: nat, x: nat, y: nat)
    requires tileSize > 0 && n <= |AllChanged(prev, curr, g, tileSize)| && x < g.width && y < g.height
    requires Addressable(prev, g) && Addressable(curr, g) && DeltaReadable(prev, curr, g, tileSize)
    requires Drawable(AllChanged(prev, curr, g, tileSize), g.width, g.height)
    requires RestLooksSame(Rgba(prev, g), Rgba(curr, g), AllChanged(prev, curr, g, tileSize), n)
    ensures PaintRects(Rgba(prev, g), Rgba(curr, g), AllChanged(prev, curr, g, tileSize)[..n]).rows[y][x]
         == Rgba(curr, g).rows[y][x]
  {
    hide DeltaReadable, Rgba, AllChanged, PaintRects, Addressable;
    var rs := AllChanged(prev, curr, g, tileSize);
    var before, after := Rgba(prev, g), Rgba(curr, g);
    PaintRectsAt(before, after, rs[..n], x, y);
    if !Covered(rs[..n], x, y) {
      if Covered(rs, x, y) {
        var k :| 0 <= k < |rs| && Inside(x, y, rs[k]);
        assert forall i :: 0 <= i < n ==> rs[..n][i] == rs[i];
        CropAt(before, rs[k], x, y);
        CropAt(after, rs[k], x, y);
      } else {
        UncoveredIsSame(prev, curr, g, tileSize, x, y);
      }
    }
  }

  lemma CropAt(img: Canvas, r: Rect, x: nat, y: nat)
    requires Within(r, img.width, img.height) && Inside(x, y, r)
    ensures Crop(img, r).rows[y - r.y][x - r.x] == img.rows[y][x]
  {
  }

  lemma DifferentCrops(a: Canvas, b: Canvas, r: Rect) returns (x: nat, y: nat)
    requires a.width == b.width && a.height == b.height && Within(r, a.width, a.height) && Crop(a, r) != Crop(b, r)
    ensures Inside(x, y, r) && a.rows[y][x] != b.rows[y][x]
  {
    if forall x: nat, y: nat :: Inside(x, y, r) ==> a.rows[y][x] == b.rows[y][x] {
      forall v, u | 0 <= v < r.h && 0 <= u < r.w
        ensures Crop(a, r).rows[v][u] == Crop(b, r).rows[v][u]
      {
        assert Inside(r.x + u, r.y + v, r);
      }
      SameCanvas(Crop(a, r), Crop(b, r));
      assert false;
    }
    x, y :| Inside(x, y, r) && a.rows[y][x] != b.rows[y][x];
  }

  lemma NotAmongFirst(prev: seq<byte>, curr: seq<byte>, g: Geometry, tileSize: nat, n: nat, k: nat, x: nat, y: nat)
    requires tileSize > 0 && n <= k < |AllChanged(prev, curr, g, tileSize)|
    requires Inside(x, y, AllChanged(prev, curr, g, tileSize)[k])
    ensures !Covered(AllChanged(prev, curr, g, tileSize)[..n], x, y)
  {
    hide AllChanged;
    var rs := AllChanged(prev, curr, g, tileSize);
    forall i | 0 <= i < n
      ensures !Inside(x, y, rs[..n][i])
    {
      if Inside(x, y, rs[i]) {
        TilesAreDisjoint(prev, curr, g, tileSize, i, k, x, y);
      }
    }
  }
}
