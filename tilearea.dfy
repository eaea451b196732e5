/**
 * Tile areas (map/tilearea.h): an axis-aligned rectangle of tiles given by
 * its north tile and its width and height, and the orthogonal iterator that
 * walks such a rectangle in row-major order with only additive steps.
 */
module MapTileArea {
  import opened Coord

  // ---------------------------------------------------------------------
  // The rectangle as a set of tiles, independently of any code that walks it
  // ---------------------------------------------------------------------

  /** The w tiles of one row, starting at index start. */
  function Row(start: int, w: nat): seq<int>
  {
    seq(w, i => start + i)
  }

  /**
   * The tile indices of the w-by-h rectangle whose first tile is origin, on
   * a map whose rows are pitch indices apart, row by row from the north.
   */
  function RowMajor(origin: int, w: nat, h: nat, pitch: nat): seq<int>
    decreases h
  {
    if h == 0 then [] else RowMajor(origin, w, h - 1, pitch) + Row(origin + (h - 1) * pitch, w)
  }

  /** The rectangle lies inside a valid map (an empty one always does). */
  ghost predicate RectInsideMap(g: Grid, origin: TileIndex, w: nat, h: nat)
  {
    g.Valid() &&
    (w == 0 || h == 0 || (TileX(g, origin) + w <= g.sizeX && TileY(g, origin) + h <= g.sizeY))
  }

  /** Tile t lies in the rectangle: its column and row are within the rectangle's extents. */
  ghost predicate InRect(g: Grid, origin: TileIndex, w: nat, h: nat, t: TileIndex)
    requires 1 <= g.sizeX
  {
    TileX(g, origin) <= TileX(g, t) < TileX(g, origin) + w &&
    TileY(g, origin) <= TileY(g, t) < TileY(g, origin) + h
  }

  /** The walk visits w * h tiles. */
  lemma {:induction false} RowMajorLength(origin: int, w: nat, h: nat, pitch: nat)
    ensures |RowMajor(origin, w, h, pitch)| == w * h
  {
    if h > 0 {
      RowMajorLength(origin, w, h - 1, pitch);
      assert w * (h - 1) + w == w * h;
    }
  }

  /** The (j * w + i)-th tile of the walk is column i of row j of the rectangle. */
  lemma {:induction false} RowMajorAt(origin: int, w: nat, h: nat, pitch: nat, i: nat, j: nat)
    requires i < w && j < h
    ensures |RowMajor(origin, w, h, pitch)| == w * h
    ensures j * w + i < w * h
    ensures RowMajor(origin, w, h, pitch)[j * w + i] == origin + i + j * pitch
  {
    RowMajorLength(origin, w, h, pitch);
    RowMajorLength(origin, w, h - 1, pitch);
    if j == h - 1 {
      assert j * w == w * (h - 1);
    } else {
      RowMajorAt(origin, w, h - 1, pitch, i, j);
      MulMonotone(j + 1, h - 1, w);
      assert (j + 1) * w == j * w + w;
    }
  }

  /** When rows are no wider than the pitch, the walk is strictly increasing
      and every index lies in [origin, origin + h * pitch). */
  lemma {:induction false} RowMajorIncreasing(origin: int, w: nat, h: nat, pitch: nat)
    requires w <= pitch
    ensures forall k :: 0 <= k < |RowMajor(origin, w, h, pitch)| ==>
      origin <= RowMajor(origin, w, h, pitch)[k] < origin + h * pitch
    ensures forall a, b :: 0 <= a < b < |RowMajor(origin, w, h, pitch)| ==>
      RowMajor(origin, w, h, pitch)[a] < RowMajor(origin, w, h, pitch)[b]
  {
    if h > 0 {
      RowMajorIncreasing(origin, w, h - 1, pitch);
      var front, last := RowMajor(origin, w, h - 1, pitch), Row(origin + (h - 1) * pitch, w);
      assert RowMajor(origin, w, h, pitch) == front + last;
      assert (h - 1) * pitch + pitch == h * pitch;
      MulMonotone(0, h - 1, pitch);
    }
  }

  /** Every tile of the walk lies in the rectangle and is a real tile of the map. */
  lemma {:induction false} RowMajorCovered(g: Grid, origin: TileIndex, w: nat, h: nat)
    requires RectInsideMap(g, origin, w, h)
    ensures forall k :: 0 <= k < |RowMajor(origin, w, h, g.sizeX)| ==>
      0 <= RowMajor(origin, w, h, g.sizeX)[k] < INVALID_TILE &&
      InRect(g, origin, w, h, RowMajor(origin, w, h, g.sizeX)[k])
  {
    if h > 0 && w > 0 {
      RowMajorCovered(g, origin, w, h - 1);
      var W := g.sizeX;
      var x0, y0 := TileX(g, origin), TileY(g, origin);
      var front, last := RowMajor(origin, w, h - 1, W), Row(origin + (h - 1) * W, w);
      assert RowMajor(origin, w, h, W) == front + last;
      TileSplit(g, origin);
      forall i | 0 <= i < w
        ensures 0 <= last[i] < INVALID_TILE && InRect(g, origin, w, h, last[i])
      {
        InsideMapIndex(g, x0 + i, y0 + h - 1);
        assert last[i] == origin + (h - 1) * W + i;
        assert (y0 + h - 1) * W == y0 * W + (h - 1) * W;
        assert last[i] == (y0 + h - 1) * W + (x0 + i);
        TileXYInverse(g, x0 + i, y0 + h - 1);
      }
    } else if h > 0 {
      RowMajorLength(origin, w, h, g.sizeX);
    }
  }

  /**
   * Row-major order in map coordinates: for a rectangle inside the map the
   * (j * w + i)-th tile of the walk is the tile at (x0 + i, y0 + j).
   */
  lemma RowMajorOrder(g: Grid, origin: TileIndex, w: nat, h: nat, i: nat, j: nat)
    requires RectInsideMap(g, origin, w, h) && i < w && j < h
    ensures j * w + i < |RowMajor(origin, w, h, g.sizeX)| == w * h
    ensures RowMajor(origin, w, h, g.sizeX)[j * w + i] ==
      TileXY(g, TileX(g, origin) + i, TileY(g, origin) + j)
  {
    var W := g.sizeX;
    var x0, y0 := TileX(g, origin), TileY(g, origin);
    RowMajorAt(origin, w, h, W, i, j);
    TileSplit(g, origin);
    InsideMapIndex(g, x0 + i, y0 + j);
    var n := (y0 + j) * W + (x0 + i);
    assert (y0 + j) * W == y0 * W + j * W;
    assert origin + i + j * W == n;
    assert TileXY(g, x0 + i, y0 + j) == Wrap32(n) == n;
  }

  /** Every tile of the rectangle is visited by the walk. */
  lemma RectTileVisited(g: Grid, origin: TileIndex, w: nat, h: nat, t: TileIndex)
    requires RectInsideMap(g, origin, w, h) && InRect(g, origin, w, h, t)
    ensures t in RowMajor(origin, w, h, g.sizeX)
  {
    var W := g.sizeX;
    var x0, y0 := TileX(g, origin), TileY(g, origin);
    var i, j := TileX(g, t) - x0, TileY(g, t) - y0;
    TileSplit(g, origin);
    TileSplit(g, t);
    assert (y0 + j) * W == y0 * W + j * W;
    assert t == origin + i + j * W;
    RowMajorAt(origin, w, h, W, i, j);
    assert RowMajor(origin, w, h, W)[j * w + i] == t;
  }

  /** The walk visits exactly the tiles of the rectangle: completeness in both directions. */
  lemma RowMajorComplete(g: Grid, origin: TileIndex, w: nat, h: nat, t: TileIndex)
    requires RectInsideMap(g, origin, w, h)
    ensures t in RowMajor(origin, w, h, g.sizeX) <==> InRect(g, origin, w, h, t)
  {
    var s := RowMajor(origin, w, h, g.sizeX);
    if t in s {
      var k :| 0 <= k < |s| && s[k] == t;
      RowMajorCovered(g, origin, w, h);
      assert InRect(g, origin, w, h, s[k]);
    }
    if InRect(g, origin, w, h, t) {
      RectTileVisited(g, origin, w, h, t);
    }
  }

  /** No tile is visited twice. */
  lemma RowMajorUnique(g: Grid, origin: TileIndex, w: nat, h: nat)
    requires RectInsideMap(g, origin, w, h)
    ensures forall a, b :: 0 <= a < b < |RowMajor(origin, w, h, g.sizeX)| ==>
      RowMajor(origin, w, h, g.sizeX)[a] != RowMajor(origin, w, h, g.sizeX)[b]
  {
    if w > 0 && h > 0 {
      RowMajorIncreasing(origin, w, h, g.sizeX);
    } else {
      RowMajorLength(origin, w, h, g.sizeX);
    }
  }

  /**
   * The position of an orthogonal walk after k steps over cells: the current
   * tile is the k-th cell, x tiles are left in the current row and y rows
   * are left; past the last cell the tile is INVALID_TILE.
   */
  ghost predicate WalkAt(cells: seq<int>, w: nat, h: nat, k: nat, x: nat, y: nat, tile: int)
  {
    k <= |cells| &&
    (tile == INVALID_TILE <==> k == |cells|) &&
    (k < |cells| ==> tile == cells[k] && 1 <= x <= w && 1 <= y <= h && k == (h - y) * w + (w - x))
  }

  /** The cells of a walk are real tiles, below INVALID_TILE. */
  ghost predicate RealTiles(cells: seq<int>)
  {
    forall k :: 0 <= k < |cells| ==> 0 <= cells[k] < INVALID_TILE
  }

  /** Within a row, one step moves to the next index. */
  lemma WalkStepInRow(origin: int, w: nat, h: nat, pitch: nat, k: nat, x: nat, y: nat, tile: int)
    requires RealTiles(RowMajor(origin, w, h, pitch))
    requires WalkAt(RowMajor(origin, w, h, pitch), w, h, k, x, y, tile)
    requires k < |RowMajor(origin, w, h, pitch)| && x > 1
    ensures WalkAt(RowMajor(origin, w, h, pitch), w, h, k + 1, x - 1, y, tile + 1)
  {
    RowMajorAt(origin, w, h, pitch, w - x, h - y);
    RowMajorAt(origin, w, h, pitch, w - x + 1, h - y);
  }

  /** At the end of a row that is not the last, one step adds pitch + 1 - w. */
  lemma WalkStepToNextRow(origin: int, w: nat, h: nat, pitch: nat, k: nat, x: nat, y: nat, tile: int)
    requires RealTiles(RowMajor(origin, w, h, pitch))
    requires WalkAt(RowMajor(origin, w, h, pitch), w, h, k, x, y, tile)
    requires k < |RowMajor(origin, w, h, pitch)| && x == 1 && y > 1
    ensures WalkAt(RowMajor(origin, w, h, pitch), w, h, k + 1, w, y - 1, tile + pitch + 1 - w)
  {
    RowMajorAt(origin, w, h, pitch, w - 1, h - y);
    RowMajorAt(origin, w, h, pitch, 0, h - y + 1);
    assert (h - y + 1) * w == (h - y) * w + w;
    assert (h - y + 1) * pitch == (h - y) * pitch + pitch;
  }

  /** After the last tile of the last row, the walk is over. */
  lemma WalkStepPastEnd(origin: int, w: nat, h: nat, pitch: nat, k: nat, x: nat, y: nat, tile: int)
    requires WalkAt(RowMajor(origin, w, h, pitch), w, h, k, x, y, tile)
    requires k < |RowMajor(origin, w, h, pitch)| && x == 1 && y == 1
    ensures WalkAt(RowMajor(origin, w, h, pitch), w, h, k + 1, 0, 0, INVALID_TILE)
  {
    RowMajorLength(origin, w, h, pitch);
    assert (h - 1) * w + w == w * h;
  }

  // ---------------------------------------------------------------------
  // TileArea
  // ---------------------------------------------------------------------

  /** The covered area of e.g. a rail station: a base tile and a width and height. */
  class TileArea {
    var tile: TileIndex
    var w: u16
    var h: u16

    /** The three-argument constructor stores its arguments as given; its
        width and height parameters are 8-bit. */
    constructor (tile: TileIndex, w: u8, h: u8)
      ensures this.tile == tile && this.w == w && this.h == h
    {
      this.tile := tile;
      this.w := w;
      this.h := h;
    }

    /** Make the area the canonical empty area. */
    method Clear()
      modifies this
      ensures tile == INVALID_TILE && w == 0 && h == 0
    {
      tile := INVALID_TILE;
      w := 0;
      h := 0;
    }

    ghost predicate InsideMap(g: Grid)
      reads this
    {
      RectInsideMap(g, tile, w, h)
    }

    ghost predicate Covers(g: Grid, t: TileIndex)
      reads this
      requires 1 <= g.sizeX
    {
      InRect(g, tile, w, h, t)
    }

    /** The tiles of the area in the order TILE_AREA_LOOP visits them. */
    ghost function Tiles(g: Grid): seq<int>
      reads this
    {
      RowMajor(tile, w, h, g.sizeX)
    }

    /** The tile at the centre, or half a tile towards larger x and y (to the
        south) of it when an extent is even. */
    function GetCenterTile(g: Grid): (r: TileIndex)
      reads this
      ensures w < 2 && h < 2 ==> r == tile
    {
      TileAddXY(g, tile, w / 2, h / 2)
    }

    /** ClampU's assertion (lower bound at most upper bound, in unsigned
        arithmetic) holds for both axes, or the area has no tile. */
    ghost predicate ClosestTileDefined(g: Grid)
      reads this
      requires 1 <= g.sizeX
    {
      tile == INVALID_TILE ||
      (TileX(g, tile) <= Wrap32(TileX(g, tile) + w - 1) &&
       TileY(g, tile) <= Wrap32(TileY(g, tile) + h - 1))
    }

    /** The tile in the area closest to t, clamping each axis on its own;
        INVALID_TILE for an area without a base tile. */
    function GetClosestTile(g: Grid, t: TileIndex): (r: TileIndex)
      reads this
      requires 1 <= g.sizeX && ClosestTileDefined(g)
      ensures tile == INVALID_TILE ==> r == INVALID_TILE
    {
      if tile == INVALID_TILE then INVALID_TILE
      else
        var x := ClampU(TileX(g, t), TileX(g, tile), Wrap32(TileX(g, tile) + w - 1));
        var y := ClampU(TileY(g, t), TileY(g, tile), Wrap32(TileY(g, tile) + h - 1));
        TileXY(g, x, y)
    }
  }

  /** The cleared area has no tiles: both queries answer INVALID_TILE and no tile is covered. */
  lemma ClearedAreaIsEmpty(g: Grid, ta: TileArea, t: TileIndex)
    requires 1 <= g.sizeX && ta.tile == INVALID_TILE && ta.w == 0 && ta.h == 0
    ensures ta.GetCenterTile(g) == INVALID_TILE
    ensures ta.ClosestTileDefined(g) && ta.GetClosestTile(g, t) == INVALID_TILE
    ensures ta.Tiles(g) == [] && !ta.Covers(g, t)
  {
  }

  /** A non-empty area inside the map has a real base tile, and its closest-tile query is defined. */
  lemma NonEmptyAreaBase(g: Grid, ta: TileArea)
    requires ta.InsideMap(g) && 1 <= ta.w && 1 <= ta.h
    ensures ta.tile < INVALID_TILE && ta.ClosestTileDefined(g)
  {
    TileSplit(g, ta.tile);
    InsideMapIndex(g, TileX(g, ta.tile), TileY(g, ta.tile));
  }

  /**
   * The centre tile is the tile (x0 + w/2, y0 + h/2) with floor division: it
   * lies in the area, at the exact centre for odd extents and half a tile
   * towards larger x and y (to the south) for even ones.
   */
  lemma CenterTileIsCentral(g: Grid, ta: TileArea)
    requires ta.InsideMap(g) && 1 <= ta.w && 1 <= ta.h
    ensures ta.GetCenterTile(g) == TileXY(g, TileX(g, ta.tile) + ta.w / 2, TileY(g, ta.tile) + ta.h / 2)
    ensures ta.Covers(g, ta.GetCenterTile(g))
    ensures ta.w - 1 <= 2 * (TileX(g, ta.GetCenterTile(g)) - TileX(g, ta.tile)) <= ta.w
    ensures ta.h - 1 <= 2 * (TileY(g, ta.GetCenterTile(g)) - TileY(g, ta.tile)) <= ta.h
  {
    var x0, y0 := TileX(g, ta.tile), TileY(g, ta.tile);
    var cx, cy := x0 + ta.w / 2, y0 + ta.h / 2;
    TileSplit(g, ta.tile);
    InsideMapIndex(g, cx, cy);
    assert ta.tile + TileDiffXY(g, ta.w / 2, ta.h / 2) == cy * g.sizeX + cx;
    TileXYInverse(g, cx, cy);
  }

  /** For a non-empty area inside the map, the closest tile lies in the area. */
  lemma ClosestTileInArea(g: Grid, ta: TileArea, t: TileIndex)
    requires ta.InsideMap(g) && 1 <= ta.w && 1 <= ta.h
    ensures ta.ClosestTileDefined(g) && ta.Covers(g, ta.GetClosestTile(g, t))
    ensures TileX(g, ta.tile) <= TileX(g, ta.GetClosestTile(g, t)) <= TileX(g, ta.tile) + ta.w - 1
    ensures TileY(g, ta.tile) <= TileY(g, ta.GetClosestTile(g, t)) <= TileY(g, ta.tile) + ta.h - 1
  {
    NonEmptyAreaBase(g, ta);
    var x0, y0 := TileX(g, ta.tile), TileY(g, ta.tile);
    var x := ClampU(TileX(g, t), x0, x0 + ta.w - 1);
    var y := ClampU(TileY(g, t), y0, y0 + ta.h - 1);
    InsideMapIndex(g, x, y);
    TileXYInverse(g, x, y);
  }

  /** A tile already in the area is its own closest tile. */
  lemma ClosestTileFixesCovered(g: Grid, ta: TileArea, t: TileIndex)
    requires ta.InsideMap(g) && 1 <= ta.w && 1 <= ta.h && ta.Covers(g, t)
    ensures ta.ClosestTileDefined(g) && ta.GetClosestTile(g, t) == t
  {
    NonEmptyAreaBase(g, ta);
    TileSplit(g, t);
  }

  /** The closest-tile query is idempotent. */
  lemma ClosestTileIdempotent(g: Grid, ta: TileArea, t: TileIndex)
    requires ta.InsideMap(g) && 1 <= ta.w && 1 <= ta.h
    ensures ta.ClosestTileDefined(g)
    ensures ta.GetClosestTile(g, ta.GetClosestTile(g, t)) == ta.GetClosestTile(g, t)
  {
    ClosestTileInArea(g, ta, t);
    ClosestTileFixesCovered(g, ta, ta.GetClosestTile(g, t));
  }

  function Dist(a: int, b: int): nat
  {
    if a < b then b - a else a - b
  }

  /** Per axis, no tile of the area is nearer to t than the closest tile. */
  lemma ClosestTileNearest(g: Grid, ta: TileArea, t: TileIndex, c: TileIndex)
    requires ta.InsideMap(g) && 1 <= ta.w && 1 <= ta.h && ta.Covers(g, c)
    ensures ta.ClosestTileDefined(g)
    ensures Dist(TileX(g, t), TileX(g, ta.GetClosestTile(g, t))) <= Dist(TileX(g, t), TileX(g, c))
    ensures Dist(TileY(g, t), TileY(g, ta.GetClosestTile(g, t))) <= Dist(TileY(g, t), TileY(g, c))
  {
    NonEmptyAreaBase(g, ta);
    var x0, y0 := TileX(g, ta.tile), TileY(g, ta.tile);
    var x := ClampU(TileX(g, t), x0, x0 + ta.w - 1);
    var y := ClampU(TileY(g, t), y0, y0 + ta.h - 1);
    InsideMapIndex(g, x, y);
    TileXYInverse(g, x, y);
  }

  // ---------------------------------------------------------------------
  // OrthogonalTileIterator and TILE_AREA_LOOP
  // ---------------------------------------------------------------------

  /**
   * Iterator over a tile area in row-major order.  x counts the tiles left
   * in the current row (this one included), y the rows left; rowdiff is the
   * index step from the last tile of a row to the first of the next.
   */
  class OrthogonalTileIterator {
    var tile: TileIndex
    const w: nat
    const rowdiff: TileIndex
    var x: nat
    var y: nat

    // The abstract view: the whole walk, and the tiles already stepped past.
    ghost const origin: TileIndex
    ghost const h: nat
    ghost const pitch: nat
    ghost const Cells: seq<int>
    ghost var Yielded: seq<int>

    ghost predicate Valid()
      reads this
    {
      Cells == RowMajor(origin, w, h, pitch) && RealTiles(Cells) &&
      w < TILE_MOD && pitch < TILE_MOD && rowdiff == Wrap32(pitch + 1 - w) &&
      |Yielded| <= |Cells| && Yielded == Cells[..|Yielded|] &&
      WalkAt(Cells, w, h, |Yielded|, x, y, tile)
    }

    /**
     * Start at the area's base tile, or at INVALID_TILE for an empty area.
     * The area need not be clamped to the map: a row that runs past the
     * east edge continues on the next map row, as the index arithmetic
     * does, as long as every index of the walk is a real tile.
     */
    constructor (g: Grid, ta: TileArea)
      requires g.Valid() && RealTiles(ta.Tiles(g))
      ensures tile == (if ta.w == 0 || ta.h == 0 then INVALID_TILE else ta.tile)
      ensures w == ta.w && x == ta.w && y == ta.h
      ensures rowdiff == Wrap32(TileDiffXY(g, 1, 1) - ta.w)
      ensures Valid() && Cells == ta.Tiles(g) && Yielded == []
    {
      tile := if ta.w == 0 || ta.h == 0 then INVALID_TILE else ta.tile;
      w := ta.w;
      rowdiff := Wrap32(TileDiffXY(g, 1, 1) - ta.w);
      x := ta.w;
      y := ta.h;
      origin, h, pitch := ta.tile, ta.h, g.sizeX;
      Cells := RowMajor(ta.tile, ta.w, ta.h, g.sizeX);
      Yielded := [];
      RowMajorLength(ta.tile, ta.w, ta.h, g.sizeX);
      MulMonotone(1, g.sizeY, g.sizeX);
      if ta.w != 0 && ta.h != 0 {
        RowMajorAt(ta.tile, ta.w, ta.h, g.sizeX, 0, 0);
      }
    }

    /** A copy of another iterator, sharing nothing with it. */
    constructor Copy(src: OrthogonalTileIterator)
      requires src.Valid()
      ensures tile == src.tile && w == src.w && rowdiff == src.rowdiff && x == src.x && y == src.y
      ensures Cells == src.Cells && Yielded == src.Yielded && Valid()
    {
      tile, w, rowdiff, x, y := src.tile, src.w, src.rowdiff, src.x, src.y;
      origin, h, pitch, Cells, Yielded := src.origin, src.h, src.pitch, src.Cells, src.Yielded;
    }

    /** Step to the next tile of the rectangle, or to INVALID_TILE after the last one. */
    method Next()
      requires Valid() && tile != INVALID_TILE
      modifies this
      ensures Valid() && Yielded == old(Yielded) + [old(tile)]
      ensures old(x) > 1 ==> x == old(x) - 1 && y == old(y) && tile == old(tile) + 1
      ensures old(x) == 1 && old(y) > 1 ==>
        x == w && y == old(y) - 1 && tile == Wrap32(old(tile) + rowdiff)
      ensures old(x) == 1 && old(y) == 1 ==> x == 0 && y == 0 && tile == INVALID_TILE
      ensures tile == (if |Yielded| < |Cells| then Cells[|Yielded|] else INVALID_TILE)
    {
      ghost var k := |Yielded|;
      if x > 1 {
        WalkStepInRow(origin, w, h, pitch, k, x, y, tile);
      } else if y > 1 {
        WalkStepToNextRow(origin, w, h, pitch, k, x, y, tile);
        AddWrapped(tile, pitch + 1 - w);
      } else {
        WalkStepPastEnd(origin, w, h, pitch, k, x, y, tile);
      }
      Yielded := Yielded + [tile];
      assert Yielded == Cells[..k + 1];
      x := x - 1;
      if x > 0 {
        tile := Wrap32(tile + 1);
      } else {
        y := y - 1;
        if y > 0 {
          x := w;
          tile := Wrap32(tile + rowdiff);
        } else {
          tile := INVALID_TILE;
        }
      }
    }

    /** operator++: advancing an exhausted iterator violates the precondition. */
    method Increment()
      requires Valid() && tile != INVALID_TILE
      modifies this
      ensures Valid() && Yielded == old(Yielded) + [old(tile)]
      ensures tile == (if |Yielded| < |Cells| then Cells[|Yielded|] else INVALID_TILE)
      ensures old(x) == 1 && old(y) == 1 ==> x == 0 && y == 0
    {
      Next();
    }

    /** A new iterator at the same position with the same counters. */
    method Clone() returns (c: OrthogonalTileIterator)
      requires Valid()
      ensures fresh(c) && c.Valid()
      ensures c.tile == tile && c.w == w && c.rowdiff == rowdiff && c.x == x && c.y == y
      ensures c.Cells == Cells && c.Yielded == Yielded
    {
      c := new OrthogonalTileIterator.Copy(this);
    }
  }

  /**
   * TILE_AREA_LOOP: the tiles the loop body sees, in order: the area's walk
   * in row-major order.  For an area inside the map these are exactly the
   * area's tiles (TileAreaLoopVisitsArea).
   */
  method TileAreaLoop(g: Grid, ta: TileArea) returns (visited: seq<TileIndex>)
    requires g.Valid() && RealTiles(ta.Tiles(g))
    ensures visited == ta.Tiles(g)
  {
    var it := new OrthogonalTileIterator(g, ta);
    visited := [];
    while it.tile != INVALID_TILE
      invariant it.Valid() && it.Cells == ta.Tiles(g) && visited == it.Yielded
      decreases |it.Cells| - |it.Yielded|
    {
      visited := visited + [it.tile];
      it.Increment();
    }
  }

  /** The loop visits w * h tiles, each once, and exactly those of the area. */
  lemma TileAreaLoopVisitsArea(g: Grid, ta: TileArea, visited: seq<TileIndex>, t: TileIndex)
    requires ta.InsideMap(g) && visited == ta.Tiles(g)
    ensures |visited| == ta.w * ta.h
    ensures forall a, b :: 0 <= a < b < |visited| ==> visited[a] != visited[b]
    ensures t in visited <==> ta.Covers(g, t)
  {
    RowMajorLength(ta.tile, ta.w, ta.h, g.sizeX);
    RowMajorUnique(g, ta.tile, ta.w, ta.h);
    RowMajorComplete(g, ta.tile, ta.w, ta.h, t);
  }
}
