/**
 * Grid addressing: a map of MapSizeX by MapSizeY tiles whose tiles are
 * addressed by one linear index in row-major order.  The header that
 * implements it (map/coord.h) is not part of this model; the helpers below
 * give TileX, TileY, TileXY, TileDiffXY, TILE_ADDXY, INVALID_TILE and ClampU
 * the meaning the tile-area code relies on, and the lemmas state the
 * properties of that encoding that the rest of the model uses.
 */
module Coord {

  /** A TileIndex is an unsigned 32-bit value; arithmetic on it wraps. */
  const TILE_MOD: int := 0x1_0000_0000
  type TileIndex = t: int | 0 <= t < 0x1_0000_0000

  /** The reserved "no tile" value, (TileIndex)-1. */
  const INVALID_TILE: TileIndex := 0xFFFF_FFFF

  type u8 = v: int | 0 <= v < 0x100
  type u16 = v: int | 0 <= v < 0x1_0000

  /**
   * The map's dimensions, which the source reads from globals (MapSizeX,
   * MapSizeY).  In a valid map every tile index is below INVALID_TILE.
   */
  datatype Grid = Grid(sizeX: nat, sizeY: nat) {
    predicate Valid() {
      1 <= sizeX && 1 <= sizeY && sizeX * sizeY <= INVALID_TILE
    }
  }

  /** Truncation of an integer to 32 unsigned bits. */
  function Wrap32(v: int): (r: TileIndex)
    ensures 0 <= v < TILE_MOD ==> r == v
    ensures -TILE_MOD <= v < 0 ==> r == v + TILE_MOD
  {
    v % TILE_MOD
  }

  /** The x coordinate of a tile (its column).  The source masks with MapMaxX;
      for the power-of-two map sides it supports that is this remainder. */
  function TileX(g: Grid, t: TileIndex): (x: nat)
    requires 1 <= g.sizeX
    ensures x < g.sizeX
  {
    t % g.sizeX
  }

  /** The y coordinate of a tile (its row): the index shifted right by log2(MapSizeX). */
  function TileY(g: Grid, t: TileIndex): nat
    requires 1 <= g.sizeX
  {
    t / g.sizeX
  }

  /** The tile at column x of row y. */
  function TileXY(g: Grid, x: nat, y: nat): TileIndex
  {
    Wrap32(y * g.sizeX + x)
  }

  /** The signed index difference of moving x columns and y rows. */
  function TileDiffXY(g: Grid, x: int, y: int): int
  {
    y * g.sizeX + x
  }

  /** TILE_ADDXY: the tile x columns and y rows away, in wrapping uint32 arithmetic. */
  function TileAddXY(g: Grid, t: TileIndex, x: int, y: int): TileIndex
  {
    Wrap32(t + TileDiffXY(g, x, y))
  }

  /** ClampU: clamp a into [lo, hi]; the source asserts lo <= hi. */
  function ClampU(a: int, lo: int, hi: int): (r: int)
    requires lo <= hi
    ensures lo <= r <= hi
    ensures lo <= a <= hi ==> r == a
    ensures a < lo ==> r == lo
    ensures hi < a ==> r == hi
  {
    if a < lo then lo else if a > hi then hi else a
  }

  /** The quotient and remainder of n by d are the unique q, r with n == q * d + r, 0 <= r < d. */
  lemma DivModUnique(n: int, d: int, q: int, r: int)
    requires 0 < d && 0 <= r < d && n == q * d + r
    ensures n / d == q && n % d == r
  {
    var q', r' := n / d, n % d;
    assert n == q' * d + r';
    assert (q - q') * d == r' - r;
    if q > q' {
      MulAtLeast(q - q', d);
    } else if q < q' {
      MulAtLeast(q' - q, d);
    }
  }

  lemma MulAtLeast(a: int, d: int)
    requires 1 <= a && 0 < d
    ensures a * d >= d
  {
    assert a * d == (a - 1) * d + d;
  }

  /** a <= b scales by any non-negative c. */
  lemma MulMonotone(a: int, b: int, c: int)
    requires a <= b && 0 <= c
    ensures a * c <= b * c
  {
    assert b * c - a * c == (b - a) * c;
  }

  /** A tile is its own row times the pitch plus its own column. */
  lemma TileSplit(g: Grid, t: TileIndex)
    requires 1 <= g.sizeX
    ensures t == TileY(g, t) * g.sizeX + TileX(g, t)
    ensures TileXY(g, TileX(g, t), TileY(g, t)) == t
  {
  }

  /** Composing then decomposing a position inside the map's width gives it back. */
  lemma TileXYInverse(g: Grid, x: nat, y: nat)
    requires 1 <= g.sizeX && x < g.sizeX && y * g.sizeX + x < TILE_MOD
    ensures TileXY(g, x, y) == y * g.sizeX + x
    ensures TileX(g, TileXY(g, x, y)) == x && TileY(g, TileXY(g, x, y)) == y
  {
    DivModUnique(y * g.sizeX + x, g.sizeX, y, x);
  }

  /** Every position inside a valid map has an index below INVALID_TILE. */
  lemma InsideMapIndex(g: Grid, x: nat, y: nat)
    requires g.Valid() && x < g.sizeX && y < g.sizeY
    ensures y * g.sizeX + x < g.sizeX * g.sizeY <= INVALID_TILE
  {
    MulMonotone(y, g.sizeY - 1, g.sizeX);
    assert (g.sizeY - 1) * g.sizeX == g.sizeX * g.sizeY - g.sizeX;
  }

  /** Adding a wrapped difference is plain addition as long as the sum stays in range. */
  lemma AddWrapped(t: TileIndex, d: int)
    requires -TILE_MOD < d < TILE_MOD && 0 <= t + d < TILE_MOD
    ensures Wrap32(t + Wrap32(d)) == t + d
  {
  }
}
