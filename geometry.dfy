/** Cell geometry of the window: mapping a mouse position to the cell
    under it, and the adjacency test used to validate a swap. */
module Geometry {
  import opened Model

  /** Side of a tile, in pixels. */
  const TILE: int := 80
  /** Gap around and between tiles, in pixels. */
  const MARGIN: int := 8

  /** Pixel offset of the left (or top) edge of tile column (or row) i. */
  function TileEdge(i: int): int {
    MARGIN + i * (TILE + MARGIN)
  }

  /** The pixel (mx, my) lies inside the drawn square of cell p: the
      half-open rectangle that `tile_rect` returns and `collidepoint` tests. */
  predicate InTile(p: Pos, mx: int, my: int) {
    TileEdge(p.c) <= mx < TileEdge(p.c) + TILE &&
    TileEdge(p.r) <= my < TileEdge(p.r) + TILE
  }

  /** The cell under a mouse position, or None when the point falls in a
      margin or outside the board. */
  function PixelToCell(mx: int, my: int): (cell: Option<Pos>)
    ensures cell.Some? ==> InGrid(cell.value) && InTile(cell.value, mx, my)
    ensures forall p :: InGrid(p) && InTile(p, mx, my) ==> cell == Some(p)
  {
    // the stride of the grid: one tile and one margin
    assert TILE + MARGIN == 88;
    if mx < MARGIN || my < MARGIN then None
    else
      var c := (mx - MARGIN) / (TILE + MARGIN);
      var r := (my - MARGIN) / (TILE + MARGIN);
      if 0 <= r < GRID && 0 <= c < GRID
         && (mx - MARGIN) % (TILE + MARGIN) < TILE
         && (my - MARGIN) % (TILE + MARGIN) < TILE
      then Some(Pos(r, c))
      else None
  }

  function Abs(x: int): int {
    if x < 0 then -x else x
  }

  /** Cells are adjacent when their Manhattan distance is 1. */
  function Adjacent(a: Pos, b: Pos): (adj: bool)
    ensures adj <==>
      || (a.r == b.r && (a.c == b.c + 1 || b.c == a.c + 1))
      || (a.c == b.c && (a.r == b.r + 1 || b.r == a.r + 1))
  {
    Abs(a.r - b.r) + Abs(a.c - b.c) == 1
  }

  /** Adjacency is symmetric, and no cell is adjacent to itself. */
  lemma AdjacentSymmetric(a: Pos, b: Pos)
    ensures Adjacent(a, b) == Adjacent(b, a)
    ensures !Adjacent(a, a)
  {
  }
}
