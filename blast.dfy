/**
 * The Cherry Bomb's blast rectangle (src/Plant.cpp:140-151): three tiles
 * square around the bomb's cell, with its origin clamped to the grid's
 * top-left corner and its extent clamped to the grid's far edges.
 *
 * The two clamps are not symmetric. At the far edge the rectangle is
 * trimmed; at column 0 (row 0) the origin is moved to the grid edge while
 * the width (height) stays three tiles, so the blast then reaches the third
 * column (row) of the grid.
 */
module CherryBlast {
  import opened Geometry

  const ExplosionDamage: int := 9999

  /** Seconds from planting to detonation. */
  const FuseDuration: real := 1.5

  /**
   * One axis of the blast: the start and length of three tiles centred on
   * tile `index` of a line of `count` tiles beginning at `start`, with the
   * start clamped to `start` and the length clamped to the line's end.
   */
  function Span(start: int, tile: int, count: int, index: int): (int, int) {
    var lo := Max(start, start + (index - 1) * tile);
    (lo, Min(count * tile - (lo - start), 3 * tile))
  }

  function BlastArea(g: Grid, row: int, col: int): (area: Rect)
    ensures area.x >= g.startX as real && area.y >= g.startY as real
    ensures area.width <= (3 * g.tileSize) as real && area.height <= (3 * g.tileSize) as real
    ensures area.x + area.width <= (g.startX + g.cols * g.tileSize) as real
    ensures area.y + area.height <= (g.startY + g.rows * g.tileSize) as real
  {
    var (x, width) := Span(g.startX, g.tileSize, g.cols, col);
    var (y, height) := Span(g.startY, g.tileSize, g.rows, row);
    Rect(x as real, y as real, width as real, height as real)
  }

  lemma MulMonotone(a: int, b: int, t: int)
    requires a <= b && t >= 0
    ensures a * t <= b * t
  {
    assert b * t - a * t == (b - a) * t;
  }

  lemma MulShift(a: int, t: int)
    ensures (a - 1) * t == a * t - t && (a + 1) * t == a * t + t
  {
  }

  /** On one axis, a tile on the line keeps a non-empty span inside the line. */
  lemma SpanInsideLine(start: int, tile: int, count: int, index: int)
    requires tile > 0 && 0 <= index < count
    ensures var (lo, len) := Span(start, tile, count, index);
      start <= lo && 0 < len && lo + len <= start + count * tile
  {
    MulMonotone(index - 1, count - 2, tile);
    MulShift(count - 1, tile);
    MulShift(count, tile);
  }

  /** On one axis, the span covers tile `j` whenever `j` is next to `index`. */
  lemma SpanCoversNeighbour(start: int, tile: int, count: int, index: int, j: int)
    requires tile > 0 && 0 <= index < count && 0 <= j < count && index - 1 <= j <= index + 1
    ensures var (lo, len) := Span(start, tile, count, index);
      lo <= start + j * tile && start + j * tile + tile <= lo + len
  {
    MulMonotone(index - 1, j, tile);
    MulMonotone(0, j, tile);
    MulShift(j, tile);
    MulMonotone(j + 1, count, tile);
    MulMonotone(j + 1, index + 2, tile);
    MulShift(index + 1, tile);
    MulShift(index + 2, tile);
  }

  /**
   * On one axis, away from the line's start, the span leaves out every tile
   * two or more places from `index`.
   */
  lemma SpanExcludesFar(start: int, tile: int, count: int, index: int, j: int)
    requires tile > 0 && 1 <= index < count && (j <= index - 2 || j >= index + 2)
    ensures var (lo, len) := Span(start, tile, count, index);
      start + j * tile + tile <= lo || lo + len <= start + j * tile
  {
    MulMonotone(0, index - 1, tile);
    if j <= index - 2 {
      MulMonotone(j + 1, index - 1, tile);
      MulShift(j + 1, tile);
    } else {
      MulMonotone(index + 2, j, tile);
      MulShift(index + 2, tile);
      MulShift(index + 1, tile);
    }
  }

  /**
   * For a bomb on the grid, the blast is a non-empty rectangle that lies
   * inside the grid.
   */
  lemma BlastInsideGrid(g: Grid, row: int, col: int)
    requires g.Valid() && g.HasCell(row, col)
    ensures Contains(g.Bounds(), BlastArea(g, row, col))
    ensures BlastArea(g, row, col).width > 0.0 && BlastArea(g, row, col).height > 0.0
  {
    SpanInsideLine(g.startX, g.tileSize, g.cols, col);
    SpanInsideLine(g.startY, g.tileSize, g.rows, row);
  }

  /**
   * The blast covers the bomb's own cell and every grid cell next to it,
   * diagonals included.
   */
  lemma BlastCoversNeighbours(g: Grid, row: int, col: int, r: int, c: int)
    requires g.Valid() && g.HasCell(row, col) && g.HasCell(r, c)
    requires row - 1 <= r <= row + 1 && col - 1 <= c <= col + 1
    ensures Contains(BlastArea(g, row, col), g.CellRect(r, c))
  {
    SpanCoversNeighbour(g.startX, g.tileSize, g.cols, col, c);
    SpanCoversNeighbour(g.startY, g.tileSize, g.rows, row, r);
  }

  /**
   * A bomb in column 0 of a grid at least three columns wide: the blast
   * starts at the grid's left edge and is still three tiles wide, so it
   * also covers column 2, two cells away from the bomb.
   */
  lemma BlastAtLeftEdgeShifted(g: Grid, row: int, r: int)
    requires g.Valid() && g.cols >= 3 && g.HasCell(r, 2)
    ensures BlastArea(g, row, 0).x == g.startX as real
    ensures BlastArea(g, row, 0).width == (3 * g.tileSize) as real
    ensures BlastArea(g, row, 0).x + BlastArea(g, row, 0).width >= (g.CellRect(r, 2).x + g.CellRect(r, 2).width)
  {
    MulMonotone(3, g.cols, g.tileSize);
  }

  /**
   * Along an axis where the bomb is not in the first column (row), the blast
   * leaves alone every cell two or more columns (rows) away: such a cell's
   * rectangle and the blast meet at most along an edge.
   */
  lemma BlastSparesFarCells(g: Grid, row: int, col: int, r: int, c: int)
    requires g.Valid() && g.HasCell(row, col)
    requires (col >= 1 && (c <= col - 2 || c >= col + 2)) || (row >= 1 && (r <= row - 2 || r >= row + 2))
    ensures var area, cell := BlastArea(g, row, col), g.CellRect(r, c);
      cell.x + cell.width <= area.x || area.x + area.width <= cell.x ||
      cell.y + cell.height <= area.y || area.y + area.height <= cell.y
  {
    if col >= 1 && (c <= col - 2 || c >= col + 2) {
      SpanExcludesFar(g.startX, g.tileSize, g.cols, col, c);
    } else {
      SpanExcludesFar(g.startY, g.tileSize, g.rows, row, r);
    }
  }
}
