/**
 * The primitive values the game entities are built from: the host library's
 * rectangles, vectors, colours, texture and sound handles, and the grid
 * geometry shared by the planting grid and pixel space.
 *
 * Floating-point positions and times are modelled as `real`; rounding is
 * not part of the model.
 */
module Geometry {

  /** An axis-aligned rectangle: top-left corner, width and height. */
  datatype Rect = Rect(x: real, y: real, width: real, height: real)

  /** A 2-D vector, used for velocities in pixels per second. */
  datatype Vec2 = Vec2(x: real, y: real)

  /** The named colours the core assigns. */
  datatype Color = Green | Yellow | Red | Brown | Blue | Lime

  /** A texture handle; an id of 0 means no texture was loaded. */
  datatype Texture = Texture(id: int, width: int, height: int)

  /** A sound handle, only ever passed to the host's playback call. */
  datatype Sound = Sound(id: int)

  /** True when `inner` lies entirely inside `outer`. */
  predicate Contains(outer: Rect, inner: Rect) {
    outer.x <= inner.x && inner.x + inner.width <= outer.x + outer.width &&
    outer.y <= inner.y && inner.y + inner.height <= outer.y + outer.height
  }

  /**
   * The planting grid: pixel origin of cell (0, 0), the side of a square
   * tile, and the number of rows and columns. The program defines these as
   * global integer constants elsewhere; here they are a parameter.
   */
  datatype Grid = Grid(startX: int, startY: int, tileSize: int, rows: int, cols: int) {
    predicate Valid() {
      tileSize > 0 && rows > 0 && cols > 0
    }

    predicate HasCell(row: int, col: int) {
      0 <= row < rows && 0 <= col < cols
    }

    /** The pixel rectangle of the whole grid. */
    function Bounds(): Rect {
      Rect(startX as real, startY as real, (cols * tileSize) as real, (rows * tileSize) as real)
    }

    /** The pixel rectangle of cell (row, col). */
    function CellRect(row: int, col: int): Rect {
      Rect((startX + col * tileSize) as real, (startY + row * tileSize) as real,
           tileSize as real, tileSize as real)
    }
  }

  function Max(a: int, b: int): int { if a >= b then a else b }

  function Min(a: int, b: int): int { if a <= b then a else b }
}
