/** Grid-side inputs of the decoration pipeline: colours, grid points,
    the five decoration kinds and the decorated cells the renderer is fed. */
module Grid {

  /** An unsigned 8-bit channel value (`u8`). */
  newtype byte = x: int | 0 <= x < 256

  /** An 8-bit RGB colour. */
  datatype Rgb = Rgb(r: byte, g: byte, b: byte)

  /** A grid position; `usize` line and column, unbounded here. */
  datatype Point = Point(line: nat, column: nat)

  /** The five line decorations a cell can carry. Each has its own run list. */
  datatype Kind = Underline | DoubleUnderline | Strikeout | DottedUnderline | DashedUnderline

  /** The part of a renderable cell the line aggregator looks at: its point,
      foreground colour, decoration flags and whether it holds a wide glyph. */
  datatype Cell = Cell(point: Point, fg: Rgb, flags: set<Kind>, wide: bool)

  /** Strict row-major order on points: earlier line, or same line and earlier column. */
  predicate Before(p: Point, q: Point) {
    p.line < q.line || (p.line == q.line && p.column < q.column)
  }

  /** A cell stream visited row-major, left to right, top to bottom. */
  predicate RowMajor(cells: seq<Cell>) {
    forall i :: 0 <= i < |cells| - 1 ==> Before(cells[i].point, cells[i + 1].point)
  }
}
