/**
 Grid coordinates and the integer bookkeeping of a game block.
 A cell is a pair (column, row); row 0 is the top row and rows grow downwards.
 */
module Blocks {

  type Cell = (int, int)

  /** The cell one row further down. */
  function Down(c: Cell): Cell
  {
    (c.0, c.1 + 1)
  }

  /** A block remembers its own grid coordinates and its fill colour. */
  datatype Block = Block(x: int, y: int, color: string)
  {
    function Pos(): Cell
    {
      (x, y)
    }

    /** The coordinate part of moving a block by (dx, dy) squares. */
    function Move(dx: int, dy: int): (b: Block)
    {
      Block(x + dx, y + dy, color)
    }
  }

  /** Moving a block and moving it back restores it; only the coordinates change. */
  lemma MoveInverse(b: Block, dx: int, dy: int)
    ensures b.Move(dx, dy).Move(-dx, -dy) == b
    ensures b.Move(dx, dy).Pos() == (b.x + dx, b.y + dy)
    ensures b.Move(dx, dy).color == b.color
  {
  }
}
