/**
 The board grid: a finite map from cells to blocks, with occupancy queries,
 row deletion and the "gravity" step that discards the bottom row and lets
 every row above it fall by one.
 */
module Boards {

  import opened Blocks

  type Grid = map<Cell, Block>

  datatype Board = Board(width: int, height: int, grid: Grid)

  /** Every key lies on the board and every stored block's coordinates equal its key. */
  ghost predicate WellFormed(b: Board)
  {
    forall c :: c in b.grid ==> 0 <= c.0 < b.width && 0 <= c.1 < b.height && b.grid[c].Pos() == c
  }

  /** No block in columns [0, width) of row `y`. */
  ghost predicate RowEmpty(g: Grid, width: int, y: int)
  {
    forall x :: 0 <= x < width ==> (x, y) !in g
  }

  /** Whether a block occupies cell (x, y). */
  function IsBlockThere(b: Board, x: int, y: int): bool
  {
    (x, y) in b.grid
  }

  /** Stores `blk` under its own coordinates, silently replacing any block already there. */
  function AddBlock(b: Board, blk: Block): (r: Board)
    ensures r.width == b.width && r.height == b.height
    ensures r.grid.Keys == b.grid.Keys + {blk.Pos()}
    ensures r.grid[blk.Pos()] == blk
    ensures forall c :: c in b.grid && c != blk.Pos() ==> r.grid[c] == b.grid[c]
  {
    b.(grid := b.grid[blk.Pos() := blk])
  }

  /** The loop of `delete_row` after its first `n` iterations: cells (0, y) .. (n-1, y) removed. */
  function DeleteRowUpTo(g: Grid, y: int, n: int): (r: Grid)
    decreases n
    ensures forall c :: c in r <==> c in g && !(c.1 == y && 0 <= c.0 < n)
    ensures forall c :: c in r ==> r[c] == g[c]
  {
    if n <= 0 then g
    else
      var prev := DeleteRowUpTo(g, y, n - 1);
      if (n - 1, y) in prev then prev - {(n - 1, y)} else prev
  }

  /** Removes every block of row `y` in columns [0, width); nothing else changes. */
  function DeleteRow(b: Board, y: int): (r: Board)
    ensures r.width == b.width && r.height == b.height
    ensures forall c :: c in r.grid <==> c in b.grid && !(c.1 == y && 0 <= c.0 < b.width)
    ensures forall c :: c in r.grid ==> r.grid[c] == b.grid[c]
  {
    b.(grid := DeleteRowUpTo(b.grid, y, b.width))
  }

  /** One iteration of the inner loop of `move_down_rows`: the block at (x, y), if any,
      is taken out and stored one row lower, overwriting whatever was there. */
  function MoveCell(g: Grid, x: int, y: int): Grid
  {
    if (x, y) in g then (g - {(x, y)})[(x, y + 1) := g[(x, y)].Move(0, 1)] else g
  }

  /** The inner loop of `move_down_rows` on row `y` after its first `n` iterations. */
  function MoveRowUpTo(g: Grid, y: int, n: int): Grid
    decreases n
  {
    if n <= 0 then g else MoveCell(MoveRowUpTo(g, y, n - 1), n - 1, y)
  }

  /** `move_down_rows(y_start)`: rows y_start, y_start-1, ..., 0 are moved down one row,
      in that order. */
  function MoveDownRows(g: Grid, width: int, yStart: int): Grid
    decreases yStart + 1
  {
    if yStart < 0 then g else MoveDownRows(MoveRowUpTo(g, yStart, width), width, yStart - 1)
  }

  /** The gravity step: delete the bottom row, then move every row above it down by one. */
  function UpdateBoard(b: Board): (r: Board)
    ensures r.width == b.width && r.height == b.height
  {
    var cleared := DeleteRow(b, b.height - 1);
    cleared.(grid := MoveDownRows(cleared.grid, b.width, b.height - 2))
  }

  /** What the first `n` iterations of the inner loop do to row `y`: the source cells are
      vacated, every source block lands one row lower with its coordinates advanced, a
      block already below survives exactly when nothing fell onto it, and every other cell
      is untouched. */
  lemma {:induction false} MoveRowEffect(g: Grid, y: int, n: int)
    decreases n
    ensures var r := MoveRowUpTo(g, y, n);
      && (forall x :: 0 <= x < n ==> (x, y) !in r)
      && (forall x :: 0 <= x < n && (x, y) in g ==> (x, y + 1) in r && r[(x, y + 1)] == g[(x, y)].Move(0, 1))
      && (forall x :: 0 <= x < n && (x, y) !in g ==> ((x, y + 1) in r <==> (x, y + 1) in g))
      && (forall x :: 0 <= x < n && (x, y) !in g && (x, y + 1) in g ==> r[(x, y + 1)] == g[(x, y + 1)])
      && (forall c :: c in g && !(0 <= c.0 < n && (c.1 == y || c.1 == y + 1)) ==> c in r && r[c] == g[c])
      && (forall c :: c in r && !(0 <= c.0 < n && (c.1 == y || c.1 == y + 1)) ==> c in g)
  {
    if n > 0 {
      MoveRowEffect(g, y, n - 1);
    }
  }

  /** `move_down_rows(yStart)` touches nothing outside columns [0, width) and rows
      [0, yStart+1]. */
  lemma {:induction false} MoveDownRowsFrame(g: Grid, width: int, yStart: int)
    decreases yStart + 1
    ensures var r := MoveDownRows(g, width, yStart);
      && (forall c :: c in g && !(0 <= c.0 < width && 0 <= c.1 <= yStart + 1) ==> c in r && r[c] == g[c])
      && (forall c :: c in r && !(0 <= c.0 < width && 0 <= c.1 <= yStart + 1) ==> c in g)
  {
    if yStart >= 0 {
      MoveRowEffect(g, yStart, width);
      MoveDownRowsFrame(MoveRowUpTo(g, yStart, width), width, yStart - 1);
    }
  }

  /** `move_down_rows(yStart)` lands every block of columns [0, width) and rows
      [0, yStart] exactly one row lower, carrying its new coordinates. This holds whatever
      row yStart+1 held: a block already there is overwritten. */
  lemma {:induction false} MoveDownRowsLands(g: Grid, width: int, yStart: int)
    decreases yStart + 1
    ensures var r := MoveDownRows(g, width, yStart);
      forall x, y :: 0 <= x < width && 0 <= y <= yStart && (x, y) in g ==>
        (x, y + 1) in r && r[(x, y + 1)] == g[(x, y)].Move(0, 1)
  {
    if yStart >= 0 {
      var g1 := MoveRowUpTo(g, yStart, width);
      var r := MoveDownRows(g1, width, yStart - 1);
      assert r == MoveDownRows(g, width, yStart);
      forall x, y | 0 <= x < width && 0 <= y <= yStart && (x, y) in g
        ensures (x, y + 1) in r && r[(x, y + 1)] == g[(x, y)].Move(0, 1)
      {
        MoveRowEffect(g, yStart, width);
        if y == yStart {
          assert (x, y + 1) in g1 && g1[(x, y + 1)] == g[(x, y)].Move(0, 1);
          MoveDownRowsFrame(g1, width, yStart - 1);
        } else {
          assert (x, y) in g1 && g1[(x, y)] == g[(x, y)];
          MoveDownRowsLands(g1, width, yStart - 1);
        }
      }
    }
  }

  /** With row yStart+1 already empty, every block that `move_down_rows(yStart)` leaves in
      columns [0, width) and rows [0, yStart+1] fell from the cell just above it: nothing
      is duplicated, nothing from outside the band arrives, and row 0 ends empty. */
  lemma {:induction false} MoveDownRowsOrigin(g: Grid, width: int, yStart: int)
    requires RowEmpty(g, width, yStart + 1)
    decreases yStart + 1
    ensures var r := MoveDownRows(g, width, yStart);
      forall x, y :: 0 <= x < width && 0 <= y <= yStart + 1 && (x, y) in r ==>
        1 <= y && (x, y - 1) in g && r[(x, y)] == g[(x, y - 1)].Move(0, 1)
  {
    if yStart >= 0 {
      var g1 := MoveRowUpTo(g, yStart, width);
      var r := MoveDownRows(g1, width, yStart - 1);
      MoveRowEffect(g, yStart, width);
      MoveDownRowsFrame(g1, width, yStart - 1);
      MoveDownRowsOrigin(g1, width, yStart - 1);
      forall x, y | 0 <= x < width && 0 <= y <= yStart + 1 && (x, y) in r
        ensures 1 <= y && (x, y - 1) in g && r[(x, y)] == g[(x, y - 1)].Move(0, 1)
      {
        if y == yStart + 1 {
          assert (x, y) in g1 && r[(x, y)] == g1[(x, y)];
          assert (x, y) !in g;
        } else {
          assert (x, y - 1) in g1 && r[(x, y)] == g1[(x, y - 1)].Move(0, 1);
        }
      }
    }
  }

  /** `is_block_there` after `add_block`: the block's own cell is occupied, every other
      cell is exactly as occupied as before; a well-formed board stays well-formed when
      the block lies on it. */
  lemma AddBlockOccupies(b: Board, blk: Block)
    ensures IsBlockThere(AddBlock(b, blk), blk.x, blk.y)
    ensures forall x, y :: (x, y) != blk.Pos() ==>
      (IsBlockThere(AddBlock(b, blk), x, y) <==> IsBlockThere(b, x, y))
    ensures WellFormed(b) && 0 <= blk.x < b.width && 0 <= blk.y < b.height ==> WellFormed(AddBlock(b, blk))
  {
  }

  /** `is_block_there` after `delete_row(y)`: false on the row's cells, unchanged elsewhere;
      deletion keeps a board well-formed. */
  lemma DeleteRowClears(b: Board, y: int)
    ensures forall x :: 0 <= x < b.width ==> !IsBlockThere(DeleteRow(b, y), x, y)
    ensures forall x, y' :: !(y' == y && 0 <= x < b.width) ==>
      (IsBlockThere(DeleteRow(b, y), x, y') <==> IsBlockThere(b, x, y'))
    ensures WellFormed(b) ==> WellFormed(DeleteRow(b, y))
  {
  }

  /** `Block.is_block_there` asks the board about the block's own coordinates: on a
      well-formed board every stored block finds itself. */
  lemma StoredBlockIsThere(b: Board, blk: Block)
    requires WellFormed(b)
    ensures (exists c :: c in b.grid && b.grid[c] == blk) ==> IsBlockThere(b, blk.x, blk.y)
  {
  }

  /** The blocks of a well-formed board that lie above its bottom row. */
  function Upper(b: Board): set<Cell>
  {
    set c | c in b.grid && c.1 < b.height - 1
  }

  /** The blocks of a board's bottom row. */
  function BottomRow(b: Board): set<Cell>
  {
    set c | c in b.grid && c.1 == b.height - 1
  }

  /** Moving a set of cells one row down is injective, so it keeps the set's size. */
  lemma {:induction false} DownImageSize(s: set<Cell>)
    decreases |s|
    ensures |set c | c in s :: Down(c)| == |s|
  {
    if s != {} {
      var c :| c in s;
      var s' := s - {c};
      DownImageSize(s');
      assert (set d | d in s :: Down(d)) == (set d | d in s' :: Down(d)) + {Down(c)};
      assert Down(c) !in (set d | d in s' :: Down(d));
    }
  }

  /** The gravity step lands every block above the bottom row exactly one row lower,
      carrying its new coordinates. */
  lemma UpdateBoardLands(b: Board)
    requires WellFormed(b)
    ensures var r := UpdateBoard(b);
      forall x, y :: y < b.height - 1 && (x, y) in b.grid ==>
        (x, y + 1) in r.grid && r.grid[(x, y + 1)] == b.grid[(x, y)].Move(0, 1)
  {
    var cleared := DeleteRow(b, b.height - 1);
    var r := MoveDownRows(cleared.grid, b.width, b.height - 2);
    assert UpdateBoard(b).grid == r;
    forall x, y | y < b.height - 1 && (x, y) in b.grid
      ensures (x, y + 1) in r && r[(x, y + 1)] == b.grid[(x, y)].Move(0, 1)
    {
      assert (x, y) in cleared.grid && cleared.grid[(x, y)] == b.grid[(x, y)];
      MoveDownRowsLands(cleared.grid, b.width, b.height - 2);
    }
  }

  /** After the gravity step every block fell from the cell just above it, so rows 1 ..
      height-1 only hold former blocks of rows 0 .. height-2: the old bottom row is gone,
      nothing is duplicated, and row 0 is empty. */
  lemma UpdateBoardOrigin(b: Board)
    requires WellFormed(b)
    ensures var r := UpdateBoard(b);
      forall x, y :: (x, y) in r.grid ==>
        && 0 <= x < b.width && 1 <= y < b.height
        && (x, y - 1) in b.grid && r.grid[(x, y)] == b.grid[(x, y - 1)].Move(0, 1)
  {
    var cleared := DeleteRow(b, b.height - 1);
    var r := MoveDownRows(cleared.grid, b.width, b.height - 2);
    assert UpdateBoard(b).grid == r;
    if b.height >= 1 {
      assert RowEmpty(cleared.grid, b.width, b.height - 1);
      forall x, y | (x, y) in r
        ensures 0 <= x < b.width && 1 <= y < b.height
        ensures (x, y - 1) in b.grid && r[(x, y)] == b.grid[(x, y - 1)].Move(0, 1)
      {
        if (x, y) in cleared.grid {
          assert (x, y) in b.grid;
        } else {
          MoveDownRowsFrame(cleared.grid, b.width, b.height - 2);
        }
        MoveDownRowsOrigin(cleared.grid, b.width, b.height - 2);
      }
    } else {
      assert b.grid == map[];
    }
  }

  /** The gravity step keeps a board well-formed and leaves its top row empty. */
  lemma UpdateBoardShifts(b: Board)
    requires WellFormed(b)
    ensures WellFormed(UpdateBoard(b))
    ensures RowEmpty(UpdateBoard(b).grid, b.width, 0)
  {
    var r := UpdateBoard(b);
    UpdateBoardOrigin(b);
    forall c | c in r.grid
      ensures 0 <= c.0 < b.width && 0 <= c.1 < b.height && r.grid[c].Pos() == c
    {
      var x, y := c.0, c.1;
      assert (x, y) == c;
      assert b.grid[(x, y - 1)].Pos() == (x, y - 1);
    }
  }

  /** Occupancy after the gravity step: for 0 <= y <= height-2, cell (x, y+1) is occupied
      exactly when (x, y) was occupied before. */
  lemma UpdateBoardOccupancy(b: Board)
    requires WellFormed(b)
    ensures forall x, y :: 0 <= y <= b.height - 2 ==>
      (IsBlockThere(UpdateBoard(b), x, y + 1) <==> IsBlockThere(b, x, y))
  {
    UpdateBoardLands(b);
    UpdateBoardOrigin(b);
  }

  /** A well-formed board's blocks split into the upper rows and the bottom row. */
  lemma SplitAtBottomRow(b: Board)
    requires WellFormed(b)
    ensures |b.grid| == |Upper(b)| + |BottomRow(b)|
  {
    assert b.grid.Keys == Upper(b) + BottomRow(b);
    assert Upper(b) !! BottomRow(b);
  }

  /** Counting the gravity step: the cells occupied afterwards are exactly the upper
      blocks' cells moved one row down, so the block count drops by exactly the size of
      the old bottom row. */
  lemma UpdateBoardCount(b: Board)
    requires WellFormed(b)
    ensures UpdateBoard(b).grid.Keys == (set c | c in Upper(b) :: Down(c))
    ensures |UpdateBoard(b).grid| + |BottomRow(b)| == |b.grid|
  {
    var r := UpdateBoard(b);
    var image := set c | c in Upper(b) :: Down(c);
    UpdateBoardLands(b);
    UpdateBoardOrigin(b);
    forall c | c in r.grid ensures c in image {
      var u := (c.0, c.1 - 1);
      assert u in Upper(b) && Down(u) == c;
    }
    forall c | c in image ensures c in r.grid {
      var u :| u in Upper(b) && c == Down(u);
      assert (u.0, u.1) in b.grid;
    }
    assert r.grid.Keys == image;
    DownImageSize(Upper(b));
    SplitAtBottomRow(b);
  }
}
