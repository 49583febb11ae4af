/**
 The session state machine of the 3x4 reaction game. Every callback that the
 game schedules on the window is a separate transition here: each returns the
 new session together with the callbacks it asks to be run later. The clock
 reading `now` and the random spawn column `col` are parameters.
 */
module Blockgame {

  import opened Optional
  import opened Blocks
  import opened Boards
  import opened Timers

  const BoardWidth: int := 3
  const BoardHeight: int := 4

  /** The bottom-row cell each arrow key aims at. */
  const Direction: map<string, Cell> := map["Left" := (0, 3), "Right" := (2, 3), "Down" := (1, 3)]

  const SpaceKey: string := "space"
  const NewBlockColor: string := "white"

  /** 10.1 seconds: the reading at which the time is up. */
  const TimeLimitMs: int := 10100
  /** Delay between two setup rows. */
  const SetupDelayMs: int := 1000
  /** Delay before the timer animation starts and the restart guard is toggled. */
  const RestartDelayMs: int := 3000
  /** Period of the timer animation. */
  const AnimateDelayMs: int := 10

  datatype Callback = SetUpBoardCallback | AnimateTimeCallback | ChangeRestartingCallback

  /** A callback the session asked the window to run after `delayMs` milliseconds. */
  datatype Pending = After(delayMs: int, callback: Callback)

  datatype Game = Game(
    board: Board,
    timer: Timer,
    activeGame: bool,
    isRestarting: bool,
    setupRows: int,
    score: int,
    mistakes: int)

  /** A transition's result: the new session and the callbacks it scheduled, in order. */
  datatype Step = Step(game: Game, scheduled: seq<Pending>)

  /** `do_move`'s result: the new session and Python's return value (`None` for non-arrow keys). */
  datatype MoveOutcome = MoveOutcome(game: Game, hit: Option<bool>)

  /** The session invariant: a 3x4 well-formed board, at most BoardHeight setup rows,
      non-negative counters. */
  ghost predicate Valid(g: Game)
  {
    && g.board.width == BoardWidth
    && g.board.height == BoardHeight
    && WellFormed(g.board)
    && 0 <= g.setupRows <= BoardHeight
    && 0 <= g.score
    && 0 <= g.mistakes
  }

  /** The same session apart from its board. */
  ghost predicate SameButBoard(g: Game, g': Game)
  {
    g'.(board := g.board) == g
  }

  /** Whether a spawn column lies on the board, as `randint(0, BoardWidth-1)` guarantees. */
  predicate ValidColumn(col: int)
  {
    0 <= col < BoardWidth
  }

  /** The class-attribute defaults before the constructor runs. */
  function Defaults(): (g: Game)
    ensures Valid(g)
    ensures g.board.grid == map[] && !g.activeGame && !g.isRestarting
  {
    Game(Board(BoardWidth, BoardHeight, map[]), NotStarted, false, false, 0, 0, 0)
  }

  /** The time is up once the reading, penalties included, reaches 10.1 seconds. */
  predicate TimeUp(g: Game, now: int)
  {
    GetTime(g.timer, now, g.mistakes) >= TimeLimitMs
  }

  /** A fresh white block in column `col` of the top row. */
  function CreateNewBlock(col: int): (blk: Block)
    requires ValidColumn(col)
    ensures blk.Pos() == (col, 0)
    ensures 0 <= blk.x < BoardWidth && 0 <= blk.y < BoardHeight
  {
    Block(col, 0, NewBlockColor)
  }

  /** A well-formed board with at least one row and room for a new block in column `col`. */
  ghost predicate SpawnFits(b: Board, col: int)
  {
    WellFormed(b) && 0 <= col < b.width && 1 <= b.height
  }

  /** One gravity step of the board followed by one new block at (col, 0). */
  function AdvanceBoard(b: Board, col: int): (r: Board)
    requires ValidColumn(col)
    ensures r.width == b.width && r.height == b.height
    ensures SpawnFits(b, col) ==> WellFormed(r)
  {
    AdvanceKeepsWellFormed(b, col);
    AddBlock(UpdateBoard(b), CreateNewBlock(col))
  }

  lemma AdvanceKeepsWellFormed(b: Board, col: int)
    requires ValidColumn(col)
    ensures SpawnFits(b, col) ==> WellFormed(AddBlock(UpdateBoard(b), CreateNewBlock(col)))
  {
    if SpawnFits(b, col) {
      UpdateBoardShifts(b);
      AddBlockOccupies(UpdateBoard(b), CreateNewBlock(col));
    }
  }

  /** After `Blockgame.update_board`, row 0 holds exactly one block: the new white one at
      (col, 0). */
  lemma AdvanceBoardSpawns(b: Board, col: int)
    requires ValidColumn(col)
    requires SpawnFits(b, col)
    ensures var r := AdvanceBoard(b, col);
      && (forall x :: 0 <= x < b.width ==> ((x, 0) in r.grid <==> x == col))
      && r.grid[(col, 0)] == CreateNewBlock(col)
  {
    UpdateBoardShifts(b);
  }

  /** After `Blockgame.update_board`, every lower row y holds a block at (x, y) exactly
      when (x, y-1) held one before. */
  lemma AdvanceBoardShiftsRows(b: Board, col: int)
    requires ValidColumn(col)
    requires SpawnFits(b, col)
    ensures var r := AdvanceBoard(b, col);
      forall x, y :: 1 <= y < b.height ==> ((x, y) in r.grid <==> (x, y - 1) in b.grid)
  {
    var shifted := UpdateBoard(b);
    var r := AdvanceBoard(b, col);
    forall x, y | 1 <= y < b.height
      ensures (x, y) in r.grid <==> (x, y - 1) in b.grid
    {
      AddBlockOccupies(shifted, CreateNewBlock(col));
      assert IsBlockThere(r, x, y) <==> IsBlockThere(shifted, x, y);
      UpdateBoardOccupancy(b);
      assert IsBlockThere(shifted, x, y - 1 + 1) <==> IsBlockThere(b, x, y - 1);
    }
  }

  /** After `Blockgame.update_board`, every block that was above the bottom row sits one
      row lower with its coordinates advanced. */
  lemma AdvanceBoardMovesBlocks(b: Board, col: int)
    requires ValidColumn(col)
    requires SpawnFits(b, col)
    ensures var r := AdvanceBoard(b, col);
      forall x, y :: 0 <= y < b.height - 1 && (x, y) in b.grid ==>
        (x, y + 1) in r.grid && r.grid[(x, y + 1)] == b.grid[(x, y)].Move(0, 1)
  {
    var shifted := UpdateBoard(b);
    var r := AdvanceBoard(b, col);
    forall x, y | 0 <= y < b.height - 1 && (x, y) in b.grid
      ensures (x, y + 1) in r.grid && r.grid[(x, y + 1)] == b.grid[(x, y)].Move(0, 1)
    {
      UpdateBoardLands(b);
      var c := (x, y + 1);
      assert c in shifted.grid && shifted.grid[c] == b.grid[(x, y)].Move(0, 1);
      assert c != (col, 0);
      assert r.grid[c] == shifted.grid[c];
    }
  }

  /** `Blockgame.update_board` adds one block and discards the old bottom row's blocks:
      no other block is lost or duplicated. */
  lemma AdvanceBoardCount(b: Board, col: int)
    requires ValidColumn(col)
    requires SpawnFits(b, col)
    ensures |AdvanceBoard(b, col).grid| == |b.grid| - |BottomRow(b)| + 1
  {
    var shifted := UpdateBoard(b);
    UpdateBoardShifts(b);
    UpdateBoardCount(b);
    assert (col, 0) !in shifted.grid;
    assert AdvanceBoard(b, col).grid.Keys == shifted.grid.Keys + {(col, 0)};
  }

  /** `Blockgame.update_board`: the board advances and one new block appears in row 0;
      nothing but the board changes. */
  function UpdateGameBoard(g: Game, col: int): (r: Game)
    requires ValidColumn(col)
    ensures SameButBoard(g, r)
    ensures Valid(g) ==> Valid(r)
  {
    g.(board := AdvanceBoard(g.board, col))
  }

  /** Rows 0 .. n-1 deleted one after another. */
  function ClearRows(b: Board, n: int): (r: Board)
    decreases n
    ensures r.width == b.width && r.height == b.height
    ensures forall c :: c in r.grid <==> c in b.grid && !(0 <= c.0 < b.width && 0 <= c.1 < n)
    ensures forall c :: c in r.grid ==> r.grid[c] == b.grid[c]
  {
    if n <= 0 then b else DeleteRow(ClearRows(b, n - 1), n - 1)
  }

  /** `end_game`: the game becomes inactive and every row of the board is wiped. */
  function EndGame(g: Game): (r: Game)
    ensures !r.activeGame
    ensures r.(board := g.board, activeGame := g.activeGame) == g
    ensures r.board.width == g.board.width && r.board.height == g.board.height
    ensures forall c :: c in r.board.grid ==> c in g.board.grid && r.board.grid[c] == g.board.grid[c]
    ensures forall c :: c in r.board.grid <==> c in g.board.grid && !(0 <= c.0 < g.board.width && 0 <= c.1 < BoardHeight)
    ensures Valid(g) ==> Valid(r) && r.board.grid == map[]
  {
    var r := g.(activeGame := false, board := ClearRows(g.board, BoardHeight));
    assert Valid(g) ==> r.board.grid.Keys == {};
    r
  }

  /** `change_restarting`: flips the restart guard and nothing else. */
  function ChangeRestarting(g: Game): (r: Game)
    ensures r.isRestarting != g.isRestarting
    ensures r.(isRestarting := g.isRestarting) == g
  {
    g.(isRestarting := !g.isRestarting)
  }

  /** `set_up_board`: while fewer than BoardHeight rows are placed and the game is active,
      place one more row and run again after a second; otherwise do nothing. */
  function SetUpBoard(g: Game, col: int): (s: Step)
    requires ValidColumn(col)
    ensures g.setupRows < BoardHeight && g.activeGame ==>
      && s.game == UpdateGameBoard(g, col).(setupRows := g.setupRows + 1)
      && s.scheduled == [After(SetupDelayMs, SetUpBoardCallback)]
    ensures !(g.setupRows < BoardHeight && g.activeGame) ==> s == Step(g, [])
    ensures g.setupRows <= BoardHeight ==> s.game.setupRows <= BoardHeight
    ensures Valid(g) ==> Valid(s.game)
  {
    if g.setupRows < BoardHeight && g.activeGame then
      Step(UpdateGameBoard(g, col).(setupRows := g.setupRows + 1), [After(SetupDelayMs, SetUpBoardCallback)])
    else
      Step(g, [])
  }

  /** `restart`: ignored while a restart is in flight; otherwise raises the guard, zeroes
      the counters, resets the timer, activates the game, places the first setup row and
      schedules the timer animation and the guard toggle three seconds later. */
  function Restart(g: Game, col: int): (s: Step)
    requires ValidColumn(col)
    ensures g.isRestarting ==> s == Step(g, [])
    ensures !g.isRestarting ==>
      && s.game.isRestarting && s.game.activeGame
      && s.game.score == 0 && s.game.mistakes == 0
      && s.game.timer == NotStarted
      && s.game.setupRows == 1
      && s.game.board == AdvanceBoard(g.board, col)
      && s.scheduled == [After(SetupDelayMs, SetUpBoardCallback),
                         After(RestartDelayMs, AnimateTimeCallback),
                         After(RestartDelayMs, ChangeRestartingCallback)]
    ensures Valid(g) ==> Valid(s.game)
  {
    if g.isRestarting then
      Step(g, [])
    else
      var reset := g.(isRestarting := true, setupRows := 0, score := 0, mistakes := 0,
                      timer := ResetTime(), activeGame := true);
      var setUp := SetUpBoard(reset, col);
      Step(setUp.game, setUp.scheduled + [After(RestartDelayMs, AnimateTimeCallback),
                                          After(RestartDelayMs, ChangeRestartingCallback)])
  }

  /** `animate_time`: starts the timer if it is not running; then, while the game is
      active, either refreshes and runs again 10 ms later, or ends the game once the time
      is up. An inactive game stops the animation. */
  function AnimateTime(g: Game, now: int): (s: Step)
    ensures s.game.timer.StartedAt?
    ensures g.timer.StartedAt? ==> s.game.timer == g.timer
    ensures g.timer.NotStarted? ==> s.game.timer == StartTime(now)
    ensures s.game.activeGame <==> g.activeGame && !TimeUp(s.game, now)
    ensures s.scheduled == if s.game.activeGame then [After(AnimateDelayMs, AnimateTimeCallback)] else []
    ensures s.game.score == g.score && s.game.mistakes == g.mistakes
    ensures s.game.isRestarting == g.isRestarting && s.game.setupRows == g.setupRows
    ensures s.game.activeGame || !g.activeGame ==> s.game.board == g.board
    ensures g.activeGame && !s.game.activeGame ==> s.game.board == EndGame(g).board
    ensures Valid(g) ==> Valid(s.game)
  {
    var started := if g.timer.NotStarted? then g.(timer := StartTime(now)) else g;
    if !TimeUp(started, now) && started.activeGame then
      Step(started, [After(AnimateDelayMs, AnimateTimeCallback)])
    else if started.activeGame then
      Step(EndGame(started), [])
    else
      Step(started, [])
  }

  /** `do_move`: an arrow key whose target cell holds a block is a hit (the board advances,
      the score goes up, True); any other arrow key is a miss (a mistake, False); `space`
      ends the game unless a restart is in flight; every other key does nothing. */
  function DoMove(g: Game, key: string, col: int): (o: MoveOutcome)
    requires ValidColumn(col)
    ensures key in Direction ==> o.hit == Some(Direction[key] in g.board.grid)
    ensures key in Direction && Direction[key] in g.board.grid ==>
      && o.game.score == g.score + 1
      && o.game.mistakes == g.mistakes
      && o.game.board == AdvanceBoard(g.board, col)
      && o.game.(score := g.score, board := g.board) == g
    ensures key in Direction && Direction[key] !in g.board.grid ==>
      o.game == g.(mistakes := g.mistakes + 1)
    ensures key !in Direction ==> o.hit == None
    ensures key == SpaceKey && !g.isRestarting ==> o.game == EndGame(g)
    ensures key !in Direction && (key != SpaceKey || g.isRestarting) ==> o.game == g
    ensures Valid(g) ==> Valid(o.game)
  {
    if key in Direction then
      if Direction[key] in g.board.grid then
        var advanced := UpdateGameBoard(g, col);
        MoveOutcome(advanced.(score := advanced.score + 1), Some(true))
      else
        MoveOutcome(g.(mistakes := g.mistakes + 1), Some(false))
    else if key == SpaceKey && !g.isRestarting then
      MoveOutcome(EndGame(g), None)
    else
      MoveOutcome(g, None)
  }

  /** `key_pressed`: arrow keys and `space` reach `do_move` only while the game is active
      and the time is not up; `space` on an inactive game restarts it; nothing else
      changes anything. */
  function KeyPressed(g: Game, key: string, now: int, col: int): (s: Step)
    requires ValidColumn(col)
    ensures (key in Direction || key == SpaceKey) && g.activeGame && !TimeUp(g, now) ==>
      s == Step(DoMove(g, key, col).game, [])
    ensures key == SpaceKey && !g.activeGame ==> s == Restart(g, col)
    ensures key !in Direction && key != SpaceKey ==> s == Step(g, [])
    ensures key in Direction && !g.activeGame ==> s == Step(g, [])
    ensures g.activeGame && TimeUp(g, now) ==> s == Step(g, [])
    ensures Valid(g) ==> Valid(s.game)
  {
    if (key in Direction || key == SpaceKey) && g.activeGame && !TimeUp(g, now) then
      Step(DoMove(g, key, col).game, [])
    else if key == SpaceKey && !g.activeGame then
      Restart(g, col)
    else
      Step(g, [])
  }

  /** The constructor: the defaults, then `end_game`, then `restart`. */
  function Construct(col: int): (s: Step)
    requires ValidColumn(col)
    ensures Valid(s.game)
    ensures s.game.activeGame && s.game.isRestarting && s.game.setupRows == 1
    ensures s.game.board.grid.Keys == {(col, 0)}
  {
    Restart(EndGame(Defaults()), col)
  }
}
