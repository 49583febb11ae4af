/**
 Properties of the session that relate several transitions: the setup phase and
 a first hit, the end of the countdown, the restart guard, penalties and input
 gating.
 */
module GameProperties {

  import opened Optional
  import opened Boards
  import opened Timers
  import opened Blockgame

  /** Row `y` of the board holds exactly the block in column `o.value`, or none if `o` is None. */
  ghost predicate RowIs(b: Board, y: int, o: Option<int>)
  {
    forall x :: 0 <= x < b.width ==> ((x, y) in b.grid <==> o == Some(x))
  }

  /** `Blockgame.update_board` carries each row's content one row down and spawns into row 0. */
  lemma AdvanceRowIs(b: Board, col: int, y: int, o: Option<int>)
    requires ValidColumn(col) && SpawnFits(b, col)
    requires 0 <= y < b.height - 1 && RowIs(b, y, o)
    ensures RowIs(AdvanceBoard(b, col), y + 1, o)
    ensures RowIs(AdvanceBoard(b, col), 0, Some(col))
  {
    AdvanceBoardSpawns(b, col);
    AdvanceBoardShiftsRows(b, col);
    var r := AdvanceBoard(b, col);
    forall x | 0 <= x < b.width
      ensures (x, y + 1) in r.grid <==> o == Some(x)
    {
      assert (x, y + 1) in r.grid <==> (x, y + 1 - 1) in b.grid;
    }
  }

  /** One setup tick of an active session with rows left to place. */
  lemma SetUpTick(g: Game, col: int, o0: Option<int>, o1: Option<int>, o2: Option<int>)
    requires ValidColumn(col) && Valid(g) && g.activeGame && g.setupRows < BoardHeight
    requires RowIs(g.board, 0, o0) && RowIs(g.board, 1, o1) && RowIs(g.board, 2, o2)
    ensures var h := SetUpBoard(g, col).game;
      && RowIs(h.board, 0, Some(col)) && RowIs(h.board, 1, o0)
      && RowIs(h.board, 2, o1) && RowIs(h.board, 3, o2)
  {
    AdvanceRowIs(g.board, col, 0, o0);
    AdvanceRowIs(g.board, col, 1, o1);
    AdvanceRowIs(g.board, col, 2, o2);
  }

  /** Rows 0 .. 3 hold exactly one block each, in columns r0 .. r3. */
  ghost predicate OneBlockPerRow(b: Board, r0: int, r1: int, r2: int, r3: int)
  {
    RowIs(b, 0, Some(r0)) && RowIs(b, 1, Some(r1)) && RowIs(b, 2, Some(r2)) && RowIs(b, 3, Some(r3))
  }

  /** On a well-formed 3x4 board, one block per row fixes the whole grid. */
  lemma OneBlockPerRowFixesGrid(b: Board, r0: int, r1: int, r2: int, r3: int)
    requires WellFormed(b) && b.width == BoardWidth && b.height == BoardHeight
    requires ValidColumn(r0) && ValidColumn(r1) && ValidColumn(r2) && ValidColumn(r3)
    requires OneBlockPerRow(b, r0, r1, r2, r3)
    ensures b.grid.Keys == {(r0, 0), (r1, 1), (r2, 2), (r3, 3)}
    ensures |b.grid| == 4
  {
    var cells := {(r0, 0), (r1, 1), (r2, 2), (r3, 3)};
    forall c | c in b.grid ensures c in cells {
      var x, y := c.0, c.1;
      assert (x, y) == c && 0 <= x < BoardWidth;
      if y == 0 {
        assert x == r0;
      } else if y == 1 {
        assert x == r1;
      } else if y == 2 {
        assert x == r2;
      } else {
        assert y == 3 && x == r3;
      }
    }
    assert (r0, 0) in b.grid && (r1, 1) in b.grid && (r2, 2) in b.grid && (r3, 3) in b.grid;
    assert b.grid.Keys == cells;
    assert |cells| == 4 by {
      assert cells == {(r0, 0)} + {(r1, 1)} + {(r2, 2)} + {(r3, 3)};
    }
  }

  /** The session after `restart` with spawn column c0 and three `set_up_board` ticks with
      spawn columns c1, c2, c3. */
  function AfterSetup(g: Game, c0: int, c1: int, c2: int, c3: int): Game
    requires ValidColumn(c0) && ValidColumn(c1) && ValidColumn(c2) && ValidColumn(c3)
  {
    SetUpBoard(SetUpBoard(SetUpBoard(Restart(g, c0).game, c1).game, c2).game, c3).game
  }

  /** The setup phase from an inactive session with an empty board: `restart` places the
      first row and three more `set_up_board` ticks fill the board, one block per row, the
      oldest at the bottom; a fifth tick does nothing. */
  lemma SetupFillsBoard(g: Game, c0: int, c1: int, c2: int, c3: int, c4: int)
    requires Valid(g) && !g.isRestarting && g.board.grid == map[]
    requires ValidColumn(c0) && ValidColumn(c1) && ValidColumn(c2) && ValidColumn(c3) && ValidColumn(c4)
    ensures var g4 := AfterSetup(g, c0, c1, c2, c3);
      && Valid(g4)
      && g4.setupRows == BoardHeight && g4.activeGame && g4.score == 0 && g4.mistakes == 0
      && OneBlockPerRow(g4.board, c3, c2, c1, c0)
      && g4.board.grid.Keys == {(c3, 0), (c2, 1), (c1, 2), (c0, 3)}
      && |g4.board.grid| == 4
      && SetUpBoard(g4, c4) == Step(g4, [])
  {
    var g1 := Restart(g, c0).game;
    var g2 := SetUpBoard(g1, c1).game;
    var g3 := SetUpBoard(g2, c2).game;
    var g4 := SetUpBoard(g3, c3).game;
    var reset := g.(isRestarting := true, setupRows := 0, score := 0, mistakes := 0,
                    timer := ResetTime(), activeGame := true);
    assert RowIs(reset.board, 0, None) && RowIs(reset.board, 1, None) && RowIs(reset.board, 2, None);
    SetUpTick(reset, c0, None, None, None);
    assert g1 == SetUpBoard(reset, c0).game;
    SetUpTick(g1, c1, Some(c0), None, None);
    SetUpTick(g2, c2, Some(c1), Some(c0), None);
    SetUpTick(g3, c3, Some(c2), Some(c1), Some(c0));
    OneBlockPerRowFixesGrid(g4.board, c3, c2, c1, c0);
  }

  /** With one block per row, pressing the arrow whose column holds the bottom block is a
      hit: the score goes up by one, the mistakes stay, and every row moves down by one
      under a new block in column `col`. */
  lemma HitShiftsRows(g: Game, key: string, col: int, r0: int, r1: int, r2: int, r3: int)
    requires ValidColumn(col) && Valid(g)
    requires ValidColumn(r0) && ValidColumn(r1) && ValidColumn(r2) && ValidColumn(r3)
    requires OneBlockPerRow(g.board, r0, r1, r2, r3)
    requires key in Direction && Direction[key] == (r3, 3)
    ensures var o := DoMove(g, key, col);
      && o.hit == Some(true)
      && o.game.score == g.score + 1 && o.game.mistakes == g.mistakes
      && OneBlockPerRow(o.game.board, col, r0, r1, r2)
      && o.game.board.grid.Keys == {(col, 0), (r0, 1), (r1, 2), (r2, 3)}
  {
    var b := g.board;
    assert (r3, 3) in b.grid;
    var o := DoMove(g, key, col);
    assert o.game.board == AdvanceBoard(b, col);
    AdvanceRowIs(b, col, 0, Some(r0));
    AdvanceRowIs(b, col, 1, Some(r1));
    AdvanceRowIs(b, col, 2, Some(r2));
    OneBlockPerRowFixesGrid(o.game.board, col, r0, r1, r2);
  }

  /** The concrete opening: after setup, pressing the arrow that matches the bottom block
      gives score 1, no mistakes, and the rows shifted down by one. */
  lemma FirstHit(g: Game, c0: int, c1: int, c2: int, c3: int, c4: int, key: string)
    requires Valid(g) && !g.isRestarting && g.board.grid == map[]
    requires ValidColumn(c0) && ValidColumn(c1) && ValidColumn(c2) && ValidColumn(c3) && ValidColumn(c4)
    requires key in Direction && Direction[key] == (c0, 3)
    ensures var g4 := AfterSetup(g, c0, c1, c2, c3);
      var o := DoMove(g4, key, c4);
      && o.hit == Some(true)
      && o.game.score == 1 && o.game.mistakes == 0
      && o.game.board.grid.Keys == {(c4, 0), (c3, 1), (c2, 2), (c1, 3)}
  {
    var g4 := AfterSetup(g, c0, c1, c2, c3);
    SetupFillsBoard(g, c0, c1, c2, c3, c4);
    HitShiftsRows(g4, key, c4, c3, c2, c1, c0);
  }

  /** Once the reading reaches 10.1 seconds in an active session, the next `animate_time`
      ends the game, wipes the board and stops rescheduling itself; before that point it
      keeps the game running and runs again 10 ms later. */
  lemma TimeUpEndsGame(g: Game, now: int)
    requires Valid(g) && g.activeGame && g.timer.StartedAt?
    ensures GetTime(g.timer, now, g.mistakes) >= TimeLimitMs ==>
      && !AnimateTime(g, now).game.activeGame
      && AnimateTime(g, now).game.board.grid == map[]
      && AnimateTime(g, now).scheduled == []
    ensures GetTime(g.timer, now, g.mistakes) < TimeLimitMs ==>
      AnimateTime(g, now) == Step(g, [After(AnimateDelayMs, AnimateTimeCallback)])
  {
  }

  /** The concrete case: no mistakes, and exactly 10.1 seconds after the timer started. */
  lemma TenPointOneSecondsEndGame(g: Game, start: int)
    requires Valid(g) && g.activeGame && g.timer == StartedAt(start) && g.mistakes == 0
    ensures AnimateTime(g, start + TimeLimitMs - 1).game.activeGame
    ensures !AnimateTime(g, start + TimeLimitMs).game.activeGame
    ensures AnimateTime(g, start + TimeLimitMs).game.board.grid == map[]
  {
    TimeUpEndsGame(g, start + TimeLimitMs);
  }

  /** Mistakes only bring the end closer: more mistakes at the same instant never turn a
      finished countdown back on, and a miss adds exactly half a second to the reading. */
  lemma MissBringsEndCloser(g: Game, key: string, now: int, col: int)
    requires ValidColumn(col) && Valid(g)
    requires key in Direction && Direction[key] !in g.board.grid
    ensures var h := DoMove(g, key, col).game;
      && (g.timer.StartedAt? ==> GetTime(h.timer, now, h.mistakes) == GetTime(g.timer, now, g.mistakes) + PenaltyPerMistakeMs)
      && (TimeUp(g, now) ==> TimeUp(h, now))
  {
    GetTimeMonotone(g.timer, now, now, g.mistakes, g.mistakes + 1);
  }

  /** An arrow key changes exactly one counter by one: the score on a hit, the mistakes on
      a miss. */
  lemma DoMoveChangesOneCounter(g: Game, key: string, col: int)
    requires ValidColumn(col) && key in Direction
    ensures var o := DoMove(g, key, col);
      && o.game.score - g.score + o.game.mistakes - g.mistakes == 1
      && g.score <= o.game.score <= g.score + 1
      && g.mistakes <= o.game.mistakes <= g.mistakes + 1
      && (o.hit == Some(true) <==> o.game.score == g.score + 1)
      && (o.hit == Some(false) ==> o.game.board == g.board)
  {
  }

  /** While a restart is in flight a second restart is ignored, and `space` changes
      nothing either: the first restart's score, mistakes and timer stand. */
  lemma RestartDebounced(g: Game, c1: int, c2: int, now: int)
    requires ValidColumn(c1) && ValidColumn(c2) && !g.isRestarting
    ensures var g1 := Restart(g, c1).game;
      && Restart(g1, c2) == Step(g1, [])
      && KeyPressed(g1, SpaceKey, now, c2) == Step(g1, [])
  {
  }

  /** Input gating: a key press changes the session only through `do_move` on an active,
      unexpired game or through a `space` restart of an inactive game; only that restart
      can raise the guard, and the guard is never lowered by a key. */
  lemma KeyPressedGate(g: Game, key: string, now: int, col: int)
    requires ValidColumn(col)
    ensures var s := KeyPressed(g, key, now, col);
      && (s.game != g ==>
            || ((key in Direction || key == SpaceKey) && g.activeGame && !TimeUp(g, now))
            || (key == SpaceKey && !g.activeGame && !g.isRestarting))
      && (s.game.isRestarting != g.isRestarting ==> key == SpaceKey && !g.activeGame && s.game.isRestarting)
      && (s.scheduled != [] ==> key == SpaceKey && !g.activeGame && !g.isRestarting)
  {
  }

  /** `change_restarting` undoes itself. */
  lemma ChangeRestartingInvolution(g: Game)
    ensures ChangeRestarting(ChangeRestarting(g)) == g
  {
  }
}
