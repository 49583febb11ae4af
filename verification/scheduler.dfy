/**
 The window's callback queue, abstracted from time: a system is a session plus the
 callbacks it has asked the window to run. Any pending callback may fire next and
 any key may be pressed at any point, so every ordering the real delays allow is
 covered. The invariant proved here is the restart guard's: `isRestarting` is raised
 exactly while one `change_restarting` callback is pending. The invariant says nothing
 about the other callbacks: `set_up_board` and `animate_time` callbacks scheduled by an
 earlier restart may still be pending after a quit and a new restart, and they act on
 the new session when they fire (see `StaleSetUpTickActs`).
 */
module Scheduler {

  import opened Blockgame

  datatype System = System(game: Game, pending: seq<Pending>)

  /** What can happen next: a pending callback fires, or a key is pressed. The clock
      reading and the spawn column are those of the moment the event happens. */
  datatype Event =
    | FireEvent(index: int, now: int, col: int)
    | PressEvent(key: string, now: int, col: int)

  /** How many pending entries run callback `cb`. */
  function Count(ps: seq<Pending>, cb: Callback): (n: nat)
    ensures n <= |ps|
  {
    if |ps| == 0 then 0
    else (if ps[0].callback == cb then 1 else 0) + Count(ps[1..], cb)
  }

  /** A count of zero means no entry runs the callback, and conversely. */
  lemma {:induction false} CountZero(ps: seq<Pending>, cb: Callback)
    ensures Count(ps, cb) == 0 <==> forall i :: 0 <= i < |ps| ==> ps[i].callback != cb
  {
    if |ps| > 0 {
      CountZero(ps[1..], cb);
      if Count(ps, cb) == 0 {
        forall i | 0 <= i < |ps| ensures ps[i].callback != cb {
          if i > 0 {
            assert ps[i] == ps[1..][i - 1];
          }
        }
      } else if ps[0].callback != cb {
        var j :| 0 <= j < |ps[1..]| && ps[1..][j].callback == cb;
        assert ps[j + 1].callback == cb;
      }
    }
  }

  /** Counting distributes over concatenation. */
  lemma {:induction false} CountConcat(a: seq<Pending>, b: seq<Pending>, cb: Callback)
    ensures Count(a + b, cb) == Count(a, cb) + Count(b, cb)
  {
    if |a| > 0 {
      assert (a + b)[1..] == a[1..] + b;
      CountConcat(a[1..], b, cb);
    } else {
      assert a + b == b;
    }
  }

  /** Removing entry i lowers the count by one exactly when that entry runs `cb`. */
  lemma CountRemove(ps: seq<Pending>, i: int, cb: Callback)
    requires 0 <= i < |ps|
    ensures Count(ps[..i] + ps[i + 1..], cb) == Count(ps, cb) - (if ps[i].callback == cb then 1 else 0)
  {
    assert ps == ps[..i] + ([ps[i]] + ps[i + 1..]);
    CountConcat(ps[..i], [ps[i]] + ps[i + 1..], cb);
    CountConcat([ps[i]], ps[i + 1..], cb);
    CountConcat(ps[..i], ps[i + 1..], cb);
  }

  /** The guard invariant: a valid session whose restart guard is up exactly while one
      `change_restarting` is pending. */
  ghost predicate Inv(sys: System)
  {
    && Valid(sys.game)
    && Count(sys.pending, ChangeRestartingCallback) == (if sys.game.isRestarting then 1 else 0)
  }

  /** Runs one scheduled callback on the session. Only `change_restarting` touches the
      restart guard, and none of them schedules a `change_restarting`. */
  function RunCallback(g: Game, cb: Callback, now: int, col: int): (s: Step)
    requires ValidColumn(col)
    ensures cb == ChangeRestartingCallback ==> s.game.isRestarting != g.isRestarting && s.scheduled == []
    ensures cb != ChangeRestartingCallback ==> s.game.isRestarting == g.isRestarting
    ensures Count(s.scheduled, ChangeRestartingCallback) == 0
    ensures Valid(g) ==> Valid(s.game)
  {
    match cb
    case SetUpBoardCallback => SetUpBoard(g, col)
    case AnimateTimeCallback => AnimateTime(g, now)
    case ChangeRestartingCallback => Step(ChangeRestarting(g), [])
  }

  /** A key press schedules a `change_restarting` exactly when it raises the guard,
      and it never lowers the guard. */
  lemma KeyPressedGuard(g: Game, key: string, now: int, col: int)
    requires ValidColumn(col)
    ensures var s := KeyPressed(g, key, now, col);
      && (g.isRestarting ==> s.game.isRestarting)
      && Count(s.scheduled, ChangeRestartingCallback) == (if s.game.isRestarting && !g.isRestarting then 1 else 0)
  {
    var s := KeyPressed(g, key, now, col);
    if key == SpaceKey && !g.activeGame && !g.isRestarting {
      var setUp := SetUpBoard(g.(isRestarting := true, setupRows := 0, score := 0, mistakes := 0,
                                 timer := Timers.ResetTime(), activeGame := true), col);
      assert s.scheduled == setUp.scheduled + [After(RestartDelayMs, AnimateTimeCallback)]
                                            + [After(RestartDelayMs, ChangeRestartingCallback)];
      CountConcat(setUp.scheduled + [After(RestartDelayMs, AnimateTimeCallback)],
                  [After(RestartDelayMs, ChangeRestartingCallback)], ChangeRestartingCallback);
      CountConcat(setUp.scheduled, [After(RestartDelayMs, AnimateTimeCallback)], ChangeRestartingCallback);
    } else {
      assert s.game.isRestarting == g.isRestarting && s.scheduled == [];
    }
  }

  /** Pending callback i runs: it leaves the queue and whatever it schedules joins the end. */
  function Fire(sys: System, i: int, now: int, col: int): (r: System)
    requires 0 <= i < |sys.pending| && ValidColumn(col)
    ensures Inv(sys) ==> Inv(r)
  {
    FireKeepsInv(sys, i, now, col);
    var s := RunCallback(sys.game, sys.pending[i].callback, now, col);
    System(s.game, sys.pending[..i] + sys.pending[i + 1..] + s.scheduled)
  }

  lemma FireKeepsInv(sys: System, i: int, now: int, col: int)
    requires 0 <= i < |sys.pending| && ValidColumn(col)
    ensures var s := RunCallback(sys.game, sys.pending[i].callback, now, col);
      Inv(sys) ==> Inv(System(s.game, sys.pending[..i] + sys.pending[i + 1..] + s.scheduled))
  {
    var s := RunCallback(sys.game, sys.pending[i].callback, now, col);
    var rest := sys.pending[..i] + sys.pending[i + 1..];
    CountRemove(sys.pending, i, ChangeRestartingCallback);
    CountConcat(rest, s.scheduled, ChangeRestartingCallback);
  }

  /** A key is pressed: the session reacts and whatever it schedules joins the end. */
  function Press(sys: System, key: string, now: int, col: int): (r: System)
    requires ValidColumn(col)
    ensures Inv(sys) ==> Inv(r)
  {
    PressKeepsInv(sys, key, now, col);
    var s := KeyPressed(sys.game, key, now, col);
    System(s.game, sys.pending + s.scheduled)
  }

  lemma PressKeepsInv(sys: System, key: string, now: int, col: int)
    requires ValidColumn(col)
    ensures var s := KeyPressed(sys.game, key, now, col);
      Inv(sys) ==> Inv(System(s.game, sys.pending + s.scheduled))
  {
    var s := KeyPressed(sys.game, key, now, col);
    KeyPressedGuard(sys.game, key, now, col);
    CountConcat(sys.pending, s.scheduled, ChangeRestartingCallback);
  }

  /** Applies one event; an event that names no pending entry or an off-board column
      cannot occur and leaves the system as it is. */
  function Apply(sys: System, e: Event): (r: System)
    ensures Inv(sys) ==> Inv(r)
  {
    match e
    case FireEvent(i, now, col) =>
      if 0 <= i < |sys.pending| && ValidColumn(col) then Fire(sys, i, now, col) else sys
    case PressEvent(key, now, col) =>
      if ValidColumn(col) then Press(sys, key, now, col) else sys
  }

  function Run(sys: System, events: seq<Event>): System
    decreases |events|
  {
    if |events| == 0 then sys else Run(Apply(sys, events[0]), events[1..])
  }

  /** The constructed game, with the callbacks its constructor scheduled. */
  function Init(col: int): (sys: System)
    requires ValidColumn(col)
    ensures Inv(sys)
    ensures sys.game.isRestarting && sys.game.activeGame
  {
    var s := Construct(col);
    assert s.scheduled == [After(SetupDelayMs, SetUpBoardCallback)]
                          + [After(RestartDelayMs, AnimateTimeCallback)]
                          + [After(RestartDelayMs, ChangeRestartingCallback)];
    CountConcat([After(SetupDelayMs, SetUpBoardCallback)] + [After(RestartDelayMs, AnimateTimeCallback)],
                [After(RestartDelayMs, ChangeRestartingCallback)], ChangeRestartingCallback);
    CountConcat([After(SetupDelayMs, SetUpBoardCallback)], [After(RestartDelayMs, AnimateTimeCallback)],
                ChangeRestartingCallback);
    System(s.game, s.scheduled)
  }

  /** The invariant holds along every run. */
  lemma {:induction false} RunKeepsInv(sys: System, events: seq<Event>)
    requires Inv(sys)
    ensures Inv(Run(sys, events))
    decreases |events|
  {
    if |events| > 0 {
      RunKeepsInv(Apply(sys, events[0]), events[1..]);
    }
  }

  /** From the constructed game, whatever happens, at most one `change_restarting` is
      pending, and the guard is up exactly while one is. Callbacks of the other two kinds
      left over from an earlier restart are not excluded. */
  lemma AtMostOneRestartInFlight(col: int, events: seq<Event>)
    requires ValidColumn(col)
    ensures var sys := Run(Init(col), events);
      && Valid(sys.game)
      && Count(sys.pending, ChangeRestartingCallback) <= 1
      && (sys.game.isRestarting <==> Count(sys.pending, ChangeRestartingCallback) == 1)
  {
    RunKeepsInv(Init(col), events);
  }

  /** Firing the pending `change_restarting` lowers the guard and leaves none pending,
      so the next `space` on an ended game is heard again. */
  lemma GuardReleases(sys: System, i: int, now: int, col: int)
    requires Inv(sys) && 0 <= i < |sys.pending| && ValidColumn(col)
    requires sys.pending[i].callback == ChangeRestartingCallback
    ensures var r := Fire(sys, i, now, col);
      && !r.game.isRestarting
      && Count(r.pending, ChangeRestartingCallback) == 0
  {
    if !sys.game.isRestarting {
      CountZero(sys.pending, ChangeRestartingCallback);
    }
  }

  /** A pending `set_up_board` acts whenever the session is active with rows left to
      place, whichever restart scheduled it: it places a row and reschedules itself, so
      the number of pending setup ticks does not drop. A tick left over from a session
      that was quit and restarted within a second therefore runs alongside the new
      session's own tick. */
  lemma StaleSetUpTickActs(sys: System, i: int, now: int, col: int)
    requires Valid(sys.game) && 0 <= i < |sys.pending| && ValidColumn(col)
    requires sys.pending[i].callback == SetUpBoardCallback
    requires sys.game.activeGame && sys.game.setupRows < BoardHeight
    ensures var r := Fire(sys, i, now, col);
      && r.game.setupRows == sys.game.setupRows + 1
      && Count(r.pending, SetUpBoardCallback) == Count(sys.pending, SetUpBoardCallback)
  {
    var s := RunCallback(sys.game, SetUpBoardCallback, now, col);
    var rest := sys.pending[..i] + sys.pending[i + 1..];
    assert s.scheduled == [After(SetupDelayMs, SetUpBoardCallback)];
    assert Count(s.scheduled, SetUpBoardCallback) == 1;
    CountRemove(sys.pending, i, SetUpBoardCallback);
    CountConcat(rest, s.scheduled, SetUpBoardCallback);
  }
}
