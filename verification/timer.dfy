/**
 The countdown timer with an integer millisecond clock. The clock reading `now`
 is a parameter; the timer only remembers when it was started.
 */
module Timers {

  /** `NotStarted` is the timer whose start instant is the sentinel 0. */
  datatype Timer = NotStarted | StartedAt(start: int)

  /** Every mistake adds half a second to the elapsed time. */
  const PenaltyPerMistakeMs: int := 500

  /** Elapsed milliseconds, mistakes included: 0 before the timer is started. */
  function GetTime(t: Timer, now: int, mistakes: int): int
  {
    match t
    case NotStarted => 0
    case StartedAt(start) => now - start + PenaltyPerMistakeMs * mistakes
  }

  /** Records the current instant as the start. */
  function StartTime(now: int): Timer
  {
    StartedAt(now)
  }

  /** Returns the timer to "not started". */
  function ResetTime(): Timer
  {
    NotStarted
  }

  /** Before it is started, or after a reset, the timer reads 0 whatever the clock
      or the mistakes; right after a start it reads exactly the mistakes' penalty, so 0
      with no mistakes. */
  lemma GetTimeAtStart(now: int, later: int, mistakes: int)
    ensures GetTime(ResetTime(), later, mistakes) == 0
    ensures GetTime(StartTime(now), now, mistakes) == PenaltyPerMistakeMs * mistakes
  {
  }

  /** Once started, the reading is monotone in the clock and in the mistakes, and every
      extra mistake adds exactly half a second. */
  lemma GetTimeMonotone(t: Timer, now: int, now': int, mistakes: int, mistakes': int)
    requires now <= now'
    requires 0 <= mistakes <= mistakes'
    ensures GetTime(t, now, mistakes) <= GetTime(t, now', mistakes')
    ensures t.StartedAt? ==> GetTime(t, now, mistakes + 1) == GetTime(t, now, mistakes) + PenaltyPerMistakeMs
  {
  }
}
