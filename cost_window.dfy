/**
 * The cost-saving mode of `start_grading` (auto_essay_grader.py:261-278): outside the window
 * from 00:30 to 08:30 (both ends included) the start is put off until the next 00:30.
 * Wall-clock time is a day number and the microseconds elapsed since that day's midnight.
 */
module CostWindow {
  const MicrosPerSecond: nat := 1_000_000
  const MicrosPerMinute: nat := 60 * MicrosPerSecond
  const MicrosPerHour: nat := 60 * MicrosPerMinute
  const MicrosPerDay: nat := 24 * MicrosPerHour

  /** 00:30:00.000000, `now.replace(hour=0, minute=30, second=0, microsecond=0)`. */
  const WindowStart: nat := 30 * MicrosPerMinute

  /** 08:30:00.000000, `now.replace(hour=8, minute=30, second=0, microsecond=0)`. */
  const WindowEnd: nat := 8 * MicrosPerHour + 30 * MicrosPerMinute

  /** A local date and time: the day, and the time of day in microseconds. */
  datatype DateTime = DateTime(day: int, micros: int) {
    ghost predicate Valid() {
      0 <= micros < MicrosPerDay
    }

    /** Microseconds since the midnight that starts day 0. */
    function Instant(): int {
      day * MicrosPerDay + micros
    }
  }

  /** `start <= now <= end` for the window on `now`'s own day. */
  predicate InWindow(now: DateTime) {
    WindowStart <= now.micros <= WindowEnd
  }

  /** An instant falls in the window of whatever day it is on. */
  ghost predicate InstantInWindow(t: int) {
    WindowStart <= t % MicrosPerDay <= WindowEnd
  }

  /** `wait_until`: today's 00:30 if it is still to come, otherwise tomorrow's. */
  function NextOpening(now: DateTime): DateTime {
    if now.micros < WindowStart then DateTime(now.day, WindowStart)
    else DateTime(now.day + 1, WindowStart)
  }

  /** What `start_grading` does: start at once, or sleep until the target and start then. */
  datatype Plan = StartNow | WaitUntil(target: DateTime, waitMicros: int)

  /**
   * The decision of `start_grading` (auto_essay_grader.py:261-277). Without the mode, or inside
   * the window, grading starts at once; otherwise it waits, for less than sixteen hours, until
   * a 00:30 that is inside the window.
   */
  function Decide(saveMoney: bool, now: DateTime): (p: Plan)
    requires now.Valid()
    ensures p.StartNow? <==> !saveMoney || InWindow(now)
    ensures p.WaitUntil? ==>
      && p.target.Valid() && InWindow(p.target) && p.target.micros == WindowStart
      && p.target.Instant() == now.Instant() + p.waitMicros
      && 0 < p.waitMicros < 16 * MicrosPerHour
      && (now.micros < WindowStart ==> p.target.day == now.day && p.waitMicros <= WindowStart)
      && (now.micros > WindowEnd ==> p.target.day == now.day + 1)
  {
    if saveMoney && !InWindow(now) then
      var target := NextOpening(now);
      WaitUntil(target, target.Instant() - now.Instant())
    else
      StartNow
  }

  lemma DayOf(d: int, m: int)
    requires 0 <= m < MicrosPerDay
    ensures (d * MicrosPerDay + m) % MicrosPerDay == m
  {
  }

  /** The view of a date and time as an instant agrees with the window on its own day. */
  lemma InWindowAgrees(now: DateTime)
    requires now.Valid()
    ensures InstantInWindow(now.Instant()) <==> InWindow(now)
  {
    DayOf(now.day, now.micros);
  }

  /**
   * The wait ends at the first moment the window is open: no instant from now until the target
   * lies in any day's window.
   */
  lemma NothingOpensBeforeTarget(saveMoney: bool, now: DateTime, t: int)
    requires now.Valid() && Decide(saveMoney, now).WaitUntil?
    requires now.Instant() <= t < Decide(saveMoney, now).target.Instant()
    ensures !InstantInWindow(t)
  {
    var base := now.day * MicrosPerDay;
    if t < base + MicrosPerDay {
      DayOf(now.day, t - base);
    } else {
      DayOf(now.day + 1, t - base - MicrosPerDay);
    }
  }
}
