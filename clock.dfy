/**
 * The world clock advanced by `TimeThread` (prison_game.c:873-898).
 *
 * One iteration of the thread's loop is `Tick`. While the hour is below 24 it adds a
 * minute and carries into the hour at 60; once the hour has reached 24 the next
 * iteration resets it to 0 and starts a new day, leaving the minute alone. So the
 * clock shows hour 24 for exactly one iteration, and a simulated day lasts 1441 of
 * them. The loop stops as soon as the day reaches 365.
 */
module Clock {

  /** The loop in `TimeThread` runs while the day is below this. */
  const LAST_DAY := 365
  const MINUTES_PER_HOUR := 60
  const HOURS_PER_DAY := 24

  datatype Time = Time(day: int, hour: int, minute: int)

  /** The ranges the clock's fields keep: the hour may reach 24 for one iteration. */
  predicate InRange(t: Time) {
    0 <= t.hour <= HOURS_PER_DAY && 0 <= t.minute < MINUTES_PER_HOUR
  }

  /** Minutes since the start of day 0; the rollover iteration leaves it alone. */
  function Minutes(t: Time): int {
    (t.day * HOURS_PER_DAY + t.hour) * MINUTES_PER_HOUR + t.minute
  }

  /** One iteration of the `TimeThread` loop body (its guard is `day < 365`). */
  function Tick(t: Time): (r: Time)
    requires t.day < LAST_DAY
    ensures InRange(t) ==> InRange(r)
    ensures t.hour < HOURS_PER_DAY ==> r.day == t.day && Minutes(r) == Minutes(t) + 1
    ensures t.hour >= HOURS_PER_DAY ==>
      r.day == t.day + 1 && r.hour == 0 && r.minute == t.minute
    ensures t.hour == HOURS_PER_DAY ==> Minutes(r) == Minutes(t)
  {
    if t.hour < HOURS_PER_DAY then
      if t.minute + 1 == MINUTES_PER_HOUR then Time(t.day, t.hour + 1, 0)
      else Time(t.day, t.hour, t.minute + 1)
    else
      Time(t.day + 1, 0, t.minute)
  }

  /** `n` iterations of the `TimeThread` loop, which stops once the day reaches 365. */
  function TickN(t: Time, n: nat): (r: Time)
    ensures r.day >= t.day
    ensures t.day <= LAST_DAY ==> r.day <= LAST_DAY
    decreases n
  {
    if n == 0 || t.day >= LAST_DAY then t else TickN(Tick(t), n - 1)
  }

  /** Iterating keeps the clock in range and never moves it backwards. */
  lemma {:induction false} TickNMonotone(t: Time, n: nat)
    requires InRange(t)
    ensures InRange(TickN(t, n))
    ensures TickN(t, n).day >= t.day
    ensures Minutes(TickN(t, n)) >= Minutes(t)
    decreases n
  {
    if n > 0 && t.day < LAST_DAY {
      TickNMonotone(Tick(t), n - 1);
    }
  }

  /** From any time before hour 24, the clock reaches hour 24 of the same day after
      exactly as many iterations as there are minutes left in the day. */
  lemma {:induction false} ReachesHour24(t: Time)
    requires InRange(t) && t.hour < HOURS_PER_DAY && t.day < LAST_DAY
    ensures TickN(t, (HOURS_PER_DAY - t.hour) * MINUTES_PER_HOUR - t.minute)
         == Time(t.day, HOURS_PER_DAY, 0)
    decreases (HOURS_PER_DAY - t.hour) * MINUTES_PER_HOUR - t.minute
  {
    var n := (HOURS_PER_DAY - t.hour) * MINUTES_PER_HOUR - t.minute;
    var u := Tick(t);
    assert TickN(t, n) == TickN(u, n - 1);
    if u.hour < HOURS_PER_DAY {
      ReachesHour24(u);
    } else {
      assert n == 1;
    }
  }

  /** A simulated day lasts 24 * 60 + 1 iterations: 1440 minutes and the rollover. */
  lemma DayLength(d: int)
    requires d < LAST_DAY
    ensures TickN(Time(d, 0, 0), HOURS_PER_DAY * MINUTES_PER_HOUR + 1) == Time(d + 1, 0, 0)
  {
    var t := Time(d, 0, 0);
    ReachesHour24(t);
    TickNSplit(t, HOURS_PER_DAY * MINUTES_PER_HOUR, 1);
  }

  lemma {:induction false} TickNSplit(t: Time, a: nat, b: nat)
    ensures TickN(t, a + b) == TickN(TickN(t, a), b)
    decreases a
  {
    if a > 0 && t.day < LAST_DAY {
      TickNSplit(Tick(t), a - 1, b);
    } else if a > 0 {
      assert TickN(t, a) == t;
      assert TickN(t, a + b) == t;
      assert TickN(t, b) == t;
    }
  }
}
