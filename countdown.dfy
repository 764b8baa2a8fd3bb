/** The countdown shown on the home page: a positive number of milliseconds
    left is broken into years, months, days, hours and minutes by integer
    division and remainder, with a year taken as 365 days and a month as 30. */
module Countdown {

  const MsPerMinute: int := 1000 * 60
  const MsPerHour: int := 1000 * 60 * 60
  const MsPerDay: int := 1000 * 60 * 60 * 24
  const MsPerMonth: int := 1000 * 60 * 60 * 24 * 30
  const MsPerYear: int := 1000 * 60 * 60 * 24 * 365

  datatype Breakdown = Breakdown(years: int, months: int, days: int, hours: int, minutes: int)

  /** The milliseconds a breakdown stands for. */
  function TotalMs(b: Breakdown): int {
    b.years * MsPerYear + b.months * MsPerMonth + b.days * MsPerDay + b.hours * MsPerHour + b.minutes * MsPerMinute
  }

  /** The breakdown as the page computes it: each component is a remainder
      divided by its unit, and `days` takes its remainder modulo 30 days of
      the whole difference. With `diff` positive, the source's floored
      division and remainder agree with Dafny's. */
  function Remaining(diff: int): (b: Breakdown)
    ensures diff <= 0 ==> b == Breakdown(0, 0, 0, 0, 0)
    ensures diff > 0 ==> 0 <= b.years && 0 <= b.months <= 12 && 0 <= b.days < 30
    ensures diff > 0 ==> 0 <= b.hours < 24 && 0 <= b.minutes < 60
  {
    if diff <= 0 then Breakdown(0, 0, 0, 0, 0)
    else
      Breakdown(
        diff / MsPerYear,
        (diff % MsPerYear) / MsPerMonth,
        (diff % MsPerMonth) / MsPerDay,
        (diff % MsPerDay) / MsPerHour,
        (diff % MsPerHour) / MsPerMinute)
  }

  /** The breakdown with `days` taken from what is left after the whole
      months, so that the components add up to the difference. */
  function ExactRemaining(diff: int): (b: Breakdown)
    ensures diff <= 0 ==> b == Breakdown(0, 0, 0, 0, 0)
    ensures diff > 0 ==> 0 <= b.years && 0 <= b.months <= 12 && 0 <= b.days < 30
    ensures diff > 0 ==> b.months * 30 + b.days < 365
    ensures diff > 0 ==> 0 <= b.hours < 24 && 0 <= b.minutes < 60
  {
    if diff <= 0 then Breakdown(0, 0, 0, 0, 0)
    else
      Breakdown(
        diff / MsPerYear,
        (diff % MsPerYear) / MsPerMonth,
        ((diff % MsPerYear) % MsPerMonth) / MsPerDay,
        (diff % MsPerDay) / MsPerHour,
        (diff % MsPerHour) / MsPerMinute)
  }

  /** Quotient and remainder are the only ones with the remainder in range. */
  lemma DivModUnique(x: int, q: int, r: int, n: int)
    requires 0 < n && 0 <= r < n && x == q * n + r
    ensures x / n == q && x % n == r
  {
    var q', r' := x / n, x % n;
    assert (q - q') * n == r' - r;
    MulAtLeast(q - q', n);
    MulAtLeast(q' - q, n);
  }

  /** A positive multiple of a positive `n` is at least `n`. */
  lemma MulAtLeast(k: int, n: int)
    ensures k >= 1 && n > 0 ==> k * n >= n
  {
  }

  /** The components of the corrected breakdown add up to the difference,
      short of it by less than one minute: the display loses only seconds. */
  lemma ExactRemainingAddsUp(diff: int)
    requires diff > 0
    ensures TotalMs(ExactRemaining(diff)) <= diff < TotalMs(ExactRemaining(diff)) + MsPerMinute
  {
    var b := ExactRemaining(diff);
    var q1, r1 := diff / MsPerYear, diff % MsPerYear;
    var q2, r2 := r1 / MsPerMonth, r1 % MsPerMonth;
    var q3, r3 := r2 / MsPerDay, r2 % MsPerDay;
    var q4, r4 := r3 / MsPerHour, r3 % MsPerHour;
    var q5, r5 := r4 / MsPerMinute, r4 % MsPerMinute;
    assert diff == q1 * MsPerYear + q2 * MsPerMonth + q3 * MsPerDay + r3;
    DivModUnique(diff, q1 * 365 + q2 * 30 + q3, r3, MsPerDay);
    assert diff == (q1 * 365 * 24 + q2 * 30 * 24 + q3 * 24 + q4) * MsPerHour + r4;
    DivModUnique(diff, q1 * 365 * 24 + q2 * 30 * 24 + q3 * 24 + q4, r4, MsPerHour);
    assert b == Breakdown(q1, q2, q3, q4, q5);
    assert TotalMs(b) == diff - r5;
  }

  /** The page's breakdown and the corrected one differ at most in `days`. */
  lemma RemainingDiffersOnlyInDays(diff: int)
    ensures Remaining(diff).(days := 0) == ExactRemaining(diff).(days := 0)
  {
  }

  /** Exactly one 365-day year ahead, the page shows one year and five days,
      which stands for five days more than the time that is left. */
  lemma RemainingOverstatesOneYear()
    ensures Remaining(MsPerYear) == Breakdown(1, 0, 5, 0, 0)
    ensures TotalMs(Remaining(MsPerYear)) == MsPerYear + 5 * MsPerDay
    ensures ExactRemaining(MsPerYear) == Breakdown(1, 0, 0, 0, 0)
  {
  }

  /** 390 days ahead, the page shows exactly one year: the 25 days beyond
      the year vanish, so the display can also stand for less time than is
      left. The corrected breakdown shows one year and 25 days. */
  lemma RemainingUnderstates390Days()
    ensures Remaining(390 * MsPerDay) == Breakdown(1, 0, 0, 0, 0)
    ensures TotalMs(Remaining(390 * MsPerDay)) == 390 * MsPerDay - 25 * MsPerDay
    ensures ExactRemaining(390 * MsPerDay) == Breakdown(1, 0, 25, 0, 0)
  {
  }
}
