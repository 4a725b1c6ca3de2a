/** Calendar arithmetic on instants, which are integer milliseconds since
    the epoch in UTC. A calendar day is the integer number of whole days
    since the epoch. */
module Calendar {

  const MsPerDay: int := 1000 * 60 * 60 * 24

  /** The instant truncated to UTC midnight, as `setUTCHours(0, 0, 0, 0)`
      does (it floors, also before 1970). */
  function Midnight(t: int): (m: int)
    ensures m <= t < m + MsPerDay
    ensures m % MsPerDay == 0
  {
    t - t % MsPerDay
  }

  /** The day number an instant falls on. */
  function DayOf(t: int): int {
    t / MsPerDay
  }

  lemma MidnightIsDayStart(t: int)
    ensures Midnight(t) == DayOf(t) * MsPerDay
  {
  }

  /** The midnight of an instant falls on the instant's own day. */
  lemma DayOfMidnight(t: int)
    ensures DayOf(Midnight(t)) == DayOf(t)
  {
    MidnightIsDayStart(t);
    DayOfShift(0, DayOf(t));
  }

  /** Two instants share a midnight exactly when they fall on the same day. */
  lemma SameMidnightIffSameDay(s: int, t: int)
    ensures Midnight(s) == Midnight(t) <==> DayOf(s) == DayOf(t)
  {
    MidnightIsDayStart(s);
    MidnightIsDayStart(t);
  }

  /** Stepping a whole day forward moves to the next day number. */
  lemma DayOfShift(t: int, k: int)
    ensures DayOf(t + k * MsPerDay) == DayOf(t) + k
  {
    var q := t / MsPerDay;
    var r := t % MsPerDay;
    assert t + k * MsPerDay == (q + k) * MsPerDay + r;
  }

  /** An instant lies in the half-open day window of `t` exactly when it
      falls on the same day as `t`. */
  lemma InDayWindow(t: int, x: int)
    ensures Midnight(t) <= x < Midnight(t) + MsPerDay <==> DayOf(x) == DayOf(t)
  {
    MidnightIsDayStart(t);
    MidnightIsDayStart(x);
  }
}
