/**
 * A fixed calendar over integer seconds: every hour is 3600 seconds long and
 * every day has 24 of them. It stands in for `Calendar.current`, whose
 * time-zone and daylight-saving rules are not part of this model.
 */
module Clock {

  const SecondsPerHour: int := 3600
  const HoursPerDay: int := 24

  /** An instant at minute 0, second 0 of some hour. */
  predicate OnHourBoundary(t: int) {
    t % SecondsPerHour == 0
  }

  /** `Calendar.component(.hour, from:)`: the hour of the day, 0 to 23. */
  function HourOf(t: int): (h: int)
    ensures 0 <= h < HoursPerDay
  {
    (t / SecondsPerHour) % HoursPerDay
  }

  /** `Calendar.dateInterval(of: .hour, for:)?.start`: the boundary at or before `t`. */
  function StartOfHour(t: int): (s: int)
    ensures OnHourBoundary(s)
    ensures s <= t < s + SecondsPerHour
  {
    t - t % SecondsPerHour
  }

  /** The start of the current hour plus one hour. */
  function NextHourBoundary(t: int): (b: int)
    ensures OnHourBoundary(b)
    ensures t < b <= t + SecondsPerHour
  {
    StartOfHour(t) + SecondsPerHour
  }

  /** No hour boundary lies strictly between `t` and `NextHourBoundary(t)`. */
  lemma NextHourBoundaryIsLeast(t: int, c: int)
    requires OnHourBoundary(c) && t < c
    ensures NextHourBoundary(t) <= c
  {
    var q := t / SecondsPerHour;
    var p := c / SecondsPerHour;
    assert t == q * SecondsPerHour + t % SecondsPerHour;
    assert c == p * SecondsPerHour;
    assert NextHourBoundary(t) == (q + 1) * SecondsPerHour;
    assert q < p;
  }

  /** The hour slot of the next boundary is the slot after `t`'s, wrapping 23 to 0. */
  lemma NextHourBoundarySlot(t: int)
    ensures HourOf(NextHourBoundary(t)) == (HourOf(t) + 1) % HoursPerDay
    ensures HourOf(StartOfHour(t)) == HourOf(t)
  {
    var q := t / SecondsPerHour;
    assert StartOfHour(t) == q * SecondsPerHour;
    assert NextHourBoundary(t) == (q + 1) * SecondsPerHour;
    assert NextHourBoundary(t) / SecondsPerHour == q + 1;
    assert StartOfHour(t) / SecondsPerHour == q;
    DaySlotAdd(q, 1);
  }

  /** Adding `k` whole hours to a boundary lands on a boundary `k` slots later. */
  lemma AddHoursSlot(s: int, k: int)
    requires OnHourBoundary(s)
    ensures OnHourBoundary(s + k * SecondsPerHour)
    ensures HourOf(s + k * SecondsPerHour) == (HourOf(s) + k) % HoursPerDay
  {
    var q := s / SecondsPerHour;
    assert s == q * SecondsPerHour;
    assert s + k * SecondsPerHour == (q + k) * SecondsPerHour;
    assert (s + k * SecondsPerHour) / SecondsPerHour == q + k;
    DaySlotAdd(q, k);
  }

  /** Hour slots add modulo the day. */
  lemma DaySlotAdd(q: int, k: int)
    ensures (q + k) % HoursPerDay == (q % HoursPerDay + k) % HoursPerDay
  {
    var d := q / HoursPerDay;
    assert q == d * HoursPerDay + q % HoursPerDay;
    var x := q % HoursPerDay + k;
    var e := x / HoursPerDay;
    assert x == e * HoursPerDay + x % HoursPerDay;
    assert q + k == (d + e) * HoursPerDay + x % HoursPerDay;
  }
}
