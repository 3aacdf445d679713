/** A campaign's daily calling window in a fixed-offset zone, and the next time it opens. */
module CallingWindow {
  import opened Calls
  import opened Wrappers

  const DAY := 1440 * MINUTE

  /** A minute of the day, as parsed from HH:MM. */
  type Minute = m: int | 0 <= m < 1440

  /** Zone offset and bounds as parsed; None where the text did not parse. */
  datatype Window = Window(zone: Option<int>, start: Option<Minute>, end: Option<Minute>) {
    predicate Usable() {
      zone.Some? && start.Some? && end.Some? && start != end
    }
  }

  /** Nanoseconds since local midnight. */
  function SinceMidnight(t: int, zone: int): (r: int)
    ensures 0 <= r < DAY
  {
    (t + zone) % DAY
  }

  /** Midnight in the zone is a whole number of days after the origin. */
  lemma MidnightIsWhole(t: int, zone: int)
    ensures 0 <= SinceMidnight(t, zone) < 86_400 * SECOND
    ensures (t + zone - SinceMidnight(t, zone)) % (86_400 * SECOND) == 0
  {
  }

  predicate Within(w: Window, t: int) {
    w.Usable() &&
    var minute := SinceMidnight(t, w.zone.value) / MINUTE;
    if w.start.value < w.end.value
    then minute >= w.start.value && minute < w.end.value
    else minute >= w.start.value || minute < w.end.value
  }

  function Next(w: Window, t: int): int {
    if !w.Usable() then t + 15 * MINUTE
    else
      var today := t - SinceMidnight(t, w.zone.value) + w.start.value * MINUTE;
      if today > t then today else today + DAY
  }

  /** Moving forward by less than a day wraps past midnight at most once. */
  lemma ClockMoves(t: int, d: int, zone: int)
    requires 0 <= d < DAY
    ensures var a := SinceMidnight(t, zone);
            SinceMidnight(t + d, zone) == if a + d < DAY then a + d else a + d - DAY
  {
    var x := t + zone;
    var a := x % DAY;
    assert x + d == (x / DAY) * DAY + (a + d);
    if a + d < DAY {
      assert (x + d) / DAY == x / DAY;
    } else {
      assert (x + d) / DAY == x / DAY + 1;
    }
  }

  /** The instant returned is the first one after now at which the local clock shows the
      window's start. */
  lemma NextIsNextStart(w: Window, t: int)
    requires w.Usable()
    ensures var n := Next(w, t);
            && t < n <= t + 86_400 * SECOND
            && SinceMidnight(n, w.zone.value) == w.start.value * 60 * SECOND
            && forall u :: t < u < n ==> SinceMidnight(u, w.zone.value) != w.start.value * 60 * SECOND
  {
    var n := Next(w, t);
    var zone := w.zone.value;
    if n == t + DAY {
      ClockMoves(t, DAY - 1, zone);
      ClockMoves(t + (DAY - 1), 1, zone);
    } else {
      ClockMoves(t, n - t, zone);
    }
    forall u | t < u < n
      ensures SinceMidnight(u, zone) != w.start.value * MINUTE
    {
      ClockMoves(t, u - t, zone);
    }
  }

  /** Outside the window, the next opening is inside it, less than a day away, and nothing
      before it is inside. */
  lemma NextOpens(w: Window, t: int)
    requires w.Usable() && !Within(w, t)
    ensures var n := Next(w, t);
            && t < n < t + 86_400 * SECOND
            && Within(w, n)
            && forall u :: t <= u < n ==> !Within(w, u)
  {
    var n := Next(w, t);
    var zone := w.zone.value;
    NextIsNextStart(w, t);
    forall u | t <= u < n
      ensures !Within(w, u)
    {
      ClockMoves(t, u - t, zone);
    }
  }

  /** An unusable window never opens: the call is put off by a quarter of an hour each time. */
  lemma UnusableNeverOpens(w: Window, t: int)
    requires !w.Usable()
    ensures !Within(w, t) && Next(w, t) == t + 900 * SECOND
    ensures forall u :: !Within(w, u)
  {
  }

  /** A usable window is open exactly on the half-open arc of the clock from start to end. */
  lemma WithinIsArc(w: Window, t: int)
    requires w.Usable()
    ensures var a := SinceMidnight(t, w.zone.value);
            var s, e := w.start.value * 60 * SECOND, w.end.value * 60 * SECOND;
            Within(w, t) <==> (a - s) % (86_400 * SECOND) < (e - s) % (86_400 * SECOND)
  {
    var a := SinceMidnight(t, w.zone.value);
    InMinutes(a, w.start.value);
    InMinutes(a, w.end.value);
    OnArc(a, w.start.value * 60 * SECOND, w.end.value * 60 * SECOND);
    hide SinceMidnight;
  }

  lemma OnArc(a: int, s: int, e: int)
    requires 0 <= a < DAY && 0 <= s < DAY && 0 <= e < DAY && s != e
    ensures (a - s) % (86_400 * SECOND) < (e - s) % (86_400 * SECOND) <==>
            if s < e then s <= a < e else a >= s || a < e
  {
    Wraps(a - s);
    Wraps(e - s);
  }

  lemma Wraps(x: int)
    requires -DAY < x < DAY
    ensures x % (86_400 * SECOND) == if x >= 0 then x else x + DAY
  {
  }

  lemma InMinutes(a: int, m: int)
    requires a >= 0
    ensures a / MINUTE >= m <==> a >= m * MINUTE
  {
  }
}
