/**
 * The date helpers of the calendar view. A Luxon `DateTime` is a count of
 * minutes since 1970-01-01 00:00 in the (fixed-offset) local zone, so a
 * day starts at a multiple of 1440 and day number 0 is a Thursday.
 * Month and year boundaries and label formatting come from a `Civil`
 * calendar supplied by the caller.
 */
module Dates {
  import opened Wrappers

  const MINUTES_PER_DAY := 1440

  /** The day a minute falls on (floor, also before 1970). */
  function DayNumber(t: int): int {
    t / MINUTES_PER_DAY
  }

  /** `startOf("day")`. */
  function StartOfDay(t: int): int {
    DayNumber(t) * MINUTES_PER_DAY
  }

  /** Monday = 0 … Sunday = 6; day 0 (1970-01-01) was a Thursday. */
  function Weekday(day: int): int {
    (day + 3) % 7
  }

  /** `startOf("week")`: Luxon's weeks are ISO weeks beginning on Monday. */
  function StartOfWeek(t: int): int {
    var d := DayNumber(t);
    (d - Weekday(d)) * MINUTES_PER_DAY
  }

  lemma StartOfDayBounds(t: int)
    ensures StartOfDay(t) <= t < StartOfDay(t) + MINUTES_PER_DAY
    ensures StartOfDay(t) % MINUTES_PER_DAY == 0
    ensures StartOfDay(StartOfDay(t)) == StartOfDay(t)
  {
  }

  /** Euclidean division is determined by quotient and remainder. */
  lemma DivUnique(a: int, n: int, q: int, r: int)
    requires n > 0 && 0 <= r < n && a == q * n + r
    ensures a / n == q && a % n == r
  {
    var q', r' := a / n, a % n;
    assert a == q' * n + r';
    assert (q - q') * n == r' - r;
    if q > q' {
      assert (q - q') * n >= n by {
        assert q - q' >= 1;
        MulMono(q - q', n);
      }
    } else if q < q' {
      assert (q' - q) * n >= n by {
        MulMono(q' - q, n);
      }
    }
  }

  lemma MulMono(x: int, n: int)
    requires x >= 1 && n > 0
    ensures x * n >= n
  {
  }

  /** `snapMinutes`: `Math.floor(mins / snap) * snap`; `None` is the NaN of a zero `snap`. */
  function SnapMinutes(mins: int, snap: int): Option<int> {
    if snap > 0 then Some((mins / snap) * snap)
    else if snap < 0 then Some(((-mins) / (-snap)) * snap)
    else None
  }

  /** For a positive step the snapped value is the largest multiple of it not above `mins`, and snapping twice changes nothing. */
  lemma SnapMinutesProps(mins: int, snap: int)
    requires snap > 0
    ensures SnapMinutes(mins, snap).Some?
    ensures var r := SnapMinutes(mins, snap).value;
      r % snap == 0 && r <= mins && mins - snap < r && SnapMinutes(r, snap) == Some(r)
  {
    var q := mins / snap;
    var r := q * snap;
    DivUnique(r, snap, q, 0);
  }

  /** `getDay`: the one visible day, at its start. */
  function GetDay(t: int): seq<int> {
    [StartOfDay(t)]
  }

  /** `getWeekDays`: seven days from the start of the week. */
  function GetWeekDays(t: int): seq<int> {
    seq(7, i requires 0 <= i < 7 => StartOfWeek(t) + i * MINUTES_PER_DAY)
  }

  /** `getDay` yields exactly the start of the given day. */
  lemma GetDayIsStartOfDay(t: int)
    ensures |GetDay(t)| == 1 && GetDay(t)[0] <= t < GetDay(t)[0] + MINUTES_PER_DAY
    ensures GetDay(t)[0] % MINUTES_PER_DAY == 0
  {
  }

  /** The week view is seven consecutive day starts from a Monday, and holds the given day. */
  lemma {:induction false} WeekDaysProps(t: int)
    ensures var w := GetWeekDays(t);
      && |w| == 7
      && Weekday(DayNumber(w[0])) == 0
      && (forall i :: 0 <= i < 7 ==> w[i] % MINUTES_PER_DAY == 0)
      && (forall i :: 0 <= i < 6 ==> w[i + 1] == w[i] + MINUTES_PER_DAY)
      && exists i :: 0 <= i < 7 && w[i] == StartOfDay(t)
  {
    var w := GetWeekDays(t);
    var d := DayNumber(t);
    var k := Weekday(d);
    assert StartOfWeek(t) == (d - k) * MINUTES_PER_DAY;
    assert w[0] == StartOfWeek(t) + 0 * MINUTES_PER_DAY;
    DivUnique((d - k) * MINUTES_PER_DAY, MINUTES_PER_DAY, d - k, 0);
    assert Weekday(d - k) == 0 by {
      assert (d - k + 3) == (d + 3) - (d + 3) % 7;
      assert (d + 3) - (d + 3) % 7 == ((d + 3) / 7) * 7;
    }
    forall i | 0 <= i < 7 ensures w[i] % MINUTES_PER_DAY == 0 {
      assert w[i] == (d - k) * MINUTES_PER_DAY + i * MINUTES_PER_DAY;
      assert (d - k) * MINUTES_PER_DAY + i * MINUTES_PER_DAY == (d - k + i) * MINUTES_PER_DAY;
      DivUnique(w[i], MINUTES_PER_DAY, d - k + i, 0);
    }
    assert w[k] == StartOfDay(t);
  }

  /** Month and year numbers of a day, the first day of its month, and label formatting. */
  datatype Civil = Civil(
    monthOf: int -> int,
    yearOf: int -> int,
    firstOfMonth: int -> int,
    format: (string, int) -> string)

  /** The first of a month lies up to 30 days back, in the same month and year. */
  ghost predicate Lawful(c: Civil) {
    forall d :: c.firstOfMonth(d) <= d < c.firstOfMonth(d) + 31
      && c.monthOf(c.firstOfMonth(d)) == c.monthOf(d)
      && c.yearOf(c.firstOfMonth(d)) == c.yearOf(d)
  }

  /** `getMonthCells`: 42 cells from the week of the first of the month; others' days are `null`. */
  function GetMonthCells(c: Civil, t: int): seq<Option<int>> {
    var start := StartOfWeek(c.firstOfMonth(DayNumber(t)) * MINUTES_PER_DAY);
    seq(42, i requires 0 <= i < 42 =>
      var cell := start + i * MINUTES_PER_DAY;
      if c.monthOf(DayNumber(cell)) == c.monthOf(DayNumber(t)) then Some(cell) else None)
  }

  /** A month grid has 42 cells, a cell is filled iff its day is in the month, and the first of the month is in the first row. */
  lemma MonthCellsProps(c: Civil, t: int)
    requires Lawful(c)
    ensures var cells := GetMonthCells(c, t);
      var start := StartOfWeek(c.firstOfMonth(DayNumber(t)) * MINUTES_PER_DAY);
      && |cells| == 42
      && (forall i :: 0 <= i < 42 ==>
            (cells[i].Some? <==> c.monthOf(DayNumber(start + i * MINUTES_PER_DAY)) == c.monthOf(DayNumber(t))))
      && (forall i :: 0 <= i < 42 && cells[i].Some? ==> cells[i].value == start + i * MINUTES_PER_DAY)
      && exists i :: 0 <= i < 7 && cells[i] == Some(c.firstOfMonth(DayNumber(t)) * MINUTES_PER_DAY)
  {
    var first := c.firstOfMonth(DayNumber(t));
    var m := first * MINUTES_PER_DAY;
    assert DayNumber(m) == first;
    var k := Weekday(first);
    var start := StartOfWeek(m);
    assert start + k * MINUTES_PER_DAY == m;
    assert DayNumber(start + k * MINUTES_PER_DAY) == first;
    assert GetMonthCells(c, t)[k] == Some(m);
  }

  /** `getDateRangeString`; any mode but "month" and "day" shows the week. */
  function DateRangeString(c: Civil, mode: string, t: int): string {
    if mode == "month" then c.format("MMMM yyyy", t)
    else
      var days := if mode == "day" then GetDay(t) else GetWeekDays(t);
      var first := days[0];
      var last := days[|days| - 1];
      if SameMonth(c, first, last) then c.format("MMMM yyyy", first)
      else c.format("MMM yyyy", first) + " - " + c.format("MMM yyyy", last)
  }

  /** `hasSame(other, "month")`: the same month of the same year. */
  predicate SameMonth(c: Civil, a: int, b: int) {
    c.monthOf(DayNumber(a)) == c.monthOf(DayNumber(b)) && c.yearOf(DayNumber(a)) == c.yearOf(DayNumber(b))
  }

  /** The day view always shows one "MMMM yyyy" label; the week view shows two only across a month boundary. */
  lemma DateRangeStringCases(c: Civil, mode: string, t: int)
    ensures mode == "month" ==> DateRangeString(c, mode, t) == c.format("MMMM yyyy", t)
    ensures mode == "day" ==> DateRangeString(c, mode, t) == c.format("MMMM yyyy", StartOfDay(t))
    ensures mode != "month" && mode != "day" ==>
      var w := StartOfWeek(t);
      var sunday := w + 6 * MINUTES_PER_DAY;
      DateRangeString(c, mode, t) ==
        if SameMonth(c, w, sunday) then c.format("MMMM yyyy", w)
        else c.format("MMM yyyy", w) + " - " + c.format("MMM yyyy", sunday)
  {
  }
}
