/** The Gregorian week helpers: weeks run from Friday to Thursday; a week is anchored on
    the Friday on or before a day, shifted by whole weeks, numbered within a month, and a month
    is cut into 7-day chunks from its first day. A JS `Date` is its day: the number of days
    since 1970-01-01 in the proleptic Gregorian calendar; time of day is not modelled. */
module Utils {

  /** `getDay()`: Sunday is 0; 1970-01-01, day 0, was a Thursday. */
  function DayOfWeek(d: int): (w: int)
    ensures 0 <= w < 7
  {
    (d + 4) % 7
  }

  const Thursday: int := 4
  const Friday: int := 5

  /** The Friday on or before `d`: `d - (getDay() + 2) % 7`. */
  function FridayOnOrBefore(d: int): int
  {
    d - (DayOfWeek(d) + 2) % 7
  }

  /** It is a Friday, at most six days back, and no other Friday is. */
  lemma FridayAnchor(d: int, f: int)
    ensures DayOfWeek(FridayOnOrBefore(d)) == Friday
    ensures 0 <= d - FridayOnOrBefore(d) <= 6
    ensures DayOfWeek(f) == Friday && 0 <= d - f <= 6 ==> f == FridayOnOrBefore(d)
  {
  }

  /** A week from its first to its last day, both included. */
  datatype WeekRange = WeekRange(start: int, end: int)

  predicate InWeek(d: int, w: WeekRange) { w.start <= d <= w.end }

  /** The Friday-to-Thursday week `offset` weeks away from the one holding `today`. */
  function WeekOfOffset(today: int, offset: int): WeekRange
  {
    var f := FridayOnOrBefore(today) + 7 * offset;
    WeekRange(f, f + 6)
  }

  /** Every such week runs from a Friday to the Thursday six days later, the week of offset 0
      holds `today`, and the next offset starts the day after the previous one ends. */
  lemma {:induction false} WeekOfOffsetShape(today: int, offset: int)
    ensures var w := WeekOfOffset(today, offset);
            DayOfWeek(w.start) == Friday && DayOfWeek(w.end) == Thursday && w.end == w.start + 6
    ensures InWeek(today, WeekOfOffset(today, 0))
    ensures WeekOfOffset(today, offset + 1).start == WeekOfOffset(today, offset).end + 1
  {
    var f := FridayOnOrBefore(today);
    FridayAnchor(today, f);
    assert (f + 7 * offset + 4) % 7 == (f + 4) % 7 by {
      ShiftByWeeks(f + 4, offset);
    }
  }

  lemma ShiftByWeeks(x: int, k: int)
    ensures (x + 7 * k) % 7 == x % 7
  {
    var q := x / 7;
    assert x + 7 * k == 7 * (q + k) + x % 7;
    SplitBy7(q + k, x % 7);
  }

  lemma SplitBy7(a: int, r: int)
    requires 0 <= r < 7
    ensures (7 * a + r) / 7 == a && (7 * a + r) % 7 == r
  {
  }

  /** `getWeekByOffset(offset)`: the Friday on or before today, moved by `offset` weeks, and the
      Thursday six days after it. */
  method GetWeekByOffset(today: int, offset: int) returns (w: WeekRange)
    ensures w == WeekOfOffset(today, offset)
    ensures DayOfWeek(w.start) == Friday && DayOfWeek(w.end) == Thursday
  {
    var friday := today;
    friday := friday - (DayOfWeek(today) + 2) % 7;
    friday := friday + offset * 7;
    var thursday := friday;
    thursday := thursday + 6;
    w := WeekRange(friday, thursday);
    WeekOfOffsetShape(today, offset);
  }

  /** `getCurrentWeek()` takes no offset and is the week of offset 0, which holds today. */
  method GetCurrentWeek(today: int) returns (w: WeekRange)
    ensures w == WeekOfOffset(today, 0)
    ensures InWeek(today, w) && DayOfWeek(w.start) == Friday
  {
    var friday := today;
    friday := friday - (DayOfWeek(today) + 2) % 7;
    var thursday := friday;
    thursday := thursday + 6;
    w := WeekRange(friday, thursday);
    WeekOfOffsetShape(today, 0);
  }

  // The proleptic Gregorian calendar, months numbered 1 to 12.

  predicate IsLeapYear(y: int)
  {
    y % 4 == 0 && (y % 100 != 0 || y % 400 == 0)
  }

  function DaysInMonth(y: int, m: int): (n: int)
    requires 1 <= m <= 12
    ensures 28 <= n <= 31
    ensures n == 29 <==> m == 2 && IsLeapYear(y)
  {
    if m == 2 then (if IsLeapYear(y) then 29 else 28)
    else if m == 4 || m == 6 || m == 9 || m == 11 then 30
    else 31
  }

  /** A date of the calendar; `month` is `getMonth() + 1`. */
  datatype CivilDate = CivilDate(year: int, month: int, day: int)

  predicate ValidDate(g: CivilDate)
  {
    1 <= g.month <= 12 && 1 <= g.day <= DaysInMonth(g.year, g.month)
  }

  /** The leap years from year 0 up to, not including, `y`. */
  function LeapYearsBefore(y: int): int
  {
    (y + 3) / 4 - (y + 99) / 100 + (y + 399) / 400
  }

  lemma LeapYearsStep(y: int)
    ensures LeapYearsBefore(y + 1) == LeapYearsBefore(y) + (if IsLeapYear(y) then 1 else 0)
  {
    StepBy(y, 4, 3);
    StepBy(y, 100, 99);
    StepBy(y, 400, 399);
    DivisibilityChain(y);
    var i4 := if y % 4 == 0 then 1 else 0;
    var i100 := if y % 100 == 0 then 1 else 0;
    var i400 := if y % 400 == 0 then 1 else 0;
    assert (if IsLeapYear(y) then 1 else 0) == i4 - i100 + i400;
  }

  /** A multiple of 400 is a multiple of 100, and a multiple of 100 a multiple of 4. */
  lemma DivisibilityChain(y: int)
    ensures y % 400 == 0 ==> y % 100 == 0
    ensures y % 100 == 0 ==> y % 4 == 0
  {
    if y % 400 == 0 {
      var q := y / 400;
      assert y == 100 * (4 * q);
      DivSplit(4 * q, 0, 100);
    }
    if y % 100 == 0 {
      var q := y / 100;
      assert y == 4 * (25 * q);
      DivSplit(25 * q, 0, 4);
    }
  }

  /** Adding one to `y + c` moves its quotient by `n` exactly when `y` is a multiple of `n`. */
  lemma StepBy(y: int, n: int, c: int)
    requires n == 4 || n == 100 || n == 400
    requires c == n - 1
    ensures (y + c + 1) / n == (y + c) / n + (if y % n == 0 then 1 else 0)
  {
    if n == 4 {
      var q, r := y / 4, y % 4;
      StepAt(y, 4, q, r);
    } else if n == 100 {
      var q, r := y / 100, y % 100;
      StepAt(y, 100, q, r);
    } else {
      var q, r := y / 400, y % 400;
      StepAt(y, 400, q, r);
    }
  }

  /** The step for `y == n * q + r`, by the quotients of both sides. */
  lemma StepAt(y: int, n: int, q: int, r: int)
    requires n == 4 || n == 100 || n == 400
    requires y == n * q + r && 0 <= r < n
    ensures (y + n) / n == (y + n - 1) / n + (if r == 0 then 1 else 0)
  {
    if r == 0 {
      assert y + n == n * (q + 1) + 0;
      assert y + n - 1 == n * q + (n - 1);
      DivSplit(q + 1, 0, n);
      DivSplit(q, n - 1, n);
    } else {
      assert y + n == n * (q + 1) + r;
      assert y + n - 1 == n * (q + 1) + (r - 1);
      DivSplit(q + 1, r, n);
      DivSplit(q + 1, r - 1, n);
    }
  }

  lemma DivSplit(a: int, r: int, n: int)
    requires n == 4 || n == 100 || n == 400
    requires 0 <= r < n
    ensures (n * a + r) / n == a
  {
    if n == 4 {
      assert (4 * a + r) / 4 == a;
    } else if n == 100 {
      assert (100 * a + r) / 100 == a;
    } else {
      assert (400 * a + r) / 400 == a;
    }
  }

  function DaysBeforeMonth(y: int, m: int): int
    requires 1 <= m <= 13
    decreases m
  {
    if m == 1 then 0 else DaysBeforeMonth(y, m - 1) + DaysInMonth(y, m - 1)
  }

  lemma DaysBeforeDecember(y: int)
    ensures DaysBeforeMonth(y, 12) == 334 + (if IsLeapYear(y) then 1 else 0)
  {
    assert DaysBeforeMonth(y, 3) == 59 + (if IsLeapYear(y) then 1 else 0);
    assert DaysBeforeMonth(y, 6) == DaysBeforeMonth(y, 3) + 92;
    assert DaysBeforeMonth(y, 9) == DaysBeforeMonth(y, 6) + 92;
    assert DaysBeforeMonth(y, 12) == DaysBeforeMonth(y, 9) + 91;
  }

  /** The day number of a date: days since 1970-01-01. */
  function DayNumber(g: CivilDate): int
    requires 1 <= g.month <= 12
  {
    365 * g.year + LeapYearsBefore(g.year) + DaysBeforeMonth(g.year, g.month) + g.day - 1 - 719528
  }

  /** Day 0 is 1970-01-01, and 2024-01-01 was a Monday. */
  lemma DayNumberAnchors()
    ensures DayNumber(CivilDate(1970, 1, 1)) == 0
    ensures DayOfWeek(DayNumber(CivilDate(2024, 1, 1))) == 1
  {
    assert LeapYearsBefore(1970) == 478;
    assert LeapYearsBefore(2024) == 491;
  }

  /** `new Date(year, month + 1, 0)` is the last day of the month: the day before the first
      of the next month, across the end of the year too. */
  lemma {:induction false} LastDayPrecedesNextMonth(y: int, m: int)
    requires 1 <= m <= 12
    ensures var last := DayNumber(CivilDate(y, m, DaysInMonth(y, m)));
            if m < 12 then DayNumber(CivilDate(y, m + 1, 1)) == last + 1
            else DayNumber(CivilDate(y + 1, 1, 1)) == last + 1
  {
    if m == 12 {
      DaysBeforeDecember(y);
      LeapYearsStep(y);
    }
  }

  /** `getWeekNumber(date)`: the days from the Friday on or before the first of the date's
      month, in whole weeks, plus one. The date lies in the week it names, the `n`-th
      Friday-to-Thursday week counted from the one holding the first, and from the first of
      the month on the number is at least 1. */
  function GetWeekNumber(date: CivilDate): (n: int)
    requires 1 <= date.month <= 12
    ensures InWeek(DayNumber(date), WeekOfOffset(DayNumber(date.(day := 1)), n - 1))
    ensures date.day >= 1 ==> n >= 1
  {
    var startOfMonth := DayNumber(date.(day := 1));
    var friday := FridayOnOrBefore(startOfMonth);
    FridayAnchor(startOfMonth, startOfMonth);
    assert DayNumber(date) == startOfMonth + date.day - 1;
    var diffDays := DayNumber(date) - friday;
    diffDays / 7 + 1
  }

  /** Later days of the month have the same or a later week number. */
  lemma {:induction false} WeekNumberMonotone(a: CivilDate, b: CivilDate)
    requires ValidDate(a) && ValidDate(b) && a.year == b.year && a.month == b.month && a.day <= b.day
    ensures GetWeekNumber(a) <= GetWeekNumber(b)
  {
    var first := DayNumber(a.(day := 1));
    assert b.(day := 1) == a.(day := 1);
    FridayAnchor(first, first);
    var da := DayNumber(a) - FridayOnOrBefore(first);
    var db := DayNumber(b) - FridayOnOrBefore(first);
    assert 0 <= da <= db;
    DivMonotone(da, db);
  }

  lemma DivMonotone(x: int, y: int)
    requires 0 <= x <= y
    ensures x / 7 <= y / 7
  {
  }

  /** `getTotalWeeksInMonth(date)`: the week number of the last day of the date's month,
      which is from 4 to 6. */
  function GetTotalWeeksInMonth(date: CivilDate): (n: int)
    requires 1 <= date.month <= 12
    ensures 4 <= n <= 6
  {
    var lastDay := date.(day := DaysInMonth(date.year, date.month));
    var first := DayNumber(date.(day := 1));
    FridayAnchor(first, first);
    assert lastDay.(day := 1) == date.(day := 1);
    assert DayNumber(lastDay) - FridayOnOrBefore(first)
           == DaysInMonth(date.year, date.month) - 1 + (first - FridayOnOrBefore(first));
    GetWeekNumber(lastDay)
  }

  /** No day of the month has a week number above the month's total. */
  lemma {:induction false} WeekNumberAtMostTotal(date: CivilDate)
    requires ValidDate(date)
    ensures 1 <= GetWeekNumber(date) <= GetTotalWeeksInMonth(date)
  {
    WeekNumberMonotone(date, date.(day := DaysInMonth(date.year, date.month)));
  }

  /** `getWeeksOfMonth(date)`: 7-day chunks from the first of the month while the chunk starts
      on or before the last day. There are ceil(days / 7) of them, the `k`-th starts `7k` days
      after the first and ends six days after its start, the last one reaches the end of the
      month, and every day of the month is in exactly one chunk. */
  method GetWeeksOfMonth(date: CivilDate) returns (weeks: seq<WeekRange>)
    requires 1 <= date.month <= 12
    ensures var first, days := DayNumber(date.(day := 1)), DaysInMonth(date.year, date.month);
            && |weeks| == (days + 6) / 7
            && (forall k :: 0 <= k < |weeks| ==> weeks[k] == WeekRange(first + 7 * k, first + 7 * k + 6))
            && (forall k :: 0 <= k < |weeks| ==> weeks[k].start <= first + days - 1)
            && weeks[|weeks| - 1].end >= first + days - 1
            && (forall d :: first <= d < first + days ==> 0 <= ChunkIndex(first, d) < |weeks| && InWeek(d, weeks[ChunkIndex(first, d)]))
            && (forall k, d :: 0 <= k < |weeks| && InWeek(d, weeks[k]) ==> k == ChunkIndex(first, d))
  {
    var firstDay := DayNumber(date.(day := 1));
    var lastDay := DayNumber(date.(day := DaysInMonth(date.year, date.month)));
    weeks := [];
    var start := firstDay;
    while start <= lastDay
      invariant start == firstDay + 7 * |weeks|
      invariant start <= lastDay + 7
      invariant forall k :: 0 <= k < |weeks| ==> weeks[k] == WeekRange(firstDay + 7 * k, firstDay + 7 * k + 6)
      invariant forall k :: 0 <= k < |weeks| ==> weeks[k].start <= lastDay
      decreases lastDay + 1 - start
    {
      var end := start + 6;
      weeks := weeks + [WeekRange(start, end)];
      start := end + 1;
    }
    ChunkCount(lastDay - firstDay + 1, |weeks|);
    forall d | firstDay <= d <= lastDay
      ensures 0 <= ChunkIndex(firstDay, d) < |weeks| && InWeek(d, weeks[ChunkIndex(firstDay, d)])
    {
      ChunkOf(d - firstDay, |weeks|);
    }
    forall k, d | 0 <= k < |weeks| && InWeek(d, weeks[k])
      ensures k == ChunkIndex(firstDay, d)
    {
      SplitBy7(k, d - firstDay - 7 * k);
      assert d - firstDay == 7 * k + (d - firstDay - 7 * k);
    }
  }

  /** The chunk of the month that should hold day `d`. */
  function ChunkIndex(first: int, d: int): int
  {
    (d - first) / 7
  }

  lemma ChunkCount(days: int, n: int)
    requires 1 <= days && 7 * n > days - 1 && 7 * (n - 1) <= days - 1
    ensures n == (days + 6) / 7
  {
    SplitBy7(n - 1, days - 1 - 7 * (n - 1));
    assert days + 6 == 7 * n + (days - 1 - 7 * (n - 1));
    SplitBy7(n, days - 1 - 7 * (n - 1));
  }

  lemma ChunkOf(x: int, n: int)
    requires 0 <= x < 7 * n
    ensures 0 <= x / 7 < n && 7 * (x / 7) <= x <= 7 * (x / 7) + 6
  {
  }

  /** The Hijri month names, in order. */
  const HijriMonths: seq<string> := [
    "محرم", "صفر", "ربيع الأول", "ربيع الثاني", "جمادى الأولى", "جمادى الآخرة",
    "رجب", "شعبان", "رمضان", "شوال", "ذو القعدة", "ذو الحجة"
  ]

  /** `getHijriMonth()`: the name at today's Gregorian month index (`getMonth()`, 0 to 11)
      modulo 12. It has no parameter, so the name depends on the Gregorian month of the clock
      only: Gregorian January is always named "محرم". */
  function GetHijriMonth(today: CivilDate): (name: string)
    requires 1 <= today.month <= 12
    ensures name in HijriMonths
    ensures name == HijriMonths[today.month - 1]
  {
    var i := (today.month - 1) % 12;
    assert i == today.month - 1 by {
      SplitBy12(today.month - 1);
    }
    HijriMonths[i]
  }

  lemma SplitBy12(r: int)
    requires 0 <= r < 12
    ensures r % 12 == r
  {
  }

  /** The twelve names differ, so each Gregorian month gets its own name and the names of two
      days agree exactly when their Gregorian months do. */
  lemma {:induction false} HijriMonthNamesDistinct(a: CivilDate, b: CivilDate)
    requires 1 <= a.month <= 12 && 1 <= b.month <= 12
    ensures GetHijriMonth(a) == GetHijriMonth(b) <==> a.month == b.month
  {
    if a.month != b.month {
      var i, j := a.month - 1, b.month - 1;
      assert HijriMonths[i] != HijriMonths[j] by {
        NamesDiffer(i, j);
      }
    }
  }

  lemma NamesDiffer(i: int, j: int)
    requires 0 <= i < 12 && 0 <= j < 12 && i != j
    ensures HijriMonths[i] != HijriMonths[j]
  {
    // Each name has a distinct (length, first letter, last letter) triple.
    var lens := [4, 3, 10, 11, 12, 12, 3, 5, 5, 4, 9, 8];
    assert forall k :: 0 <= k < 12 ==> |HijriMonths[k]| == lens[k];
    if |HijriMonths[i]| == |HijriMonths[j]| {
      assert HijriMonths[i][|HijriMonths[i]| - 1] != HijriMonths[j][|HijriMonths[j]| - 1]
          || HijriMonths[i][0] != HijriMonths[j][0];
    }
  }
}
