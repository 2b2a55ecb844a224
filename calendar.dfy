/** Dates of the proleptic Gregorian calendar, as Python's datetime.date
    handles them: day numbers (toordinal/fromordinal), weekdays, adding a
    number of days, and the comparison of two dates. */
module Calendar {
  import opened Exceptions
  import opened Text

  const MaxYear := 9999
  /** The day number of 9999-12-31, the last date datetime.date can hold. */
  const MaxOrdinal := 3652059

  datatype Date = Date(year: int, month: int, day: int)

  predicate IsLeapYear(y: int) {
    y % 4 == 0 && (y % 100 != 0 || y % 400 == 0)
  }

  function DaysInMonth(y: int, m: int): (n: int)
    requires 1 <= m <= 12
    ensures 28 <= n <= 31
    ensures n == 29 <==> m == 2 && IsLeapYear(y)
  {
    if m == 2 then (if IsLeapYear(y) then 29 else 28)
    else if m == 4 || m == 6 || m == 9 || m == 11 then 30
    else 31
  }

  function DaysInYear(y: int): int {
    if IsLeapYear(y) then 366 else 365
  }

  /** A day of the calendar from year 1 on, with no upper bound on the year. */
  predicate IsCalendarDay(d: Date) {
    d.year >= 1 && 1 <= d.month <= 12 && 1 <= d.day <= DaysInMonth(d.year, d.month)
  }

  /** A date that datetime.date can represent (years 1 to 9999). */
  predicate IsValid(d: Date) {
    IsCalendarDay(d) && d.year <= MaxYear
  }

  /** Days in the years before year y. */
  function DaysBeforeYear(y: int): (n: int)
    requires y >= 1
    ensures n >= 365 * (y - 1)
  {
    var p := y - 1;
    p * 365 + p / 4 - p / 100 + p / 400
  }

  /** Days in the months of year y before month m. */
  function DaysBeforeMonth(y: int, m: int): int
    requires 1 <= m <= 12
  {
    var before :=
      if m == 1 then 0 else if m == 2 then 31 else if m == 3 then 59
      else if m == 4 then 90 else if m == 5 then 120 else if m == 6 then 151
      else if m == 7 then 181 else if m == 8 then 212 else if m == 9 then 243
      else if m == 10 then 273 else if m == 11 then 304 else 334;
    before + (if m > 2 && IsLeapYear(y) then 1 else 0)
  }

  /** The day number of d, with 0001-01-01 as day 1 (date.toordinal). */
  function Ordinal(d: Date): (o: int)
    requires IsCalendarDay(d)
    ensures o >= 1
  {
    DaysBeforeYear(d.year) + DaysBeforeMonth(d.year, d.month) + d.day
  }

  /** The day after d. */
  function NextDay(d: Date): (r: Date)
    requires IsCalendarDay(d)
    ensures IsCalendarDay(r)
    ensures Ordinal(r) == Ordinal(d) + 1
  {
    if d.day < DaysInMonth(d.year, d.month) then
      Date(d.year, d.month, d.day + 1)
    else if d.month < 12 then
      MonthStep(d.year, d.month);
      Date(d.year, d.month + 1, 1)
    else
      YearStep(d.year);
      Date(d.year + 1, 1, 1)
  }

  /** The date with day number n (date.fromordinal). */
  function FromOrdinal(n: int): (d: Date)
    requires n >= 1
    ensures IsCalendarDay(d)
    ensures Ordinal(d) == n
    decreases n
  {
    if n == 1 then Date(1, 1, 1) else NextDay(FromOrdinal(n - 1))
  }

  /** The weekday of d, Monday being 0 and Sunday 6 (date.weekday). */
  function Weekday(d: Date): (w: int)
    requires IsCalendarDay(d)
    ensures 0 <= w < 7
  {
    (Ordinal(d) + 6) % 7
  }

  /** d + timedelta(k): the date k days later (earlier when k < 0), or
      OverflowError when that leaves the years 1 to 9999. */
  function AddDays(d: Date, k: int): (r: Result<Date>)
    requires IsValid(d)
    ensures r.Ok? <==> 1 <= Ordinal(d) + k <= MaxOrdinal
    ensures r.Ok? ==> IsValid(r.value) && Ordinal(r.value) == Ordinal(d) + k
    ensures r.Err? ==> r.error == OverflowError
  {
    var o := Ordinal(d) + k;
    if 1 <= o <= MaxOrdinal then
      var e := FromOrdinal(o);
      OrdinalBoundsYear(e);
      Ok(e)
    else
      Err(OverflowError)
  }

  /** a < b as datetime.date compares them: by (year, month, day). */
  predicate Before(a: Date, b: Date) {
    a.year < b.year ||
    (a.year == b.year && (a.month < b.month || (a.month == b.month && a.day < b.day)))
  }

  /** a <= b for datetime.date. */
  predicate NotAfter(a: Date, b: Date) {
    a == b || Before(a, b)
  }

  /** d.strftime("%Y.%m.%d"): the year in four digits, then the month and
      the day in two, separated by dots. */
  function FormatYmd(d: Date): (s: string)
    requires IsValid(d)
    ensures |s| == 10 && s[4] == '.' && s[7] == '.'
    ensures AllDigits(s[..4]) && AllDigits(s[5..7]) && AllDigits(s[8..])
    ensures Value(s[..4]) == d.year && Value(s[5..7]) == d.month && Value(s[8..]) == d.day
  {
    var y, m, dd := Pad(d.year, 4), Pad(d.month, 2), Pad(d.day, 2);
    ValuePad(d.year, 4);
    ValuePad(d.month, 2);
    ValuePad(d.day, 2);
    var s := y + "." + m + "." + dd;
    assert s[..4] == y && s[5..7] == m && s[8..] == dd;
    s
  }

  // ---------------------------------------------------------------------
  // Lemmas

  /** Different dates are written differently: the text names the date. */
  lemma FormatYmdInjective(a: Date, b: Date)
    requires IsValid(a) && IsValid(b)
    requires FormatYmd(a) == FormatYmd(b)
    ensures a == b
  {
    var s := FormatYmd(a);
    assert a.year == Value(s[..4]) == b.year;
    assert a.month == Value(s[5..7]) == b.month;
  }

  lemma MonthStep(y: int, m: int)
    requires 1 <= m < 12
    ensures DaysBeforeMonth(y, m + 1) == DaysBeforeMonth(y, m) + DaysInMonth(y, m)
  {
  }

  lemma YearStep(y: int)
    requires y >= 1
    ensures DaysBeforeYear(y + 1) == DaysBeforeYear(y) + DaysInYear(y)
    ensures DaysBeforeMonth(y, 12) + DaysInMonth(y, 12) == DaysInYear(y)
  {
    var p := y - 1;
    DivStep4(p);
    DivStep100(p);
    DivStep400(p);
    LeapCount(y);
  }

  /** Leap years by the three divisibility counts. */
  lemma LeapCount(y: int)
    ensures (if y % 4 == 0 then 1 else 0) - (if y % 100 == 0 then 1 else 0) + (if y % 400 == 0 then 1 else 0)
            == if IsLeapYear(y) then 1 else 0
  {
    if y % 400 == 0 {
      Div400Div100(y);
      Div100Div4(y);
    } else if y % 100 == 0 {
      Div100Div4(y);
    }
  }

  lemma Div400Div100(y: int)
    requires y % 400 == 0
    ensures y % 100 == 0
  {
    var q := y / 400;
    assert y == 100 * (4 * q);
  }

  lemma Div100Div4(y: int)
    requires y % 100 == 0
    ensures y % 4 == 0
  {
    var q := y / 100;
    assert y == 4 * (25 * q);
  }

  /** The count of multiples of 4 (of 100, of 400) up to p grows by one
      exactly at a multiple. */
  lemma DivStep4(p: int)
    requires p >= 0
    ensures (p + 1) / 4 == p / 4 + (if (p + 1) % 4 == 0 then 1 else 0)
  {
  }

  lemma DivStep100(p: int)
    requires p >= 0
    ensures (p + 1) / 100 == p / 100 + (if (p + 1) % 100 == 0 then 1 else 0)
  {
  }

  lemma DivStep400(p: int)
    requires p >= 0
    ensures (p + 1) / 400 == p / 400 + (if (p + 1) % 400 == 0 then 1 else 0)
  {
  }

  lemma {:induction false} DaysBeforeYearMonotone(a: int, b: int)
    requires 1 <= a <= b
    ensures DaysBeforeYear(a) + 365 * (b - a) <= DaysBeforeYear(b)
    decreases b - a
  {
    if a < b {
      YearStep(a);
      DaysBeforeYearMonotone(a + 1, b);
    }
  }

  /** A date lies within its own year. */
  lemma WithinYear(d: Date)
    requires IsCalendarDay(d)
    ensures DaysBeforeYear(d.year) < Ordinal(d) <= DaysBeforeYear(d.year + 1)
  {
    YearStep(d.year);
  }

  /** The day numbers up to MaxOrdinal are exactly the dates of years 1 to 9999. */
  lemma OrdinalBoundsYear(d: Date)
    requires IsCalendarDay(d)
    ensures IsValid(d) <==> Ordinal(d) <= MaxOrdinal
  {
    WithinYear(d);
    if d.year <= MaxYear {
      DaysBeforeYearMonotone(d.year + 1, MaxYear + 1);
    } else {
      DaysBeforeYearMonotone(MaxYear + 1, d.year);
    }
  }

  /** Comparing dates as datetime.date does agrees with comparing day numbers. */
  lemma {:induction false} BeforeIsOrdinalLess(a: Date, b: Date)
    requires IsCalendarDay(a) && IsCalendarDay(b)
    ensures Before(a, b) <==> Ordinal(a) < Ordinal(b)
  {
    if Before(a, b) {
      OrdinalLess(a, b);
    } else if a != b {
      assert Before(b, a);
      OrdinalLess(b, a);
    }
  }

  lemma OrdinalLess(a: Date, b: Date)
    requires IsCalendarDay(a) && IsCalendarDay(b) && Before(a, b)
    ensures Ordinal(a) < Ordinal(b)
  {
    if a.year < b.year {
      WithinYear(a);
      WithinYear(b);
      DaysBeforeYearMonotone(a.year + 1, b.year);
    }
  }

  /** Two dates with the same day number are the same date. */
  lemma OrdinalInjective(a: Date, b: Date)
    requires IsCalendarDay(a) && IsCalendarDay(b)
    requires Ordinal(a) == Ordinal(b)
    ensures a == b
  {
    BeforeIsOrdinalLess(a, b);
    BeforeIsOrdinalLess(b, a);
  }

  /** fromordinal undoes toordinal. */
  lemma FromOrdinalOrdinal(d: Date)
    requires IsCalendarDay(d)
    ensures Ordinal(d) >= 1 && FromOrdinal(Ordinal(d)) == d
  {
    WithinYear(d);
    OrdinalInjective(FromOrdinal(Ordinal(d)), d);
  }

  /** Adding k days moves the weekday k steps on, modulo 7. */
  lemma AddDaysWeekday(d: Date, k: int)
    requires IsValid(d) && AddDays(d, k).Ok?
    ensures Weekday(AddDays(d, k).value) == (Weekday(d) + k) % 7
  {
    ShiftMod7(Ordinal(d) + 6, k);
  }

  lemma ShiftMod7(x: int, k: int)
    ensures (x + k) % 7 == (x % 7 + k) % 7
  {
    var q := x / 7;
    assert x == 7 * q + x % 7;
    assert x + k == 7 * q + (x % 7 + k);
  }

  /** a <= b as datetime.date compares them agrees with comparing day numbers. */
  lemma NotAfterIsOrdinalAtMost(a: Date, b: Date)
    requires IsCalendarDay(a) && IsCalendarDay(b)
    ensures NotAfter(a, b) <==> Ordinal(a) <= Ordinal(b)
  {
    BeforeIsOrdinalLess(a, b);
    if Ordinal(a) == Ordinal(b) {
      OrdinalInjective(a, b);
    }
  }

  /** 9999-12-31, the last date, is a Friday. */
  lemma LastDayIsFriday()
    ensures IsValid(Date(MaxYear, 12, 31))
    ensures Ordinal(Date(MaxYear, 12, 31)) == MaxOrdinal
    ensures Weekday(Date(MaxYear, 12, 31)) == 4
  {
  }

  /** Adding one day gives the next calendar day. */
  lemma AddOneDay(d: Date)
    requires IsValid(d) && AddDays(d, 1).Ok?
    ensures AddDays(d, 1).value == NextDay(d)
  {
    OrdinalInjective(AddDays(d, 1).value, NextDay(d));
  }
}
