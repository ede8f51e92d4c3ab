/** Calendar dates in ISO text and the whole days between them. */
module Calendar {
  import opened Text

  datatype Date = Date(year: nat, month: nat, day: nat)

  predicate Leap(y: nat) {
    y % 4 == 0 && (y % 100 != 0 || y % 400 == 0)
  }

  function DaysInMonth(y: nat, m: nat): nat
    requires 1 <= m <= 12
  {
    if m == 2 then (if Leap(y) then 29 else 28)
    else if m == 4 || m == 6 || m == 9 || m == 11 then 30
    else 31
  }

  predicate Valid(d: Date) {
    1 <= d.month <= 12 && 1 <= d.day <= DaysInMonth(d.year, d.month)
  }

  function DaysBeforeMonth(y: nat, m: nat): nat
    requires 1 <= m <= 12
  {
    if m == 1 then 0 else DaysBeforeMonth(y, m - 1) + DaysInMonth(y, m - 1)
  }

  function DaysBeforeYear(y: nat): int {
    365 * y + (y + 3) / 4 - (y + 99) / 100 + (y + 399) / 400
  }

  /** The position of a day in the proleptic Gregorian calendar. */
  function DayNumber(y: nat, m: nat, d: nat): int
    requires 1 <= m <= 12
  {
    DaysBeforeYear(y) + DaysBeforeMonth(y, m) + d
  }

  /** UTC dates built from a year below 100 fall in the twentieth century. */
  function UtcYear(y: nat): nat {
    if y <= 99 then 1900 + y else y
  }

  function UtcDay(d: Date): int
    requires 1 <= d.month <= 12
  {
    DayNumber(UtcYear(d.year), d.month, d.day)
  }

  // ---- The independent reading: counting days one at a time ---------------------------------

  function NextDay(d: Date): Date
    requires Valid(d)
  {
    if d.day < DaysInMonth(d.year, d.month) then Date(d.year, d.month, d.day + 1)
    else if d.month < 12 then Date(d.year, d.month + 1, 1)
    else Date(d.year + 1, 1, 1)
  }

  function AfterDays(d: Date, n: nat): (r: Date)
    requires Valid(d)
    ensures Valid(r) && r.year >= d.year
  {
    if n == 0 then d else NextDay(AfterDays(d, n - 1))
  }

  lemma MonthStarts(y: nat)
    ensures var leap := if Leap(y) then 1 else 0;
            && DaysBeforeMonth(y, 3) == 59 + leap
            && DaysBeforeMonth(y, 6) == 151 + leap
            && DaysBeforeMonth(y, 9) == 243 + leap
            && DaysBeforeMonth(y, 12) == 334 + leap
  {
    assert DaysBeforeMonth(y, 2) == 31;
    assert DaysBeforeMonth(y, 4) == DaysBeforeMonth(y, 3) + 31;
    assert DaysBeforeMonth(y, 5) == DaysBeforeMonth(y, 4) + 30;
    assert DaysBeforeMonth(y, 7) == DaysBeforeMonth(y, 6) + 30;
    assert DaysBeforeMonth(y, 8) == DaysBeforeMonth(y, 7) + 31;
    assert DaysBeforeMonth(y, 10) == DaysBeforeMonth(y, 9) + 30;
    assert DaysBeforeMonth(y, 11) == DaysBeforeMonth(y, 10) + 31;
  }

  lemma YearLength(y: nat)
    ensures DaysBeforeMonth(y, 12) + 31 == if Leap(y) then 366 else 365
    ensures DaysBeforeYear(y + 1) == DaysBeforeYear(y) + (if Leap(y) then 366 else 365)
  {
    MonthStarts(y);
    YearFormulaStep(y);
  }

  lemma YearFormulaStep(y: nat)
    ensures DaysBeforeYear(y + 1) == DaysBeforeYear(y) + (if Leap(y) then 366 else 365)
  {
    assert (y + 4) / 4 - (y + 3) / 4 == if y % 4 == 0 then 1 else 0;
    assert (y + 100) / 100 - (y + 99) / 100 == if y % 100 == 0 then 1 else 0;
    assert (y + 400) / 400 - (y + 399) / 400 == if y % 400 == 0 then 1 else 0;
  }

  lemma FourthYears(y: nat)
    ensures (y + 3) / 4 == (y - 1) / 4 + 1
    ensures (y + 3) / 4 == y / 4 + (if y % 4 == 0 then 0 else 1)
  {
  }

  lemma HundredthYears(y: nat)
    ensures (y + 99) / 100 == (y - 1) / 100 + 1
    ensures (y + 99) / 100 == y / 100 + (if y % 100 == 0 then 0 else 1)
  {
  }

  lemma FourHundredthYears(y: nat)
    ensures (y + 399) / 400 == (y - 1) / 400 + 1
    ensures (y + 399) / 400 == y / 400 + (if y % 400 == 0 then 0 else 1)
  {
  }

  lemma MultiplesNest(y: nat)
    ensures y % 100 == 0 ==> y % 4 == 0
    ensures y % 400 == 0 ==> y % 100 == 0
  {
    if y % 100 == 0 {
      assert y == 4 * (25 * (y / 100));
    }
    if y % 400 == 0 {
      assert y == 100 * (4 * (y / 400));
    }
  }

  /** How often the three rules have applied before year `y`, rounded up and rounded down. */
  lemma LeapBalance(y: nat)
    ensures DaysBeforeYear(y) == 365 * y + (y - 1) / 4 - (y - 1) / 100 + (y - 1) / 400 + 1
    ensures DaysBeforeYear(y) + (if Leap(y) then 1 else 0) == 365 * y + y / 4 - y / 100 + y / 400 + 1
  {
    FourthYears(y);
    HundredthYears(y);
    FourHundredthYears(y);
    MultiplesNest(y);
    Balance(y % 4 == 0, y % 100 == 0, y % 400 == 0);
  }

  lemma Balance(fourth: bool, hundredth: bool, fourHundredth: bool)
    requires (hundredth ==> fourth) && (fourHundredth ==> hundredth)
    ensures (if fourth then 0 else 1) - (if hundredth then 0 else 1) + (if fourHundredth then 0 else 1)
            + (if fourth && (!hundredth || fourHundredth) then 1 else 0) == 1
  {
  }

  lemma MonthsFromMarch(y: nat, m: nat)
    requires 1 <= m <= 12
    ensures DaysBeforeMonth(y, m) ==
            if m <= 2 then 31 * (m - 1) else 59 + (if Leap(y) then 1 else 0) + (153 * (m - 3) + 2) / 5
  {
    MonthStarts(y);
    assert DaysBeforeMonth(y, 2) == 31;
    assert DaysBeforeMonth(y, 4) == DaysBeforeMonth(y, 3) + 31;
    assert DaysBeforeMonth(y, 5) == DaysBeforeMonth(y, 4) + 30;
    assert DaysBeforeMonth(y, 7) == DaysBeforeMonth(y, 6) + 30;
    assert DaysBeforeMonth(y, 8) == DaysBeforeMonth(y, 7) + 31;
    assert DaysBeforeMonth(y, 10) == DaysBeforeMonth(y, 9) + 30;
    assert DaysBeforeMonth(y, 11) == DaysBeforeMonth(y, 10) + 31;
  }

  /**
   The Gregorian calendar in closed form: years begin in March, so that the leap day is their last and five months
   take 153 days; every fourth year has one, but of the hundredth ones only each fourth.
   */
  lemma DayNumberIsGregorian(y: nat, m: nat, d: nat)
    requires 1 <= m <= 12
    ensures var z, k := if m <= 2 then y - 1 else y, if m <= 2 then m + 9 else m - 3;
            DayNumber(y, m, d) == 365 * z + z / 4 - z / 100 + z / 400 + (153 * k + 2) / 5 + 60 + d
  {
    LeapBalance(y);
    MonthsFromMarch(y, m);
  }

  lemma NextDayIsOneLater(d: Date)
    requires Valid(d)
    ensures var n := NextDay(d); DayNumber(n.year, n.month, n.day) == DayNumber(d.year, d.month, d.day) + 1
  {
    YearLength(d.year);
  }

  lemma {:induction false} AfterDaysIsLaterBy(d: Date, n: nat)
    requires Valid(d)
    ensures var r := AfterDays(d, n); DayNumber(r.year, r.month, r.day) == DayNumber(d.year, d.month, d.day) + n
  {
    if n > 0 {
      AfterDaysIsLaterBy(d, n - 1);
      NextDayIsOneLater(AfterDays(d, n - 1));
    }
  }

  /** Earlier by year, then month, then day. */
  predicate Before(a: Date, b: Date) {
    a.year < b.year || (a.year == b.year && (a.month < b.month || (a.month == b.month && a.day < b.day)))
  }

  lemma {:induction false} MonthsAddUp(y: nat, m: nat, n: nat)
    requires 1 <= m < n <= 12
    ensures DaysBeforeMonth(y, m) + DaysInMonth(y, m) <= DaysBeforeMonth(y, n)
    ensures DaysBeforeMonth(y, n) + DaysInMonth(y, n) <= 366
    ensures Leap(y) || DaysBeforeMonth(y, n) + DaysInMonth(y, n) <= 365
    decreases n
  {
    if m < n - 1 {
      MonthsAddUp(y, m, n - 1);
    }
    YearLength(y);
    YearEnd(y, n);
  }

  lemma {:induction false} YearEnd(y: nat, n: nat)
    requires 1 <= n <= 12
    ensures DaysBeforeMonth(y, n) + DaysInMonth(y, n) <= if Leap(y) then 366 else 365
    decreases 12 - n
  {
    if n == 12 {
      YearLength(y);
    } else {
      YearEnd(y, n + 1);
    }
  }

  lemma {:induction false} YearsAddUp(y: nat, z: nat)
    requires y < z
    ensures DaysBeforeYear(y) + (if Leap(y) then 366 else 365) <= DaysBeforeYear(z)
  {
    YearLength(y);
    if y + 1 < z {
      YearsAddUp(y, z - 1);
      YearLength(z - 1);
    }
  }

  lemma EarlierHasSmallerNumber(a: Date, b: Date)
    requires Valid(a) && Valid(b) && Before(a, b)
    ensures DayNumber(a.year, a.month, a.day) < DayNumber(b.year, b.month, b.day)
  {
    if a.year < b.year {
      YearsAddUp(a.year, b.year);
      YearEnd(a.year, a.month);
    } else if a.month < b.month {
      MonthsAddUp(a.year, a.month, b.month);
    }
  }

  // ---- ISO text ---------------------------------------------------------------------------

  predicate IsIsoDate(s: string) {
    && |s| == 10
    && IsDigits(s[0..4]) && IsDigits(s[5..7]) && IsDigits(s[8..10])
    && s[4] == '-' && s[7] == '-'
    && Valid(ReadDate(s))
  }

  function ReadDate(s: string): Date
    requires |s| == 10 && IsDigits(s[0..4]) && IsDigits(s[5..7]) && IsDigits(s[8..10])
  {
    Date(DigitsValue(s[0..4]), DigitsValue(s[5..7]), DigitsValue(s[8..10]))
  }

  function WholeDaysBetween(from: string, to: string): int
    requires IsIsoDate(from) && IsIsoDate(to)
  {
    UtcDay(ReadDate(to)) - UtcDay(ReadDate(from))
  }

  lemma TextOrderIsDateOrder(a: string, b: string)
    requires IsIsoDate(a) && IsIsoDate(b)
    ensures CompareText(a, b) < 0 <==> Before(ReadDate(a), ReadDate(b))
    ensures CompareText(a, b) == 0 <==> ReadDate(a) == ReadDate(b)
  {
    var ya, ma, da := a[0..4], a[5..7], a[8..10];
    var yb, mb, db := b[0..4], b[5..7], b[8..10];
    assert a == ya + ("-" + (ma + ("-" + da)));
    assert b == yb + ("-" + (mb + ("-" + db)));
    CompareTextConcat(ya, yb, "-" + (ma + ("-" + da)), "-" + (mb + ("-" + db)));
    CompareTextConcat("-", "-", ma + ("-" + da), mb + ("-" + db));
    CompareTextConcat(ma, mb, "-" + da, "-" + db);
    CompareTextConcat("-", "-", da, db);
    DigitsOrder(ya, yb);
    DigitsOrder(ma, mb);
    DigitsOrder(da, db);
    CompareTextAntisymmetric(ya, yb);
    CompareTextAntisymmetric(ma, mb);
    CompareTextAntisymmetric(da, db);
  }

  // ---- What a date becomes ----------------------------------------------------------------

  const LEAP_DAY_0 := Date(0, 2, 29)

  const MARCH_0 := Date(0, 3, 1)

  /** The day a date is read as: years below 100 move into the twentieth century, whose year 1900 has no leap day. */
  function UtcDate(d: Date): Date {
    if d == LEAP_DAY_0 then Date(1900, 3, 1) else Date(UtcYear(d.year), d.month, d.day)
  }

  lemma UtcDateIsItsDay(d: Date)
    requires Valid(d)
    ensures Valid(UtcDate(d)) && UtcDay(d) == DayNumber(UtcDate(d).year, UtcDate(d).month, UtcDate(d).day)
  {
    if d == LEAP_DAY_0 {
      MonthStarts(1900);
      assert DaysBeforeMonth(1900, 2) == 31;
    }
  }

  /** The sign of a day difference is the order of the days read, for every pair of dates. */
  lemma DifferenceIsUtcOrder(a: string, b: string)
    requires IsIsoDate(a) && IsIsoDate(b)
    ensures 0 < WholeDaysBetween(a, b) <==> Before(UtcDate(ReadDate(a)), UtcDate(ReadDate(b)))
    ensures WholeDaysBetween(a, b) == 0 <==> UtcDate(ReadDate(a)) == UtcDate(ReadDate(b))
  {
    var d, e := UtcDate(ReadDate(a)), UtcDate(ReadDate(b));
    UtcDateIsItsDay(ReadDate(a));
    UtcDateIsItsDay(ReadDate(b));
    if Before(d, e) {
      EarlierHasSmallerNumber(d, e);
    } else if Before(e, d) {
      EarlierHasSmallerNumber(e, d);
    }
  }

  /** Moved into the twentieth century, `d` no longer falls before `e`; or the leap day of the year 0 falls on the next day. */
  predicate MisreadBefore(d: Date, e: Date) {
    (d.year < 100 <= e.year && !Before(UtcDate(d), e)) || (d == LEAP_DAY_0 && e == MARCH_0)
  }

  /** For every pair of dates, text order is day order unless one of them is moved past the other. */
  lemma TextOrderIsDayOrderExactly(a: string, b: string)
    requires IsIsoDate(a) && IsIsoDate(b)
    ensures ((CompareText(a, b) < 0 <==> 0 < WholeDaysBetween(a, b)) && (CompareText(a, b) == 0 <==> WholeDaysBetween(a, b) == 0))
            <==> !MisreadBefore(ReadDate(a), ReadDate(b)) && !MisreadBefore(ReadDate(b), ReadDate(a))
  {
    TextOrderIsDateOrder(a, b);
    DifferenceIsUtcOrder(a, b);
  }

  /** In particular, from the year 100 on text order of ISO dates is the order of their days. */
  lemma TextOrderIsDayOrder(a: string, b: string)
    requires IsIsoDate(a) && IsIsoDate(b)
    requires ReadDate(a).year >= 100 && ReadDate(b).year >= 100
    ensures CompareText(a, b) < 0 <==> 0 < WholeDaysBetween(a, b)
    ensures CompareText(a, b) == 0 <==> WholeDaysBetween(a, b) == 0
  {
    TextOrderIsDayOrderExactly(a, b);
  }

  /** A year below 100 is read as one of the twentieth century: the year 99 lands after the year 100. */
  lemma YearBelow100IsMisplaced()
    ensures IsIsoDate("0099-01-01") && IsIsoDate("0100-01-01")
    ensures ReadDate("0099-01-01") == Date(99, 1, 1) && ReadDate("0100-01-01") == Date(100, 1, 1)
    ensures CompareText("0099-01-01", "0100-01-01") < 0 && WholeDaysBetween("0099-01-01", "0100-01-01") <= 0
  {
    var a, b := "0099-01-01", "0100-01-01";
    assert a[0..4] == "0099" && b[0..4] == "0100";
    assert a[5..7] == "01" && b[5..7] == "01" && a[8..10] == "01" && b[8..10] == "01";
    assert DigitsValue("01") == 1 by {
      assert "01"[..1] == "0" && "0"[..0] == "";
    }
    assert DigitsValue("0099") == 99 by {
      assert "0099"[..3] == "009" && "009"[..2] == "00" && "00"[..1] == "0" && "0"[..0] == "";
    }
    assert DigitsValue("0100") == 100 by {
      assert "0100"[..3] == "010" && "010"[..2] == "01" && "01"[..1] == "0" && "0"[..0] == "";
    }
    TextOrderIsDateOrder(a, b);
  }

  /** The same, as the exact range of years on which comparing the text is sound. */
  lemma TextOrderSoundFromYear100(minYear: nat)
    requires minYear <= 9999
    ensures minYear >= 100 <==>
            forall a, b | IsIsoDate(a) && IsIsoDate(b) && ReadDate(a).year >= minYear && ReadDate(b).year >= minYear ::
              CompareText(a, b) < 0 <==> 0 < WholeDaysBetween(a, b)
  {
    if minYear >= 100 {
      forall a, b | IsIsoDate(a) && IsIsoDate(b) && ReadDate(a).year >= minYear && ReadDate(b).year >= minYear
        ensures CompareText(a, b) < 0 <==> 0 < WholeDaysBetween(a, b)
      {
        TextOrderIsDayOrder(a, b);
      }
    } else {
      YearBelow100IsMisplaced();
      assert exists a, b | IsIsoDate(a) && IsIsoDate(b) && ReadDate(a).year >= minYear && ReadDate(b).year >= minYear ::
        CompareText(a, b) < 0 && WholeDaysBetween(a, b) <= 0 by {
        assert IsIsoDate("0099-01-01") && IsIsoDate("0100-01-01");
      }
    }
  }

  /**
   Day differences count calendar days between the days read, forward and backward, for every pair;
   from the year 100 on a date is read as itself.
   */
  lemma DifferenceCountsDays(from: string, to: string, n: nat)
    requires IsIsoDate(from) && IsIsoDate(to)
    ensures var d, e := UtcDate(ReadDate(from)), UtcDate(ReadDate(to));
            && Valid(d) && Valid(e)
            && (WholeDaysBetween(from, to) == n <==> AfterDays(d, n) == e)
            && (WholeDaysBetween(to, from) == n <==> AfterDays(e, n) == d)
            && (ReadDate(from).year >= 100 ==> d == ReadDate(from))
  {
    UtcDateIsItsDay(ReadDate(from));
    UtcDateIsItsDay(ReadDate(to));
    DaysApart(UtcDate(ReadDate(from)), UtcDate(ReadDate(to)), n);
    DaysApart(UtcDate(ReadDate(to)), UtcDate(ReadDate(from)), n);
  }

  lemma DaysApart(d: Date, e: Date, n: nat)
    requires Valid(d) && Valid(e)
    ensures DayNumber(e.year, e.month, e.day) - DayNumber(d.year, d.month, d.day) == n <==> AfterDays(d, n) == e
  {
    AfterDaysIsLaterBy(d, n);
    var r := AfterDays(d, n);
    if Before(r, e) {
      EarlierHasSmallerNumber(r, e);
    } else if Before(e, r) {
      EarlierHasSmallerNumber(e, r);
    }
  }

  lemma DifferencesAdd(a: string, b: string, c: string)
    requires IsIsoDate(a) && IsIsoDate(b) && IsIsoDate(c)
    ensures WholeDaysBetween(a, c) == WholeDaysBetween(a, b) + WholeDaysBetween(b, c)
    ensures WholeDaysBetween(b, a) == -WholeDaysBetween(a, b)
  {
  }
}
