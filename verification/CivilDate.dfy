/** The civil date of a day: what the flow export computes is the date of the Gregorian calendar,
    extended to all years, and the only one with that day number. */
module CivilDate {
  const DAY_SECS: int := 86_400

  // ----- the calendar, from its rules -----

  predicate Leap(y: int) {
    y % 4 == 0 && (y % 100 != 0 || y % 400 == 0)
  }

  function DaysInMonth(y: int, m: int): int {
    if m == 2 then (if Leap(y) then 29 else 28)
    else if m == 4 || m == 6 || m == 9 || m == 11 then 30
    else 31
  }

  datatype Date = Date(year: int, month: int, day: int)

  /** A date of the Gregorian calendar, extended to all years. */
  predicate IsDate(d: Date) {
    1 <= d.month <= 12 && 1 <= d.day <= DaysInMonth(d.year, d.month)
  }

  /** Days from 1 January of year 0 to 1 January of year `y`. */
  function DaysBeforeYear(y: int): int {
    365 * y + (y + 3) / 4 - (y + 99) / 100 + (y + 399) / 400
  }

  function DaysBeforeMonth(y: int, m: int): int
    requires 1 <= m
  {
    if m == 1 then 0 else DaysBeforeMonth(y, m - 1) + DaysInMonth(y, m - 1)
  }

  /** Days from 1 January 1970. */
  function DayNumber(d: Date): int
    requires IsDate(d)
  {
    DaysBeforeYear(d.year) + DaysBeforeMonth(d.year, d.month) + d.day - 1 - DaysBeforeYear(1970)
  }

  lemma {:induction false} NextMultiple4(y: int)
    ensures (y + 4) / 4 - (y + 3) / 4 == if y % 4 == 0 then 1 else 0
  {
  }

  lemma {:induction false} NextMultiple100(y: int)
    ensures (y + 100) / 100 - (y + 99) / 100 == if y % 100 == 0 then 1 else 0
  {
  }

  lemma {:induction false} NextMultiple400(y: int)
    ensures (y + 400) / 400 - (y + 399) / 400 == if y % 400 == 0 then 1 else 0
  {
  }

  /** Each year has 365 days, or 366 in a leap year. */
  lemma {:induction false} YearLength(y: int)
    ensures DaysBeforeYear(y + 1) - DaysBeforeYear(y) == if Leap(y) then 366 else 365
  {
    NextMultiple4(y);
    NextMultiple100(y);
    NextMultiple400(y);
    Centuries(y);
  }

  lemma Centuries(y: int)
    ensures y % 100 == 0 ==> y % 4 == 0
    ensures y % 400 == 0 ==> y % 100 == 0
  {
    var q, q' := y / 100, y / 400;
    if y % 100 == 0 { assert y == 4 * (25 * q); }
    if y % 400 == 0 { assert y == 100 * (4 * q'); }
  }

  // ----- the export's arithmetic -----

  /** The March-based year of a 400-year era that has day `doe`. */
  function YearWithinEra(doe: int): int {
    (doe - doe / 1_460 + doe / 36_524 - doe / 146_096) / 365
  }

  /** First day of a March-based year of the era. */
  function EraYearStart(yoe: int): int {
    365 * yoe + yoe / 4 - yoe / 100
  }

  /** The date `doy` days into the March-based year `y`, as the export computes it. */
  function FromMarch(y: int, doy: int): Date {
    var mp := (5 * doy + 2) / 153;
    var m := if mp < 10 then mp + 3 else mp - 9;
    Date(if m <= 2 then y + 1 else y, m, doy - (153 * mp + 2) / 5 + 1)
  }

  function FromEraYear(era: int, doe: int, yoe: int): Date {
    FromMarch(yoe + era * 400, doe - EraYearStart(yoe))
  }

  function CivilOfEra(era: int, doe: int): Date {
    FromEraYear(era, doe, YearWithinEra(doe))
  }

  /** Year, month and day by Hinnant's civil-from-days. */
  function Civil(days: int): Date {
    var z := days + 719_468;
    CivilOfEra(z / 146_097, z % 146_097)
  }

  /** Within a four-year cycle the divisor 365 finds the year once the leap day is taken out. */
  lemma YearOfCentury(r: int, lead: int)
    requires 0 <= r < 36_524 && 0 <= lead <= 72
    ensures var y := (r - (lead + r) / 1_460) / 365;
            0 <= y < 100 && 365 * y + y / 4 <= r && (y < 99 ==> r < 365 * (y + 1) + (y + 1) / 4)
  {
    var k, t := r / 1_461, r % 1_461;
    assert r == 1_461 * k + t && 0 <= k <= 24;
    var e := if lead + k + t >= 1_460 then 1 else 0;
    assert (lead + r) / 1_460 == k + e;
    var j := (t - e) / 365;
    assert 0 <= j <= 3 && 365 * j <= t && (j < 3 ==> t < 365 * (j + 1));
    assert (r - (lead + r) / 1_460) / 365 == 4 * k + j;
    assert (4 * k + j) / 4 == k;
  }

  lemma EraSplits(c: int, r: int)
    requires 0 <= c <= 3 && 0 <= r < 36_524 && 36_524 * c + r < 146_096
    ensures YearWithinEra(36_524 * c + r) == 100 * c + (r - (24 * c + r) / 1_460) / 365
  {
    var doe, q := 36_524 * c + r, (24 * c + r) / 1_460;
    assert doe / 36_524 == c && doe / 146_096 == 0;
    assert doe == 1_460 * (25 * c) + (24 * c + r);
    assert doe / 1_460 == 25 * c + q;
    assert doe - doe / 1_460 + c == 36_500 * c + (r - q);
  }

  lemma YearOfEra(doe: int)
    requires 0 <= doe < 146_097
    ensures var yoe := YearWithinEra(doe);
            0 <= yoe < 400 && EraYearStart(yoe) <= doe && (yoe < 399 ==> doe < EraYearStart(yoe + 1))
  {
    if doe < 146_096 {
      var c, r := doe / 36_524, doe % 36_524;
      EraSplits(c, r);
      YearOfCentury(r, 24 * c);
      var y := (r - (24 * c + r) / 1_460) / 365;
      CenturyStart(c, y);
      if y < 99 { CenturyStart(c, y + 1); }
    }
  }

  lemma CenturyStart(c: int, y: int)
    requires 0 <= c <= 3 && 0 <= y < 100
    ensures EraYearStart(100 * c + y) == 36_524 * c + 365 * y + y / 4
    ensures c < 3 ==> EraYearStart(100 * c + 100) == 36_524 * c + 36_524
  {
    assert (100 * c + y) / 4 == 25 * c + y / 4;
    assert (100 * c + y) / 100 == c;
  }

  // ----- month and day -----

  /** The day within a March-based year decides the month: March to February, of 31, 30, 31,
      30, 31, 31, 30, 31, 30, 31, 31 and 28 or 29 days. */
  lemma MonthOfYear(doy: int, y: int)
    requires 0 <= doy <= 365
    ensures var mp := (5 * doy + 2) / 153;
            var m := if mp < 10 then mp + 3 else mp - 9;
            var first := (153 * mp + 2) / 5;
            0 <= mp <= 11 && first <= doy
            && (m >= 3 ==> DaysBeforeMonth(y, m) == DaysBeforeMonth(y, 3) + first && doy - first < DaysInMonth(y, m))
            && (m == 1 ==> first == 306 && doy - first < 31)
            && (m == 2 ==> first == 337 && doy - first <= 28)
  {
    var mp := (5 * doy + 2) / 153;
    assert 0 <= mp <= 11;
    MonthStarts(y);
  }

  lemma MonthStarts(y: int)
    ensures DaysBeforeMonth(y, 2) == 31 && DaysBeforeMonth(y, 1) == 0
    ensures var march := DaysBeforeMonth(y, 3);
            march == 31 + DaysInMonth(y, 2)
            && DaysBeforeMonth(y, 4) == march + 31 && DaysBeforeMonth(y, 5) == march + 61
            && DaysBeforeMonth(y, 6) == march + 92 && DaysBeforeMonth(y, 7) == march + 122
            && DaysBeforeMonth(y, 8) == march + 153 && DaysBeforeMonth(y, 9) == march + 184
            && DaysBeforeMonth(y, 10) == march + 214 && DaysBeforeMonth(y, 11) == march + 245
            && DaysBeforeMonth(y, 12) == march + 275
  {
    assert DaysBeforeMonth(y, 3) == DaysBeforeMonth(y, 2) + DaysInMonth(y, 2);
    assert DaysBeforeMonth(y, 4) == DaysBeforeMonth(y, 3) + 31;
    assert DaysBeforeMonth(y, 5) == DaysBeforeMonth(y, 4) + 30;
    assert DaysBeforeMonth(y, 6) == DaysBeforeMonth(y, 5) + 31;
    assert DaysBeforeMonth(y, 7) == DaysBeforeMonth(y, 6) + 30;
    assert DaysBeforeMonth(y, 8) == DaysBeforeMonth(y, 7) + 31;
    assert DaysBeforeMonth(y, 9) == DaysBeforeMonth(y, 8) + 31;
    assert DaysBeforeMonth(y, 10) == DaysBeforeMonth(y, 9) + 30;
    assert DaysBeforeMonth(y, 11) == DaysBeforeMonth(y, 10) + 31;
    assert DaysBeforeMonth(y, 12) == DaysBeforeMonth(y, 11) + 30;
  }

  // ----- the date is the calendar's -----

  lemma YearsOfEras(yoe: int, era: int)
    ensures DaysBeforeYear(yoe + era * 400) == DaysBeforeYear(yoe) + 146_097 * era
  {
    assert (yoe + era * 400 + 3) / 4 == (yoe + 3) / 4 + 100 * era;
    assert (yoe + era * 400 + 99) / 100 == (yoe + 99) / 100 + 4 * era;
    assert (yoe + era * 400 + 399) / 400 == (yoe + 399) / 400 + era;
  }

  lemma ModShift4(x: int, k: int)
    ensures (x + 4 * k) % 4 == x % 4
  {
    assert x + 4 * k == 4 * (x / 4 + k) + x % 4;
  }

  lemma ModShift100(x: int, k: int)
    ensures (x + 100 * k) % 100 == x % 100
  {
    assert x + 100 * k == 100 * (x / 100 + k) + x % 100;
  }

  lemma ModShift400(x: int, k: int)
    ensures (x + 400 * k) % 400 == x % 400
  {
    assert x + 400 * k == 400 * (x / 400 + k) + x % 400;
  }

  lemma LeapRepeats(yoe: int, era: int)
    ensures Leap(yoe + era * 400) <==> Leap(yoe)
  {
    ModShift400(yoe, era);
    ModShift100(yoe, 4 * era);
    ModShift4(yoe, 100 * era);
    assert yoe + era * 400 == yoe + 400 * era == yoe + 100 * (4 * era) == yoe + 4 * (100 * era);
  }

  lemma {:induction false} CeilingOfYear(yoe: int)
    requires 0 <= yoe < 400
    ensures (yoe + 399) / 400 == if yoe == 0 then 0 else 1
    ensures (yoe + 3) / 4 == yoe / 4 + if yoe % 4 == 0 then 0 else 1
    ensures (yoe + 99) / 100 == yoe / 100 + if yoe % 100 == 0 then 0 else 1
  {
  }

  lemma {:induction false} MarchOfYear(yoe: int)
    requires 0 <= yoe < 400
    ensures DaysBeforeYear(yoe) + 31 + DaysInMonth(yoe, 2) == EraYearStart(yoe) + 60
  {
    CeilingOfYear(yoe);
    Centuries(yoe);
  }

  /** Day `doe` of an era is in its March-based year `yoe`; only a year that ends in February
      of a leap year has a day 365. */
  predicate InYear(doe: int, yoe: int) {
    0 <= yoe < 400 && 0 <= doe - EraYearStart(yoe) <= 365 && (doe - EraYearStart(yoe) == 365 ==> Leap(yoe + 1))
  }

  lemma {:induction false} DayInYear(doe: int, yoe: int)
    requires 0 <= doe < 146_097 && 0 <= yoe < 400
    requires EraYearStart(yoe) <= doe && (yoe < 399 ==> doe < EraYearStart(yoe + 1))
    ensures InYear(doe, yoe)
  {
    if yoe < 399 { EraYearLength(yoe); }
  }

  lemma {:induction false} YearHasDay(doe: int)
    requires 0 <= doe < 146_097
    ensures InYear(doe, YearWithinEra(doe))
  {
    YearOfEra(doe);
    DayInYear(doe, YearWithinEra(doe));
  }

  lemma EraYearLength(yoe: int)
    requires 0 <= yoe < 399
    ensures EraYearStart(yoe + 1) - EraYearStart(yoe) == if Leap(yoe + 1) then 366 else 365
  {
    assert (yoe + 1) / 4 - yoe / 4 == if (yoe + 1) % 4 == 0 then 1 else 0;
    assert (yoe + 1) / 100 - yoe / 100 == if (yoe + 1) % 100 == 0 then 1 else 0;
    Centuries(yoe + 1);
  }

  lemma FromMarchIsDate(y: int, doy: int)
    requires 0 <= doy <= 365 && (doy == 365 ==> Leap(y + 1))
    ensures var d := FromMarch(y, doy);
            IsDate(d) && DaysBeforeYear(d.year) + DaysBeforeMonth(d.year, d.month) + d.day - 1
                         == DaysBeforeYear(y) + DaysBeforeMonth(y, 3) + doy
  {
    MonthOfYear(doy, y);
    MonthStarts(y);
    MonthStarts(y + 1);
    YearLength(y);
  }

  /** The date `doy` days after a 1 March that is `march` days after 1 January of year 0. */
  lemma CivilFromMarch(y: int, march: int, doy: int, days: int)
    requires DaysBeforeYear(y) + DaysBeforeMonth(y, 3) == march && march + doy == days + 719_528
    requires 0 <= doy <= 365 && (doy == 365 ==> Leap(y + 1))
    ensures IsDate(FromMarch(y, doy)) && DayNumber(FromMarch(y, doy)) == days
  {
    FromMarchIsDate(y, doy);
    EpochYear();
  }

  lemma {:induction false} SameMonths(x: int, y: int, m: int)
    requires (Leap(x) <==> Leap(y)) && 1 <= m <= 12
    ensures DaysInMonth(x, m) == DaysInMonth(y, m) && DaysBeforeMonth(x, m) == DaysBeforeMonth(y, m)
    decreases m
  {
    if m > 1 { SameMonths(x, y, m - 1); }
  }

  /** The calendar repeats every 400 years. */
  lemma {:induction false} ShiftDate(d: Date, e: Date, era: int)
    requires IsDate(d) && e == Date(d.year + era * 400, d.month, d.day)
    ensures IsDate(e) && DayNumber(e) == DayNumber(d) + 146_097 * era
  {
    LeapRepeats(d.year, era);
    YearsOfEras(d.year, era);
    SameMonths(d.year, e.year, d.month);
  }

  lemma {:induction false} FirstEra(doe: int, yoe: int)
    requires InYear(doe, yoe)
    ensures var d := FromMarch(yoe, doe - EraYearStart(yoe)); IsDate(d) && DayNumber(d) == doe - 719_468
  {
    MarchOfYear(yoe);
    MonthStarts(yoe);
    CivilFromMarch(yoe, EraYearStart(yoe) + 60, doe - EraYearStart(yoe), doe - 719_468);
  }

  lemma {:induction false} FromEraYearIsDate(era: int, doe: int, yoe: int)
    requires InYear(doe, yoe)
    ensures IsDate(FromEraYear(era, doe, yoe)) && DayNumber(FromEraYear(era, doe, yoe)) == 146_097 * era + doe - 719_468
  {
    FirstEra(doe, yoe);
    ShiftDate(FromMarch(yoe, doe - EraYearStart(yoe)), FromEraYear(era, doe, yoe), era);
  }

  lemma {:induction false} CivilOfEraIsDate(era: int, doe: int)
    requires 0 <= doe < 146_097
    ensures IsDate(CivilOfEra(era, doe)) && DayNumber(CivilOfEra(era, doe)) == 146_097 * era + doe - 719_468
  {
    YearHasDay(doe);
    FromEraYearIsDate(era, doe, YearWithinEra(doe));
  }

  /** For every day, the printed date exists and its day number is the day. */
  lemma CivilIsCalendarDate(days: int)
    ensures IsDate(Civil(days)) && DayNumber(Civil(days)) == days
  {
    var z := days + 719_468;
    CivilOfEraIsDate(z / 146_097, z % 146_097);
  }

  lemma EpochYear()
    ensures DaysBeforeYear(1970) == 719_528
  {
  }

  // ----- and no other -----

  lemma {:induction false} YearsAscend(x: int, y: int)
    requires x < y
    ensures DaysBeforeYear(x) + (if Leap(x) then 366 else 365) <= DaysBeforeYear(y)
    decreases y - x
  {
    YearLength(x);
    if x + 1 < y { YearsAscend(x + 1, y); }
  }

  lemma {:induction false} MonthsAscend(y: int, m: int, n: int)
    requires 1 <= m < n <= 12
    ensures DaysBeforeMonth(y, m) + DaysInMonth(y, m) <= DaysBeforeMonth(y, n)
    decreases n - m
  {
    if m + 1 < n { MonthsAscend(y, m + 1, n); }
  }

  lemma DayWithinYear(d: Date)
    requires IsDate(d)
    ensures 0 <= DaysBeforeMonth(d.year, d.month) + d.day - 1 < if Leap(d.year) then 366 else 365
  {
    MonthStarts(d.year);
  }

  /** Different dates have different day numbers. */
  lemma DayNumberIsInjective(x: Date, y: Date)
    requires IsDate(x) && IsDate(y) && DayNumber(x) == DayNumber(y)
    ensures x == y
  {
    DayWithinYear(x);
    DayWithinYear(y);
    if x.year < y.year {
      YearsAscend(x.year, y.year);
    } else if y.year < x.year {
      YearsAscend(y.year, x.year);
    } else if x.month < y.month {
      MonthsAscend(x.year, x.month, y.month);
    } else if y.month < x.month {
      MonthsAscend(x.year, y.month, x.month);
    }
  }

  /** The printed date is the only calendar date with that day number. */
  lemma CivilIsUnique(d: Date, days: int)
    requires IsDate(d)
    ensures DayNumber(d) == days <==> d == Civil(days)
  {
    CivilIsCalendarDate(days);
    if DayNumber(d) == days { DayNumberIsInjective(d, Civil(days)); }
  }
}
