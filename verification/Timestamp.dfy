/** The export's timestamp text, and reading it back by the grammar of RFC 3339, sections 5.6
    and 5.7. */
module Timestamp {
  import opened CivilDate
  import opened Options

  function Digit(n: nat): char
    requires n < 10
  {
    "0123456789"[n]
  }

  function Decimal(n: nat): (s: string)
    ensures |s| >= 1
  {
    if n < 10 then [Digit(n)] else Decimal(n / 10) + [Digit(n % 10)]
  }

  function Zeros(n: nat): (s: string)
    ensures |s| == n
  {
    seq(n, _ => '0')
  }

  /** `{n:0width}`: zeros after the sign up to the width; longer numbers are not cut. */
  function Padded(n: int, width: nat): string {
    var sign := if n < 0 then "-" else "";
    var digits := Decimal(if n < 0 then -n else n);
    sign + (if |sign| + |digits| < width then Zeros(width - |sign| - |digits|) else "") + digits
  }

  function Join(y: string, mo: string, d: string, h: string, mi: string, se: string): string {
    y + "-" + mo + "-" + d + "T" + h + ":" + mi + ":" + se + "Z"
  }

  function UtcText(date: Date, h: int, mi: int, se: int): string {
    Join(Padded(date.year, 4), Padded(date.month, 2), Padded(date.day, 2), Padded(h, 2), Padded(mi, 2), Padded(se, 2))
  }

  /** `chrono_utc`: the RFC 3339 text of a second since the epoch. */
  function Utc(seconds: int): string {
    var rem := seconds % DAY_SECS;
    UtcText(Civil(seconds / DAY_SECS), rem / 3600, rem % 3600 / 60, rem % 60)
  }

  // ----- reading the text back -----

  predicate Digits(t: string) {
    forall i :: 0 <= i < |t| ==> '0' <= t[i] <= '9'
  }

  function Value(t: string): int {
    if t == [] then 0 else 10 * Value(t[..|t| - 1]) + (t[|t| - 1] as int - '0' as int)
  }

  /** The `date-time` grammar with a `Z` offset and no fraction: four digits of year, two of
      everything else. */
  predicate HasShape(s: string) {
    |s| == 20 && Digits(s[..4]) && s[4] == '-' && Digits(s[5..7]) && s[7] == '-' && Digits(s[8..10]) && s[10] == 'T'
    && Digits(s[11..13]) && s[13] == ':' && Digits(s[14..16]) && s[16] == ':' && Digits(s[17..19]) && s[19] == 'Z'
  }

  function Instant(date: Date, h: int, mi: int, se: int): Option<int> {
    if IsDate(date) && h < 24 && mi < 60 && se < 60 then Some(DayNumber(date) * DAY_SECS + h * 3600 + mi * 60 + se)
    else None
  }

  /** The second a text names; `None` unless the grammar and the limits on each field hold. */
  function ReadUtc(s: string): Option<int> {
    if HasShape(s)
    then
      Instant(Date(Value(s[..4]), Value(s[5..7]), Value(s[8..10])),
              Value(s[11..13]), Value(s[14..16]), Value(s[17..19]))
    else None
  }

  // ----- the round trip -----

  lemma {:induction false} DecimalReads(n: nat)
    ensures Digits(Decimal(n)) && Value(Decimal(n)) == n
  {
    var t := Decimal(n);
    if n >= 10 {
      DecimalReads(n / 10);
      assert t[..|t| - 1] == Decimal(n / 10);
    } else {
      assert Value(t[..0]) == 0;
    }
  }

  /** Leading zeros do not change the number. */
  lemma {:induction false} ZerosBefore(k: nat, t: string)
    ensures Value(Zeros(k) + t) == Value(t)
    decreases k + |t|
  {
    var z := Zeros(k) + t;
    if t != [] {
      ZerosBefore(k, t[..|t| - 1]);
      assert z[..|z| - 1] == Zeros(k) + t[..|t| - 1];
    } else if k > 0 {
      ZerosBefore(k - 1, t);
      assert z[..|z| - 1] == Zeros(k - 1) + t;
    }
  }

  lemma {:induction false} PaddedReads(n: nat, width: nat)
    requires |Decimal(n)| <= width
    ensures |Padded(n, width)| == width && Digits(Padded(n, width)) && Value(Padded(n, width)) == n
  {
    DecimalReads(n);
    ZerosBefore(width - |Decimal(n)|, Decimal(n));
    PaddedIsZeros(n, width, Decimal(n));
  }

  lemma {:induction false} PaddedIsZeros(n: nat, width: nat, t: string)
    requires t == Decimal(n) && |t| <= width
    ensures Padded(n, width) == Zeros(width - |t|) + t
  {
    assert Zeros(0) == "";
    assert "" + Zeros(width - |t|) == Zeros(width - |t|);
  }

  lemma {:induction false} DecimalLength(n: nat)
    ensures |Decimal(n)| <= 2 <==> n < 100
    ensures |Decimal(n)| <= 4 <==> n < 10000
  {
    var a, b, c := n / 10, n / 100, n / 1000;
    assert n >= 10 ==> |Decimal(n)| == |Decimal(a)| + 1;
    assert n >= 100 ==> |Decimal(a)| == |Decimal(b)| + 1 by { assert a / 10 == b; }
    assert n >= 1000 ==> |Decimal(b)| == |Decimal(c)| + 1 by { assert b / 10 == c; }
    assert n >= 10000 ==> |Decimal(c)| == |Decimal(c / 10)| + 1;
  }

  lemma {:induction false} TwoDigits(n: nat)
    requires n < 100
    ensures |Padded(n, 2)| == 2 && Digits(Padded(n, 2)) && Value(Padded(n, 2)) == n
  {
    DecimalLength(n);
    PaddedReads(n, 2);
  }

  /** A year outside 0 to 9999 is longer than four characters or starts with a sign. */
  lemma {:induction false} YearText(y: int)
    ensures 0 <= y <= 9999 ==> |Padded(y, 4)| == 4 && Digits(Padded(y, 4)) && Value(Padded(y, 4)) == y
    ensures y > 9999 ==> |Padded(y, 4)| > 4
    ensures y < 0 ==> |Padded(y, 4)| >= 4 && Padded(y, 4)[0] == '-'
  {
    DecimalLength(if y < 0 then -y else y);
    if 0 <= y <= 9999 { PaddedReads(y, 4); }
  }

  /** Where each field of the joined text lies. */
  lemma {:induction false} JoinPlaces(y: string, mo: string, d: string, h: string, mi: string, se: string)
    requires |mo| == 2 && |d| == 2 && |h| == 2 && |mi| == 2 && |se| == 2
    ensures var s := Join(y, mo, d, h, mi, se);
            |s| == |y| + 16 && s[..|y|] == y
    ensures |y| == 4 ==>
              var s := Join(y, mo, d, h, mi, se);
              s[4] == '-' && s[5..7] == mo && s[7] == '-' && s[8..10] == d && s[10] == 'T' && s[11..13] == h
              && s[13] == ':' && s[14..16] == mi && s[16] == ':' && s[17..19] == se && s[19] == 'Z'
  {
  }

  /** The joined text is a timestamp exactly when the year is four digits, and then it reads
      back as its fields. */
  lemma {:induction false} JoinReads(y: string, mo: string, d: string, h: string, mi: string, se: string)
    requires |mo| == 2 && |d| == 2 && |h| == 2 && |mi| == 2 && |se| == 2
    requires Digits(mo) && Digits(d) && Digits(h) && Digits(mi) && Digits(se)
    ensures ReadUtc(Join(y, mo, d, h, mi, se))
            == if |y| == 4 && Digits(y)
               then Instant(Date(Value(y), Value(mo), Value(d)), Value(h), Value(mi), Value(se)) else None
  {
    JoinPlaces(y, mo, d, h, mi, se);
  }

  lemma {:induction false} TextReads(date: Date, h: nat, mi: nat, se: nat)
    requires IsDate(date) && h < 24 && mi < 60 && se < 60
    ensures ReadUtc(UtcText(date, h, mi, se)) == if 0 <= date.year <= 9999 then Instant(date, h, mi, se) else None
  {
    YearText(date.year);
    TwoDigits(date.month);
    TwoDigits(date.day);
    TwoDigits(h);
    TwoDigits(mi);
    TwoDigits(se);
    JoinReads(Padded(date.year, 4), Padded(date.month, 2), Padded(date.day, 2),
              Padded(h, 2), Padded(mi, 2), Padded(se, 2));
  }

  lemma {:induction false} InstantOf(date: Date, h: nat, mi: nat, se: nat, days: int, rem: int)
    requires IsDate(date) && DayNumber(date) == days
    requires h < 24 && mi < 60 && se < 60 && rem == h * 3600 + mi * 60 + se
    ensures Instant(date, h, mi, se) == Some(days * DAY_SECS + rem)
  {
  }

  lemma {:induction false} RoundTripOf(seconds: int, days: int, date: Date, h: nat, mi: nat, se: nat)
    requires IsDate(date) && DayNumber(date) == days && h < 24 && mi < 60 && se < 60
    requires seconds == days * DAY_SECS + (h * 3600 + mi * 60 + se)
    ensures ReadUtc(UtcText(date, h, mi, se)) == if 0 <= date.year <= 9999 then Some(seconds) else None
  {
    InstantOf(date, h, mi, se, days, h * 3600 + mi * 60 + se);
    TextReads(date, h, mi, se);
  }

  /** The text is an RFC 3339 timestamp exactly when the year has four digits, and then it
      names the second it was made from. */
  lemma {:induction false} UtcRoundTrip(seconds: int)
    ensures ReadUtc(Utc(seconds)) ==
            if 0 <= Civil(seconds / DAY_SECS).year <= 9999 then Some(seconds) else None
  {
    var rem := seconds % DAY_SECS;
    CivilIsCalendarDate(seconds / DAY_SECS);
    TimeOfDay(rem);
    RoundTripOf(seconds, seconds / DAY_SECS, Civil(seconds / DAY_SECS), rem / 3600, rem % 3600 / 60, rem % 60);
  }

  lemma {:induction false} TimeOfDay(rem: int)
    requires 0 <= rem < DAY_SECS
    ensures 0 <= rem / 3600 < 24 && 0 <= rem % 3600 / 60 < 60 && 0 <= rem % 60 < 60
    ensures rem == rem / 3600 * 3600 + rem % 3600 / 60 * 60 + rem % 60
  {
    assert rem % 3600 % 60 == rem % 60;
  }

  /** Those seconds are the ones from 0000-01-01T00:00:00Z to 9999-12-31T23:59:59Z. */
  lemma {:induction false} FourDigitYears(seconds: int)
    ensures 0 <= Civil(seconds / DAY_SECS).year <= 9999 <==> -62_167_219_200 <= seconds <= 253_402_300_799
  {
    var days := seconds / DAY_SECS;
    var date := Civil(days);
    CivilIsCalendarDate(days);
    DayWithinYear(date);
    EpochYear();
    assert DaysBeforeYear(0) == 0 && DaysBeforeYear(10000) == 3_652_425;
    if date.year < 0 { YearsAscend(date.year, 0); }
    if 0 < date.year { YearsAscend(0, date.year); }
    if date.year < 10000 { YearsAscend(date.year, 10000); }
    if 10000 < date.year { YearsAscend(10000, date.year); }
  }
}
