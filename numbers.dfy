/**
 * The two conversions the validator applies to raw form text: JavaScript's
 * `Number(text)` and `new Date(text)` for the date-only ISO format a date box produces.
 * Numbers are modelled as integers (see README, "Left out").
 */
module Numbers {
  import opened Wrappers
  import opened Text

  predicate IsDigit(c: char) {
    '0' <= c <= '9'
  }

  /** A non-empty run of decimal digits. */
  predicate IsDigits(s: string) {
    |s| > 0 && forall k :: 0 <= k < |s| ==> IsDigit(s[k])
  }

  /** The value of a run of decimal digits, read left to right. */
  function DigitsValue(s: string): (n: nat)
    requires forall k :: 0 <= k < |s| ==> IsDigit(s[k])
  {
    if s == [] then 0
    else
      assert IsDigit(s[|s| - 1]);
      DigitsValue(s[..|s| - 1]) * 10 + (s[|s| - 1] as int - '0' as int)
  }

  /**
   * `Number(text)` for a string: surrounding white space is ignored, a blank string is 0,
   * an optional sign is followed by decimal digits; anything else is NaN (`None`).
   */
  function NumberOf(text: string): (r: Option<int>)
    ensures (forall k :: 0 <= k < |text| ==> IsSpace(text[k])) ==> r == Some(0)
  {
    var t := Trim(text);
    if t == [] then Some(0)
    else if t[0] == '-' then (if IsDigits(t[1..]) then Some(0 - DigitsValue(t[1..]) as int) else None)
    else if t[0] == '+' then (if IsDigits(t[1..]) then Some(DigitsValue(t[1..])) else None)
    else if IsDigits(t) then Some(DigitsValue(t))
    else None
  }

  lemma DigitIsNotSpace(c: char)
    requires IsDigit(c)
    ensures !IsSpace(c)
  {
  }

  function DigitChar(d: int): (c: char)
    requires 0 <= d < 10
    ensures IsDigit(c)
  {
    ('0' as int + d) as char
  }

  /** The decimal digits of `n`, most significant first, without leading zeros. */
  function NaturalText(n: nat): (s: string)
    ensures IsDigits(s)
  {
    if n < 10 then [DigitChar(n)] else NaturalText(n / 10) + [DigitChar(n % 10)]
  }

  /** `String(n)` for an integer `n`. */
  function Decimal(n: int): string {
    if n < 0 then "-" + NaturalText(-n) else NaturalText(n)
  }

  lemma {:induction false} NaturalTextValue(n: nat)
    ensures DigitsValue(NaturalText(n)) == n
  {
    if n >= 10 {
      var s := NaturalText(n);
      assert s[..|s| - 1] == NaturalText(n / 10);
      NaturalTextValue(n / 10);
    }
  }

  /** `Number(String(n)) === n`: an integer written as text reads back as itself. */
  lemma NumberOfDecimal(n: int)
    ensures NumberOf(Decimal(n)) == Some(n)
  {
    var s := Decimal(n);
    var digits := NaturalText(if n < 0 then -n else n);
    NaturalTextValue(if n < 0 then -n else n);
    DigitIsNotSpace(digits[0]);
    DigitIsNotSpace(digits[|digits| - 1]);
    assert s[|s| - 1] == digits[|digits| - 1];
    TrimmedIsFixpoint(s);
    if n < 0 {
      assert s[1..] == digits;
    } else {
      assert s == digits;
    }
  }

  const MsPerDay := 86_400_000

  /** A day of the proleptic Gregorian calendar. */
  datatype Date = Date(year: int, month: int, day: int)

  predicate IsLeapYear(y: int) {
    (y % 4 == 0 && y % 100 != 0) || y % 400 == 0
  }

  function DaysInMonth(y: int, m: int): (n: int)
    requires 1 <= m <= 12
    ensures 28 <= n <= 31
  {
    if m == 2 then (if IsLeapYear(y) then 29 else 28)
    else if m == 4 || m == 6 || m == 9 || m == 11 then 30
    else 31
  }

  /** A day that exists: month 1 to 12, day within that month's length. */
  predicate ValidDate(dt: Date) {
    1 <= dt.month <= 12 && 1 <= dt.day <= DaysInMonth(dt.year, dt.month)
  }

  /** `dt` falls strictly before `later`: by year, then month, then day. */
  predicate Before(dt: Date, later: Date) {
    || dt.year < later.year
    || (dt.year == later.year && dt.month < later.month)
    || (dt.year == later.year && dt.month == later.month && dt.day < later.day)
  }

  /** Days from the start of a 400-year cycle to the first of March of its year `yoe`. */
  function DaysBeforeYear(yoe: int): int {
    yoe * 365 + yoe / 4 - yoe / 100
  }

  /**
   * Days from 0000-03-01 to the first of March of year `y`. Counting years from March puts
   * the leap day at the end of a year.
   */
  function MarchFirst(y: int): int {
    (y / 400) * 146097 + DaysBeforeYear(y % 400)
  }

  /** Days from 1970-01-01 to `dt` (negative before it). */
  function DaysFromCivil(dt: Date): int
    requires 1 <= dt.month <= 12
  {
    var y := if dt.month <= 2 then dt.year - 1 else dt.year;
    var mp := (dt.month + 9) % 12;
    MarchFirst(y) + MonthOffset(mp) + dt.day - 1 - 719468
  }

  /** The calendar day after `dt`, rolling over at the end of a month and of a year. */
  function NextDay(dt: Date): (n: Date)
    requires ValidDate(dt)
    ensures ValidDate(n) && Before(dt, n)
  {
    if dt.day < DaysInMonth(dt.year, dt.month) then Date(dt.year, dt.month, dt.day + 1)
    else if dt.month < 12 then Date(dt.year, dt.month + 1, 1)
    else Date(dt.year + 1, 1, 1)
  }

  /** The remainder by 4 is the one of any such decomposition. */
  lemma RemainderOf4(x: int, q: int, r: int)
    requires 0 <= r < 4 && x == 4 * q + r
    ensures x % 4 == r
  {
  }

  /** The remainder by 100 is the one of any such decomposition. */
  lemma RemainderOf100(x: int, q: int, r: int)
    requires 0 <= r < 100 && x == 100 * q + r
    ensures x % 100 == r
  {
  }

  /** The leap-year test looks only at the year's place in its 400-year cycle. */
  lemma LeapYearInCycle(y: int)
    ensures IsLeapYear(y) == IsLeapYear(y % 400)
  {
    var q, r := y / 400, y % 400;
    RemainderOf4(y, 100 * q + r / 4, r % 4);
    RemainderOf100(y, 4 * q + r / 100, r % 100);
    assert r % 400 == r;
  }

  /** Within a cycle, a year counted from March is 366 days long exactly when it ends in a leap February. */
  lemma YearOfCycleStep(yoe: int)
    requires 0 <= yoe < 399
    ensures DaysBeforeYear(yoe + 1) == DaysBeforeYear(yoe) + (if IsLeapYear(yoe + 1) then 366 else 365)
  {
    var n := yoe + 1;
    assert n / 4 == yoe / 4 + (if n % 4 == 0 then 1 else 0);
    assert n / 100 == yoe / 100 + (if n % 100 == 0 then 1 else 0);
    assert n % 400 == n;
  }

  /** A year counted from March is 366 days long exactly when the following February has 29 days. */
  lemma MarchToMarch(y: int)
    ensures MarchFirst(y + 1) == MarchFirst(y) + (if IsLeapYear(y + 1) then 366 else 365)
  {
    var era, yoe := y / 400, y % 400;
    LeapYearInCycle(y + 1);
    if yoe < 399 {
      assert (y + 1) / 400 == era && (y + 1) % 400 == yoe + 1;
      YearOfCycleStep(yoe);
    } else {
      assert (y + 1) / 400 == era + 1 && (y + 1) % 400 == 0;
    }
  }

  /** Where a month starts within a year counted from March (month 0 is March). */
  function MonthOffset(mp: int): int {
    (153 * mp + 2) / 5
  }

  /** Each month other than February (the last of the March-based year) is followed by the next. */
  lemma MonthOffsetStep(m: int)
    requires 1 <= m <= 12 && m != 2
    ensures MonthOffset((m + 10) % 12) == MonthOffset((m + 9) % 12) + DaysInMonth(0, m)
  {
    if m == 1 {} else if m == 3 {} else if m == 4 {} else if m == 5 {} else if m == 6 {}
    else if m == 7 {} else if m == 8 {} else if m == 9 {} else if m == 10 {} else if m == 11 {}
  }

  /** The last day of February is followed by 1 March, which starts a new March-based year. */
  lemma FebruaryEndIsOneLater(y: int)
    ensures DaysFromCivil(Date(y, 3, 1)) == DaysFromCivil(Date(y, 2, DaysInMonth(y, 2))) + 1
  {
    MarchToMarch(y - 1);
  }

  /** The last day of another month is followed by the first of the next one. */
  lemma MonthEndIsOneLater(y: int, m: int)
    requires 1 <= m <= 12 && m != 2
    ensures DaysFromCivil(if m < 12 then Date(y, m + 1, 1) else Date(y + 1, 1, 1))
            == DaysFromCivil(Date(y, m, DaysInMonth(y, m))) + 1
  {
    MonthOffsetStep(m);
  }

  /** The day after a date is exactly one day later, across the end of a month or year too. */
  lemma NextDayIsOneLater(dt: Date)
    requires ValidDate(dt)
    ensures DaysFromCivil(NextDay(dt)) == DaysFromCivil(dt) + 1
  {
    if dt.day == DaysInMonth(dt.year, dt.month) {
      if dt.month == 2 {
        FebruaryEndIsOneLater(dt.year);
      } else {
        MonthEndIsOneLater(dt.year, dt.month);
      }
    }
  }

  /** No valid date lies strictly between a date and the day after it. */
  lemma NextDayIsAdjacent(dt: Date, later: Date)
    requires ValidDate(dt) && ValidDate(later) && Before(dt, later)
    ensures NextDay(dt) == later || Before(NextDay(dt), later)
  {
  }

  /** Orders dates as `Before` does, as one integer that can serve as a termination measure. */
  function DateKey(dt: Date): int {
    dt.year * 512 + dt.month * 32 + dt.day
  }

  /** A later date is a strictly later day count, so the future-date check compares correctly. */
  lemma {:induction false} LaterDateIsLater(dt: Date, later: Date)
    requires ValidDate(dt) && ValidDate(later) && Before(dt, later)
    ensures DaysFromCivil(dt) < DaysFromCivil(later)
    decreases DateKey(later) - DateKey(dt)
  {
    var n := NextDay(dt);
    NextDayIsOneLater(dt);
    NextDayIsAdjacent(dt, later);
    if n != later {
      LaterDateIsLater(n, later);
    }
  }

  lemma WholeDays(days: int)
    ensures (days * MsPerDay) % MsPerDay == 0
  {
  }

  /**
   * `new Date(text).getTime()` for a date-only "YYYY-MM-DD" string, which JavaScript reads
   * as midnight UTC; `None` stands for an Invalid Date.
   */
  function ParseIsoDate(text: string): (r: Option<int>)
    ensures r.Some? ==> r.value % MsPerDay == 0
  {
    if |text| == 10 && IsDigits(text[..4]) && text[4] == '-' && IsDigits(text[5..7])
       && text[7] == '-' && IsDigits(text[8..])
    then
      var dt := Date(DigitsValue(text[..4]), DigitsValue(text[5..7]), DigitsValue(text[8..]));
      if ValidDate(dt) then WholeDays(DaysFromCivil(dt)); Some(DaysFromCivil(dt) * MsPerDay) else None
    else None
  }

  /** Two digits with a leading zero, as a date box writes a month or a day. */
  function TwoDigits(n: nat): (s: string)
    requires n < 100
    ensures |s| == 2 && IsDigits(s)
  {
    [DigitChar(n / 10), DigitChar(n % 10)]
  }

  /** Four digits with leading zeros, as a date box writes a year. */
  function FourDigits(n: nat): (s: string)
    requires n < 10000
    ensures |s| == 4 && IsDigits(s)
  {
    TwoDigits(n / 100) + TwoDigits(n % 100)
  }

  /** The "YYYY-MM-DD" text a date box produces for `dt`. */
  function IsoDateText(dt: Date): (s: string)
    requires 0 <= dt.year < 10000 && ValidDate(dt)
    ensures |s| == 10
  {
    FourDigits(dt.year) + "-" + TwoDigits(dt.month) + "-" + TwoDigits(dt.day)
  }

  lemma TwoDigitsValue(n: nat)
    requires n < 100
    ensures DigitsValue(TwoDigits(n)) == n
  {
    var s := TwoDigits(n);
    assert s[..|s| - 1] == [s[0]] && [s[0]][..0] == [];
    assert DigitsValue([s[0]]) == n / 10;
  }

  lemma FourDigitsValue(n: nat)
    requires n < 10000
    ensures DigitsValue(FourDigits(n)) == n
  {
    var s := FourDigits(n);
    assert s[..3][..2] == s[..2] && s[..2][..1] == s[..1] && s[..1][..0] == [];
    assert DigitsValue(s[..2]) == DigitsValue(TwoDigits(n / 100)) by {
      assert s[..2] == TwoDigits(n / 100);
    }
    TwoDigitsValue(n / 100);
  }

  /** Reading back the text a date box writes gives that day's midnight, in milliseconds. */
  lemma IsoDateRoundTrip(dt: Date)
    requires 0 <= dt.year < 10000 && ValidDate(dt)
    ensures ParseIsoDate(IsoDateText(dt)) == Some(DaysFromCivil(dt) * MsPerDay)
  {
    var s := IsoDateText(dt);
    assert s[..4] == FourDigits(dt.year);
    assert s[5..7] == TwoDigits(dt.month);
    assert s[8..] == TwoDigits(dt.day);
    FourDigitsValue(dt.year);
    TwoDigitsValue(dt.month);
    TwoDigitsValue(dt.day);
  }

  /** The text of a later date reads as a strictly later time. */
  lemma LaterIsoDateIsLater(dt: Date, later: Date)
    requires 0 <= dt.year < 10000 && ValidDate(dt)
    requires 0 <= later.year < 10000 && ValidDate(later)
    requires Before(dt, later)
    ensures ParseIsoDate(IsoDateText(dt)).Some? && ParseIsoDate(IsoDateText(later)).Some?
    ensures ParseIsoDate(IsoDateText(dt)).value < ParseIsoDate(IsoDateText(later)).value
  {
    IsoDateRoundTrip(dt);
    IsoDateRoundTrip(later);
    LaterDateIsLater(dt, later);
  }

  /** The Unix epoch itself reads as time 0. */
  lemma EpochIsZero()
    ensures ParseIsoDate("1970-01-01") == Some(0)
  {
    var epoch := Date(1970, 1, 1);
    assert IsoDateText(epoch) == "1970-01-01";
    assert DaysFromCivil(epoch) == 0;
    IsoDateRoundTrip(epoch);
  }
}
