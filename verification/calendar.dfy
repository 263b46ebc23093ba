/** The parts of java.util.Calendar, java.util.Date and SimpleDateFormat that
    the register uses, over the proleptic Gregorian calendar in one time zone:
    calendar fields, ordering of instants, adding months, the month distance
    of calculateMonthsDifference, and the "yyyy-MM-dd" and "MMM yyyy"
    renderings. */
module Calendar {
  import opened Text

  /** Calendar fields of an instant: the year, the month counted from 0 for
      January (as Calendar.MONTH counts it), the day of the month and the
      milliseconds elapsed since midnight. */
  datatype DateFields = DateFields(year: int, month: int, day: int, millis: int)

  predicate IsLeapYear(y: int) {
    y % 4 == 0 && (y % 100 != 0 || y % 400 == 0)
  }

  function DaysInMonth(y: int, m: int): (n: int)
    requires 0 <= m < 12
    ensures 28 <= n <= 31
  {
    if m == 1 then (if IsLeapYear(y) then 29 else 28)
    else if m == 3 || m == 5 || m == 8 || m == 10 then 30
    else 31
  }

  predicate ValidDate(d: DateFields) {
    && 1 <= d.year
    && 0 <= d.month < 12
    && 1 <= d.day <= DaysInMonth(d.year, d.month)
    && 0 <= d.millis < 86400000
  }

  /** An instant of the Christian era, as a java.util.Date denotes one. */
  type Date = d: DateFields | ValidDate(d) witness DateFields(1970, 0, 1, 0)

  /** Months elapsed from January of year 0 to the month of `d`. */
  function MonthIndex(d: Date): int {
    d.year * 12 + d.month
  }

  /** Date.before: `a` is an earlier instant than `b`. */
  predicate Before(a: Date, b: Date) {
    || a.year < b.year
    || (a.year == b.year && a.month < b.month)
    || (a.year == b.year && a.month == b.month && a.day < b.day)
    || (a.year == b.year && a.month == b.month && a.day == b.day && a.millis < b.millis)
  }

  /** Date.after: `a` is a later instant than `b`. */
  predicate After(a: Date, b: Date) {
    Before(b, a)
  }

  /** `a` and `b` fall on the same calendar day. */
  predicate SameDay(a: Date, b: Date) {
    a.year == b.year && a.month == b.month && a.day == b.day
  }

  /** Days of year `y` in the months before month `m`. */
  function DaysBeforeMonth(y: int, m: int): nat
    requires 0 <= m <= 12
  {
    if m == 0 then 0 else DaysBeforeMonth(y, m - 1) + DaysInMonth(y, m - 1)
  }

  /** Calendar.DAY_OF_YEAR, counted from 1 for January 1. */
  function DayOfYear(d: Date): (r: int)
    ensures r >= 1
  {
    DaysBeforeMonth(d.year, d.month) + d.day
  }

  lemma {:induction false} DaysBeforeMonthGrows(y: int, m1: int, m2: int)
    requires 0 <= m1 < m2 <= 12
    ensures DaysBeforeMonth(y, m2) >= DaysBeforeMonth(y, m1) + DaysInMonth(y, m1)
    decreases m2
  {
    if m2 > m1 + 1 {
      DaysBeforeMonthGrows(y, m1, m2 - 1);
    }
  }

  /** Within one year, the day of the year identifies month and day, so the
      test "same YEAR and same DAY_OF_YEAR" is exactly "same calendar day". */
  lemma DayOfYearIdentifiesDay(a: Date, b: Date)
    requires a.year == b.year
    ensures DayOfYear(a) == DayOfYear(b) <==> SameDay(a, b)
  {
    if a.month < b.month {
      DaysBeforeMonthGrows(a.year, a.month, b.month);
    } else if b.month < a.month {
      DaysBeforeMonthGrows(a.year, b.month, a.month);
    }
  }

  function Min(x: int, y: int): int {
    if x <= y then x else y
  }

  /** Calendar.add(Calendar.MONTH, k): moves the month forward by k, keeps
      the time of day, and pins the day of the month to the last day of the
      target month when that month is shorter. */
  function AddMonths(d: Date, k: nat): (r: Date)
    ensures MonthIndex(r) == MonthIndex(d) + k
    ensures r.day <= d.day && r.millis == d.millis
    ensures d.day <= DaysInMonth(r.year, r.month) ==> r.day == d.day
    ensures d.day > DaysInMonth(r.year, r.month) ==> r.day == DaysInMonth(r.year, r.month)
  {
    var t := MonthIndex(d) + k;
    var y, m := t / 12, t % 12;
    DateFields(y, m, Min(d.day, DaysInMonth(y, m)), d.millis)
  }

  /** calculateMonthsDifference(observation, start): the year difference
      times twelve plus the difference of the month fields. */
  function MonthsDifference(observation: Date, start: Date): (diff: int)
    ensures diff == MonthIndex(observation) - MonthIndex(start)
  {
    var years := observation.year - start.year;
    var months := observation.month - start.month;
    years * 12 + months
  }

  /** The month distance looks at year and month only: any two instants of
      the same month are at distance 0, and moving either argument within its
      month does not change the distance. */
  lemma MonthsDifferenceIgnoresDay(a: Date, a': Date, b: Date)
    requires a.year == a'.year && a.month == a'.month
    ensures MonthsDifference(a, a') == 0
    ensures MonthsDifference(a, b) == MonthsDifference(a', b)
    ensures MonthsDifference(b, a) == MonthsDifference(b, a')
  {
  }

  /** January 31 to February 1 is one month, not zero, whatever the times
      of day; so is December 31 to January 1 of the next year. */
  lemma MonthsDifferenceAcrossMonthEnd(jan31: Date, feb1: Date, dec31: Date, jan1: Date)
    requires jan31.month == 0 && jan31.day == 31 && feb1.month == 1 && feb1.day == 1
    requires jan31.year == feb1.year
    requires dec31.month == 11 && dec31.day == 31 && jan1.month == 0 && jan1.day == 1
    requires jan1.year == dec31.year + 1
    ensures MonthsDifference(feb1, jan31) == 1
    ensures MonthsDifference(jan1, dec31) == 1
  {
  }

  /** The month distance of anchor + k months from the anchor is k. */
  lemma MonthsDifferenceOfAddMonths(d: Date, k: nat)
    ensures MonthsDifference(AddMonths(d, k), d) == k
  {
  }

  /** An earlier instant never lies in a later month. */
  lemma BeforeMonthIndex(a: Date, b: Date)
    ensures Before(a, b) ==> MonthIndex(a) <= MonthIndex(b)
    ensures MonthIndex(a) < MonthIndex(b) ==> Before(a, b)
  {
  }

  predicate IsDigits(s: string) {
    forall i :: 0 <= i < |s| ==> '0' <= s[i] <= '9'
  }

  /** A numeric date field of `width` pattern letters: at least `width`
      digits, zero-padded. */
  function NumberField(n: nat, width: nat): (r: string)
    ensures IsDigits(r) && |r| >= width && |r| >= 1
  {
    ZeroPad(DecimalText(n), width)
  }

  lemma DigitsHaveNoSeparator(s: string)
    requires IsDigits(s)
    ensures ';' !in s
  {
  }

  /** SimpleDateFormat("yyyy-MM-dd"). */
  function IsoDay(d: Date): (r: string)
    ensures |r| >= 10 && ';' !in r
  {
    var year, month, day := NumberField(d.year, 4), NumberField(d.month + 1, 2), NumberField(d.day, 2);
    DigitsHaveNoSeparator(year);
    DigitsHaveNoSeparator(month);
    DigitsHaveNoSeparator(day);
    year + "-" + month + "-" + day
  }

  /** 10 January 2020 renders as "2020-01-10" and 15 February 2020 as
      "2020-02-15" (months are counted from 0, as Calendar.MONTH is). */
  lemma IsoDayExample()
    ensures IsoDay(DateFields(2020, 0, 10, 0)) == "2020-01-10"
    ensures IsoDay(DateFields(2020, 1, 15, 0)) == "2020-02-15"
  {
    FieldTexts();
    assert "2020" + "-" + "01" + "-" + "10" == "2020-01-10";
    assert "2020" + "-" + "02" + "-" + "15" == "2020-02-15";
  }

  lemma FieldTexts()
    ensures NumberField(2020, 4) == "2020"
    ensures NumberField(1, 2) == "01"
    ensures NumberField(10, 2) == "10"
    ensures NumberField(2, 2) == "02"
    ensures NumberField(15, 2) == "15"
  {
    YearText();
    assert DecimalText(1) == "1";
    assert ZeroPad("1", 2) == "01";
    assert DecimalText(10) == DecimalText(1) + "0";
    assert DecimalText(2) == "2";
    assert ZeroPad("2", 2) == "02";
    assert DecimalText(15) == DecimalText(1) + "5";
  }

  lemma YearText()
    ensures DecimalText(2020) == "2020"
  {
    assert DecimalText(20) == "2" + "0";
    assert DecimalText(202) == DecimalText(20) + "2";
    assert DecimalText(2020) == DecimalText(202) + "0";
  }

  function MonthAbbreviation(m: int): (r: string)
    requires 0 <= m < 12
    ensures |r| == 3 && ';' !in r
  {
    ["Jan", "Feb", "Mar", "Apr", "May", "Jun", "Jul", "Aug", "Sep", "Oct", "Nov", "Dec"][m]
  }

  /** SimpleDateFormat("MMM yyyy") in an English locale. */
  function MonthYear(d: Date): (r: string)
    ensures |r| >= 8 && ';' !in r
  {
    var r := MonthAbbreviation(d.month) + " " + NumberField(d.year, 4);
    assert forall i :: 0 <= i < |r| ==> r[i] != ';';
    r
  }
}
