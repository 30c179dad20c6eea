/**
 * The window of a backlink time series: whole days, weeks, calendar months or years back from an
 * end date, clamped to the first day the vendor has. A date is a day number, as in JavaScript
 * (day 0 is 1970-01-01); months count from 0.
 */
module Calendar {
  import opened Numbers
  import opened Numerals
  import opened Options

  // --- Days, months, years -------------------------------------------------------------------------

  predicate Leap(y: int) { y % 4 == 0 && (y % 100 != 0 || y % 400 == 0) }

  function DaysIn(month: int, leap: bool): (d: int)
    requires 0 <= month < 12
    ensures 28 <= d <= 31
  {
    if month == 1 then (if leap then 29 else 28) else if month in {3, 5, 8, 10} then 30 else 31
  }

  /** The length of a month counted through all years: month `12 * y + m` is month `m` of year `y`. */
  function Length(i: int): (d: int)
    ensures 28 <= d <= 31
  {
    DaysIn(i % 12, Leap(i / 12))
  }

  const EPOCH_MONTH: int := 12 * 1970

  /** The first day of such a month: the months of the calendar laid end to end. */
  function MonthStart(i: int): int
    decreases if i >= EPOCH_MONTH then i - EPOCH_MONTH else EPOCH_MONTH - i
  {
    if i == EPOCH_MONTH then 0
    else if i > EPOCH_MONTH then MonthStart(i - 1) + Length(i - 1)
    else MonthStart(i + 1) - Length(i)
  }

  lemma MonthsAbut(i: int)
    ensures MonthStart(i + 1) == MonthStart(i) + Length(i)
  {
  }

  lemma {:induction false} MonthsAscend(i: int, j: int)
    requires i <= j
    ensures MonthStart(i) + 28 * (j - i) <= MonthStart(j)
    decreases j - i
  {
    if i < j {
      MonthsAbut(i);
      MonthsAscend(i + 1, j);
    }
  }

  function MonthFrom(n: int, i: int): (month: int)
    requires MonthStart(i) <= n
    ensures MonthStart(month) <= n < MonthStart(month + 1)
    decreases n - MonthStart(i)
  {
    MonthsAscend(i, i + 1);
    if n < MonthStart(i + 1) then i else MonthFrom(n, i + 1)
  }

  /** A month that starts no later than a day. */
  function SomeMonthBefore(n: int): (i: int)
    ensures MonthStart(i) <= n
  {
    if n >= 0 then EPOCH_MONTH
    else MonthsAscend(EPOCH_MONTH + n / 28, EPOCH_MONTH); EPOCH_MONTH + n / 28
  }

  /** The month a day lies in. */
  function MonthOf(n: int): (month: int)
    ensures MonthStart(month) <= n < MonthStart(month + 1)
  {
    MonthFrom(n, SomeMonthBefore(n))
  }

  function YearOf(n: int): int { MonthOf(n) / 12 }

  function MonthInYear(n: int): (m: int)
    ensures 0 <= m < 12
  {
    MonthOf(n) % 12
  }

  function DayOf(n: int): (d: int)
    ensures 1 <= d <= Length(MonthOf(n))
  {
    MonthsAbut(MonthOf(n));
    n - MonthStart(MonthOf(n)) + 1
  }

  /** A day lies in one month only. */
  lemma MonthIsUnique(n: int, i: int)
    requires MonthStart(i) <= n < MonthStart(i + 1)
    ensures MonthOf(n) == i
  {
    hide MonthStart;
    var m := MonthOf(n);
    if m < i { MonthsAscend(m + 1, i); } else if i < m { MonthsAscend(i + 1, m); }
  }

  // --- JavaScript's own date arithmetic ------------------------------------------------------------

  function DayFromYear(y: int): int {
    365 * (y - 1970) + (y - 1969) / 4 - (y - 1901) / 100 + (y - 1601) / 400
  }

  function DaysBefore(month: int, leap: bool): int
    requires 0 <= month <= 12
  {
    if month == 0 then 0 else DaysBefore(month - 1, leap) + DaysIn(month - 1, leap)
  }

  /** `Date.UTC` takes the years 0 to 99 for the years of the twentieth century. */
  function FullYear(year: int): int { if 0 <= year <= 99 then 1900 + year else year }

  /** `Date.UTC`, which lets months and days run over in either direction. */
  function DateUtc(year: int, month: int, day: int): int {
    var y, m := FullYear(year) + month / 12, month % 12;
    DayFromYear(y) + DaysBefore(m, Leap(y)) + day - 1
  }

  lemma EveryFourth(y: int)
    ensures (y - 1968) / 4 - (y - 1969) / 4 == if y % 4 == 0 then 1 else 0
  {
  }

  lemma EveryHundredth(y: int)
    ensures (y - 1900) / 100 - (y - 1901) / 100 == if y % 100 == 0 then 1 else 0
  {
  }

  lemma EveryFourHundredth(y: int)
    ensures (y - 1600) / 400 - (y - 1601) / 400 == if y % 400 == 0 then 1 else 0
  {
  }

  lemma HundredthsAreFourths(y: int)
    ensures (y % 100 == 0 ==> y % 4 == 0) && (y % 400 == 0 ==> y % 100 == 0)
  {
    assert y % 100 == 0 ==> y == 4 * (25 * (y / 100));
    assert y % 400 == 0 ==> y == 100 * (4 * (y / 400));
  }

  lemma LeapCounts(y: int)
    requires (y % 100 == 0 ==> y % 4 == 0) && (y % 400 == 0 ==> y % 100 == 0)
    ensures (if Leap(y) then 1 else 0)
              == (if y % 4 == 0 then 1 else 0) - (if y % 100 == 0 then 1 else 0) + (if y % 400 == 0 then 1 else 0)
  {
  }

  lemma YearLength(y: int)
    ensures DayFromYear(y + 1) == DayFromYear(y) + (if Leap(y) then 366 else 365)
  {
    hide Leap;
    EveryFourth(y);
    EveryHundredth(y);
    EveryFourHundredth(y);
    HundredthsAreFourths(y);
    LeapCounts(y);
  }

  lemma AllMonths(leap: bool)
    ensures DaysBefore(12, leap) == if leap then 366 else 365
  {
    var extra := if leap then 1 else 0;
    assert DaysBefore(1, leap) == 31 && DaysBefore(2, leap) == 59 + extra;
    assert DaysBefore(4, leap) == 120 + extra;
    assert DaysBefore(6, leap) == 181 + extra;
    assert DaysBefore(8, leap) == 243 + extra;
    assert DaysBefore(10, leap) == 304 + extra;
  }

  lemma {:induction false} MonthsOfYear(y: int, m: int)
    requires 0 <= m <= 12
    ensures MonthStart(12 * y + m) == MonthStart(12 * y) + DaysBefore(m, Leap(y))
    decreases m
  {
    hide MonthStart, Leap, DaysIn;
    if m > 0 {
      MonthsOfYear(y, m - 1);
      MonthsAbut(12 * y + m - 1);
      assert (12 * y + m - 1) / 12 == y && (12 * y + m - 1) % 12 == m - 1;
    }
  }

  /** JavaScript's closed formula for the first day of a year agrees with the calendar, for every year. */
  lemma {:induction false} YearStarts(y: int)
    ensures MonthStart(12 * y) == DayFromYear(y)
    decreases if y >= 1970 then y - 1970 else 1970 - y
  {
    hide Leap, DaysBefore;
    if y == 1970 {
    } else {
      var from := if y > 1970 then y - 1 else y;
      YearStarts(if y > 1970 then y - 1 else y + 1);
      MonthsOfYear(from, 12);
      AllMonths(Leap(from));
      YearLength(from);
      assert 12 * from + 12 == 12 * (from + 1);
    }
  }

  lemma DateUtcIsMonthStart(year: int, month: int, day: int)
    ensures DateUtc(year, month, day) == MonthStart(12 * FullYear(year) + month) + day - 1
  {
    hide MonthStart, DayFromYear, DaysBefore, Leap, FullYear;
    var y := FullYear(year) + month / 12;
    YearStarts(y);
    MonthsOfYear(y, month % 12);
    assert 12 * y + month % 12 == 12 * FullYear(year) + month;
  }

  /** `Date.UTC` and the field readers are inverse on real dates. */
  lemma FieldsReadBack(i: int, day: int)
    requires 1 <= day <= Length(i)
    ensures var n := MonthStart(i) + day - 1; MonthOf(n) == i && DayOf(n) == day
  {
    hide MonthStart;
    MonthsAbut(i);
    MonthIsUnique(MonthStart(i) + day - 1, i);
  }

  // --- The window -------------------------------------------------------------------------------------

  function MonthsBack(n: int, months: int): int {
    var year, month := YearOf(n), MonthInYear(n) - months;
    var lastDayOfTargetMonth := DayOf(DateUtc(year, month + 1, 0));
    DateUtc(year, month, Min(DayOf(n), lastDayOfTargetMonth))
  }

  /** The month `Date.UTC` takes a day's month for. */
  function ReadMonth(n: int): int { 12 * FullYear(YearOf(n)) + MonthInYear(n) }

  /**
   * Going back whole months lands exactly that many months earlier, on the same day of the month or,
   * where the month is too short, on its last day.
   */
  lemma MonthsBackLands(n: int, months: int)
    ensures MonthOf(MonthsBack(n, months)) == ReadMonth(n) - months
    ensures DayOf(MonthsBack(n, months)) == Min(DayOf(n), Length(ReadMonth(n) - months))
    ensures ReadMonth(n) == MonthOf(n) <==> !(0 <= YearOf(n) <= 99)
  {
    hide MonthStart, MonthOf, Length, DateUtc;
    var year, month := YearOf(n), MonthInYear(n) - months;
    var i := ReadMonth(n) - months;
    assert i == 12 * FullYear(year) + month;
    DateUtcIsMonthStart(year, month + 1, 0);
    MonthsAbut(i);
    FieldsReadBack(i, Length(i));
    DateUtcIsMonthStart(year, month, Min(DayOf(n), Length(i)));
    FieldsReadBack(i, Min(DayOf(n), Length(i)));
  }

  /** The end date's midnight, put together from its fields. */
  function Midnight(n: int): int { DateUtc(YearOf(n), MonthInYear(n), DayOf(n)) }

  /** A date's fields put it together again, except in the years that `Date.UTC` moves. */
  lemma MidnightIsDay(n: int)
    ensures Midnight(n) == n <==> !(0 <= YearOf(n) <= 99)
    ensures !(0 <= YearOf(Midnight(n)) <= 99)
  {
    hide MonthStart, MonthOf, DateUtc;
    DateUtcIsMonthStart(YearOf(n), MonthInYear(n), DayOf(n));
    assert MonthOf(n) == 12 * YearOf(n) + MonthInYear(n);
    EarliestMonth(Midnight(n), ReadMonth(n));
  }

  lemma EarliestMonth(n: int, i: int)
    requires MonthStart(i) <= n
    ensures i <= MonthOf(n)
  {
    hide MonthStart;
    if MonthOf(n) < i { MonthsAscend(MonthOf(n) + 1, i); }
  }

  const MAX_PERIODS: int := 365
  const DEFAULT_PERIODS: int := 12

  function ClampPeriods(periods: Option<real>): int { ClampCount(periods, MAX_PERIODS, DEFAULT_PERIODS) }

  datatype GroupRange = Day | Week | Month | Year

  /** The window's first day, before the clamp to the vendor's history. */
  function Start(dateTo: int, group: GroupRange, span: int): int {
    var midnight := Midnight(dateTo);
    match group
    case Month => MonthsBack(midnight, span)
    case Year => MonthsBack(midnight, span * 12)
    case Day => midnight - (span - 1)
    case Week => midnight - span * 7
  }

  /**
   * Where a window starts: a span of days ends with the end date and counts it, weeks go back seven days
   * each, and months and years go back to the same day of the month, or the month's last, that many
   * months or years before.
   */
  lemma StartLands(dateTo: int, group: GroupRange, span: int)
    ensures var start, midnight := Start(dateTo, group, span), Midnight(dateTo);
            match group
            case Day => midnight - start + 1 == span
            case Week => midnight - start == 7 * span
            case Month => MonthOf(start) == MonthOf(midnight) - span && DayOf(start) == Min(DayOf(midnight), Length(MonthOf(start)))
            case Year => && YearOf(start) == YearOf(midnight) - span && MonthInYear(start) == MonthInYear(midnight)
                         && DayOf(start) == Min(DayOf(midnight), Length(MonthOf(start)))
  {
    hide MonthStart, MonthOf, MonthsBack, Midnight, Length, DayOf;
    MidnightIsDay(dateTo);
    var midnight := Midnight(dateTo);
    match group
    case Day =>
    case Week =>
    case Month => MonthsBackLands(midnight, span);
    case Year =>
      MonthsBackLands(midnight, span * 12);
      assert (MonthOf(midnight) - 12 * span) / 12 == MonthOf(midnight) / 12 - span;
      assert (MonthOf(midnight) - 12 * span) % 12 == MonthOf(midnight) % 12;
  }

  /** 2019-01-30. */
  const HISTORY_START: int := MonthStart(12 * 2019) + 29
  const HISTORY_START_TEXT: string := "2019-01-30"

  lemma EarlierMonthEarlierDay(a: int, b: int)
    requires MonthOf(a) < MonthOf(b)
    ensures a < b
  {
    hide MonthStart;
    MonthsAscend(MonthOf(a) + 1, MonthOf(b));
  }

  /** More periods never start the window later. */
  lemma StartNeverLater(dateTo: int, group: GroupRange, span: int, more: int)
    requires 1 <= span <= more
    ensures Start(dateTo, group, more) <= Start(dateTo, group, span)
  {
    hide MonthsBack, Midnight;
    match group
    case Month => MonthsBackNeverLater(Midnight(dateTo), span, more);
    case Year => MonthsBackNeverLater(Midnight(dateTo), span * 12, more * 12);
    case Day =>
    case Week =>
  }

  lemma MonthsBackNeverLater(n: int, months: int, more: int)
    requires months <= more
    ensures MonthsBack(n, more) <= MonthsBack(n, months)
  {
    hide MonthsBack, MonthOf, MonthStart;
    if months < more {
      MonthsBackLands(n, months);
      MonthsBackLands(n, more);
      EarlierMonthEarlierDay(MonthsBack(n, more), MonthsBack(n, months));
    }
  }

  // --- Dates as text ------------------------------------------------------------------------------------

  function Pad(width: nat, v: nat): string {
    if width == 0 then "" else Pad(width - 1, v / 10) + [Digit(v % 10)]
  }

  function Tens(width: nat): (t: int)
    ensures t >= 1
  {
    if width == 0 then 1 else 10 * Tens(width - 1)
  }

  predicate FourDigitYear(n: int) { 0 <= YearOf(n) <= 9999 }

  /** The first ten characters of an ISO timestamp: other years have a sign and six digits. */
  function Text(n: int): string {
    if FourDigitYear(n) then Pad(4, YearOf(n)) + ("-" + (Pad(2, MonthInYear(n) + 1) + ("-" + Pad(2, DayOf(n)))))
    else if YearOf(n) < 0 then "-" + (Pad(6, -YearOf(n)) + ("-" + Pad(2, MonthInYear(n) + 1)))
    else "+" + (Pad(6, YearOf(n)) + ("-" + Pad(2, MonthInYear(n) + 1)))
  }

  /** JavaScript's `<` on strings. */
  predicate Before(s: string, t: string) {
    if t == "" then false
    else if s == "" then true
    else s[0] < t[0] || (s[0] == t[0] && Before(s[1..], t[1..]))
  }

  lemma {:induction false} BeforeAppend(a: string, b: string, c: string, d: string)
    requires |a| == |b|
    ensures Before(a + c, b + d) <==> Before(a, b) || (a == b && Before(c, d))
    decreases |a|
  {
    if a == "" {
      assert a + c == c && b + d == d;
    } else {
      BeforeAppend(a[1..], b[1..], c, d);
      assert (a + c)[1..] == a[1..] + c && (b + d)[1..] == b[1..] + d;
      assert a == b <==> a[0] == b[0] && a[1..] == b[1..] by { assert a == [a[0]] + a[1..] && b == [b[0]] + b[1..]; }
    }
  }

  /** Padded numbers compare as text the way they compare as numbers. */
  lemma {:induction false} PadOrder(width: nat, u: nat, v: nat)
    requires u < Tens(width) && v < Tens(width)
    ensures |Pad(width, u)| == |Pad(width, v)| == width
    ensures (Before(Pad(width, u), Pad(width, v)) <==> u < v) && (Pad(width, u) == Pad(width, v) <==> u == v)
    decreases width
  {
    if width > 0 {
      PadOrder(width - 1, u / 10, v / 10);
      BeforeAppend(Pad(width - 1, u / 10), Pad(width - 1, v / 10), [Digit(u % 10)], [Digit(v % 10)]);
      OneDigit(u % 10, v % 10);
      SameFront(Pad(width - 1, u / 10), Pad(width - 1, v / 10), Digit(u % 10), Digit(v % 10));
    }
  }

  lemma OneDigit(a: int, b: int)
    requires 0 <= a < 10 && 0 <= b < 10
    ensures (Before([Digit(a)], [Digit(b)]) <==> a < b) && (Digit(a) == Digit(b) <==> a == b)
  {
    assert [Digit(a)][1..] == "" && [Digit(b)][1..] == "";
  }

  lemma SameFront(a: string, b: string, x: char, y: char)
    requires |a| == |b|
    ensures a + [x] == b + [y] <==> a == b && x == y
  {
    if a + [x] == b + [y] {
      assert a == (a + [x])[..|a|] && b == (b + [y])[..|b|];
      assert x == (a + [x])[|a|] && y == (b + [y])[|b|];
    }
  }

  /** Text order is date order. */
  lemma TextOrder(a: int, b: int)
    requires FourDigitYear(a) && FourDigitYear(b)
    ensures Before(Text(a), Text(b)) <==> a < b
  {
    hide Pad, MonthOf, MonthStart, Before;
    PowersOfTen();
    PadOrder(4, YearOf(a), YearOf(b));
    PadOrder(2, MonthInYear(a) + 1, MonthInYear(b) + 1);
    PadOrder(2, DayOf(a), DayOf(b));
    var monthA, monthB := Pad(2, MonthInYear(a) + 1), Pad(2, MonthInYear(b) + 1);
    var dayA, dayB := Pad(2, DayOf(a)), Pad(2, DayOf(b));
    BeforeAppend(Pad(4, YearOf(a)), Pad(4, YearOf(b)), "-" + (monthA + ("-" + dayA)), "-" + (monthB + ("-" + dayB)));
    BeforeAppend("-", "-", monthA + ("-" + dayA), monthB + ("-" + dayB));
    BeforeAppend(monthA, monthB, "-" + dayA, "-" + dayB);
    BeforeAppend("-", "-", dayA, dayB);
    NotBeforeItself("-");
    FieldOrder(a, b);
  }

  lemma PowersOfTen()
    ensures Tens(4) == 10000 && Tens(2) == 100
  {
  }

  lemma {:induction false} NotBeforeItself(s: string)
    ensures !Before(s, s)
    decreases |s|
  {
    if s != "" { NotBeforeItself(s[1..]); }
  }

  /** Dates compare by year, then month, then day. */
  lemma FieldOrder(a: int, b: int)
    ensures a < b <==>
              (|| YearOf(a) < YearOf(b)
               || (YearOf(a) == YearOf(b) && MonthInYear(a) < MonthInYear(b))
               || (YearOf(a) == YearOf(b) && MonthInYear(a) == MonthInYear(b) && DayOf(a) < DayOf(b)))
  {
    hide MonthStart, MonthOf;
    var i, j := MonthOf(a), MonthOf(b);
    assert i == 12 * (i / 12) + i % 12 && j == 12 * (j / 12) + j % 12;
    if i < j { EarlierMonthEarlierDay(a, b); }
    if j < i { EarlierMonthEarlierDay(b, a); }
  }

  function WindowStart(dateTo: int, group: GroupRange, periods: Option<real>): string {
    var asText := Text(Start(dateTo, group, ClampPeriods(periods)));
    if Before(asText, HISTORY_START_TEXT) then HISTORY_START_TEXT else asText
  }

  lemma HistoryFields()
    ensures MonthOf(HISTORY_START) == 12 * 2019 && DayOf(HISTORY_START) == 30
  {
    hide MonthStart, MonthOf, DayOf;
    assert Length(12 * 2019) == 31;
    FieldsReadBack(12 * 2019, 30);
  }

  lemma HistoryText()
    ensures FourDigitYear(HISTORY_START) && Text(HISTORY_START) == HISTORY_START_TEXT
  {
    hide MonthOf, MonthStart, Pad, Digit;
    HistoryFields();
    assert YearOf(HISTORY_START) == 2019 && MonthInYear(HISTORY_START) == 0;
    HistoryPads();
    assert Text(HISTORY_START) == "2019" + ("-" + ("01" + ("-" + "30")));
  }

  lemma HistoryPads()
    ensures Pad(4, 2019) == "2019" && Pad(2, 1) == "01" && Pad(2, 30) == "30"
  {
    PadTwo(1);
    PadTwo(30);
    PadFour(2019);
  }

  lemma PadTwo(v: nat)
    requires v < 100
    ensures Pad(2, v) == [Digit(v / 10), Digit(v % 10)]
  {
    assert Pad(1, v / 10) == [Digit(v / 10)];
  }

  lemma PadFour(v: nat)
    requires v < 10000
    ensures Pad(4, v) == [Digit(v / 1000), Digit(v / 100 % 10), Digit(v / 10 % 10), Digit(v % 10)]
  {
    hide Pad, Digit;
    PadStep(4, v);
    PadStep(3, v / 10);
    PadTwo(v / 10 / 10);
    assert v / 10 / 10 == v / 100 && v / 100 / 10 == v / 1000;
  }

  lemma PadStep(width: nat, v: nat)
    requires width > 0
    ensures Pad(width, v) == Pad(width - 1, v / 10) + [Digit(v % 10)]
  {
  }

  /** A sign stands before every digit, so a year with a sign compares as one before the vendor's history. */
  lemma SignedText(n: int)
    requires !FourDigitYear(n)
    ensures Before(Text(n), HISTORY_START_TEXT) && Text(n) != HISTORY_START_TEXT
  {
    hide Pad, MonthOf;
    var sign := Text(n)[0];
    assert sign == '-' || sign == '+';
    assert HISTORY_START_TEXT[0] == '2';
  }

  /** A window never starts after its end's midnight, and reaches back at most 365 years. */
  lemma StartInReach(dateTo: int, group: GroupRange, span: int)
    requires 1 <= span <= MAX_PERIODS
    ensures Start(dateTo, group, span) <= Midnight(dateTo)
    ensures MonthOf(Midnight(dateTo)) - 12 * MAX_PERIODS <= MonthOf(Start(dateTo, group, span))
  {
    hide MonthStart, MonthOf, MonthsBack, Midnight;
    var start, midnight := Start(dateTo, group, span), Midnight(dateTo);
    if group.Month? || group.Year? {
      MidnightIsDay(dateTo);
      MonthsBackLands(midnight, if group.Month? then span else span * 12);
      EarlierMonthEarlierDay(start, midnight);
    } else {
      assert midnight - 2555 <= start <= midnight;
      WeeksAreFewYears(midnight, start);
    }
  }

  /** Fewer than 2556 days span fewer than 93 months. */
  lemma WeeksAreFewYears(dateTo: int, start: int)
    requires dateTo - 2555 <= start <= dateTo
    ensures MonthOf(dateTo) - 93 <= MonthOf(start)
  {
    hide MonthStart;
    if MonthOf(start) < MonthOf(dateTo) - 93 {
      MonthsAscend(MonthOf(start) + 1, MonthOf(dateTo));
    }
  }

  /**
   * The text clamp is the date clamp, the asked-for day or the vendor's first day, whichever is later,
   * for every end date, if and only if the asked-for day lies before the year 10000. It is never after
   * the end unless the end itself is before the vendor's first day.
   */
  lemma WindowStartIsClampedDate(dateTo: int, group: GroupRange, periods: Option<real>)
    ensures var start := Start(dateTo, group, ClampPeriods(periods));
            && (WindowStart(dateTo, group, periods) == Text(Max(start, HISTORY_START)) <==> YearOf(start) <= 9999)
            && (Max(start, HISTORY_START) <= Midnight(dateTo) <==> HISTORY_START <= Midnight(dateTo))
  {
    hide MonthStart, MonthOf, Text, Start, Before, Midnight;
    var start := Start(dateTo, group, ClampPeriods(periods));
    StartInReach(dateTo, group, ClampPeriods(periods));
    HistoryText();
    HistoryFields();
    if FourDigitYear(start) {
      TextOrder(start, HISTORY_START);
    } else {
      SignedText(start);
      FieldOrder(start, HISTORY_START);
      FieldOrder(HISTORY_START, start);
    }
  }

  lemma InHistory(n: int)
    requires YearOf(n) <= 9999
    ensures FourDigitYear(Max(n, HISTORY_START))
  {
    hide MonthStart, MonthOf;
    HistoryFields();
    FieldOrder(n, HISTORY_START);
  }

  /** What is sent. */
  lemma SentText(dateTo: int, group: GroupRange, periods: real)
    ensures var start := Start(dateTo, group, ClampPeriods(Some(periods)));
            WindowStart(dateTo, group, Some(periods)) == Text(if YearOf(start) > 9999 then HISTORY_START else Max(start, HISTORY_START))
    ensures FourDigitYear(HISTORY_START)
  {
    hide MonthStart, MonthOf, Text, Start, Before, Midnight;
    var start := Start(dateTo, group, ClampPeriods(Some(periods)));
    WindowStartIsClampedDate(dateTo, group, Some(periods));
    HistoryText();
    if YearOf(start) > 9999 { SignedText(start); }
  }

  /**
   * Asking for more periods never makes the sent window start later, for every end date, unless the
   * smaller window starts after the year 9999 and the larger one does not.
   */
  lemma WindowNeverShrinks(dateTo: int, group: GroupRange, periods: real, more: real)
    requires periods <= more
    ensures var a, b := Start(dateTo, group, ClampPeriods(Some(periods))), Start(dateTo, group, ClampPeriods(Some(more)));
            !Before(WindowStart(dateTo, group, Some(periods)), WindowStart(dateTo, group, Some(more))) <==>
              !(YearOf(b) <= 9999 < YearOf(a))
  {
    hide MonthStart, MonthOf, Text, Start, WindowStart, Before, Midnight;
    var a, b := Start(dateTo, group, ClampPeriods(Some(periods))), Start(dateTo, group, ClampPeriods(Some(more)));
    ClampMonotone(periods, more, MAX_PERIODS, DEFAULT_PERIODS);
    StartNeverLater(dateTo, group, ClampPeriods(Some(periods)), ClampPeriods(Some(more)));
    SentText(dateTo, group, periods);
    SentText(dateTo, group, more);
    FieldOrder(a, b);
    HistoryFields();
    if YearOf(a) <= 9999 {
      InHistory(a);
      InHistory(b);
      TextOrder(Max(a, HISTORY_START), Max(b, HISTORY_START));
    } else {
      StartInReach(dateTo, group, ClampPeriods(Some(periods)));
      StartInReach(dateTo, group, ClampPeriods(Some(more)));
      FieldOrder(a, Midnight(dateTo));
      FieldOrder(HISTORY_START, b);
      TextOrder(HISTORY_START, if YearOf(b) <= 9999 then b else HISTORY_START);
    }
  }
}
