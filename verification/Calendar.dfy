/**
 * Dates as ECMA-262 defines them (section 21.4.1), on unbounded integers: a proleptic Gregorian calendar, month and
 * day overflow in MakeDay, and a local clock at a fixed offset from UTC. A month is one integer, 12 * year + month.
 */
module Calendar {
  const MS_PER_DAY: int := 86_400_000
  const EPOCH_MONTH: int := 23_640

  predicate Leap(year: int) {
    year % 4 == 0 && (year % 100 != 0 || year % 400 == 0)
  }

  /** Day number of January 1st. */
  function DayFromYear(year: int): int {
    365 * (year - 1970) + (year - 1969) / 4 - (year - 1901) / 100 + (year - 1601) / 400
  }

  function LengthIn(monthInYear: int, leap: bool): int {
    if monthInYear == 1 then (if leap then 29 else 28)
    else if monthInYear in {3, 5, 8, 10} then 30
    else 31
  }

  /** Days of the year before a month, January being 0. */
  function DaysBefore(monthInYear: nat, leap: bool): int {
    if monthInYear == 0 then 0 else DaysBefore(monthInYear - 1, leap) + LengthIn(monthInYear - 1, leap)
  }

  function MonthLength(month: int): int {
    LengthIn(month % 12, Leap(month / 12))
  }

  /** Day number of the first of a month. */
  function FirstDay(month: int): int {
    DayFromYear(month / 12) + DaysBefore(month % 12, Leap(month / 12))
  }

  lemma FloorStep(a: int, k: int)
    requires k == 4 || k == 100 || k == 400
    ensures (a + 1) / k == a / k + if (a + 1) % k == 0 then 1 else 0
  {
  }

  lemma Multiples(year: int)
    ensures (year - 1968) % 4 == 0 <==> year % 4 == 0
    ensures (year - 1900) % 100 == 0 <==> year % 100 == 0
    ensures (year - 1600) % 400 == 0 <==> year % 400 == 0
    ensures (year % 400 == 0 ==> year % 100 == 0) && (year % 100 == 0 ==> year % 4 == 0)
  {
    Shift4(year);
    Shift100(year);
    Shift400(year);
    Coarser(year);
  }

  lemma Shift4(year: int)
    ensures (year - 1968) % 4 == 0 <==> year % 4 == 0
  {
    assert year - 1968 == 4 * (year / 4 - 492) + year % 4;
  }

  lemma Shift100(year: int)
    ensures (year - 1900) % 100 == 0 <==> year % 100 == 0
  {
    assert year - 1900 == 100 * (year / 100 - 19) + year % 100;
  }

  lemma Shift400(year: int)
    ensures (year - 1600) % 400 == 0 <==> year % 400 == 0
  {
    assert year - 1600 == 400 * (year / 400 - 4) + year % 400;
  }

  lemma Coarser(year: int)
    ensures (year % 400 == 0 ==> year % 100 == 0) && (year % 100 == 0 ==> year % 4 == 0)
  {
    HundredsAreHundreds(4 * (year / 400));
    FoursAreFours(25 * (year / 100));
  }

  lemma HundredsAreHundreds(c: int)
    ensures (100 * c) % 100 == 0
  {
  }

  lemma FoursAreFours(c: int)
    ensures (4 * c) % 4 == 0
  {
  }

  lemma YearLength(year: int)
    ensures DayFromYear(year + 1) == DayFromYear(year) + if Leap(year) then 366 else 365
  {
    FloorStep(year - 1969, 4);
    FloorStep(year - 1901, 100);
    FloorStep(year - 1601, 400);
    Multiples(year);
  }

  lemma December(leap: bool)
    ensures DaysBefore(11, leap) + LengthIn(11, leap) == if leap then 366 else 365
  {
    assert DaysBefore(11, true) == 335 && DaysBefore(11, false) == 334;
  }

  lemma FirstDayIs(month: int, year: int, m: nat)
    requires month == 12 * year + m && m < 12
    ensures FirstDay(month) == DayFromYear(year) + DaysBefore(m, Leap(year))
  {
    hide DayFromYear, DaysBefore, Leap;
  }

  /** The months by name. */
  lemma MonthLengthsAre(leap: bool)
    ensures LengthIn(0, leap) == 31 && LengthIn(1, leap) == (if leap then 29 else 28) && LengthIn(2, leap) == 31
    ensures LengthIn(3, leap) == 30 && LengthIn(4, leap) == 31 && LengthIn(5, leap) == 30
    ensures LengthIn(6, leap) == 31 && LengthIn(7, leap) == 31 && LengthIn(8, leap) == 30
    ensures LengthIn(9, leap) == 31 && LengthIn(10, leap) == 30 && LengthIn(11, leap) == 31
  {
  }

  /**
   * The day number of the first of a month, counted in years that begin in March, so that the leap day comes last: five
   * months have 153 days, and a fourth, a hundredth and a four hundredth year differ.
   */
  function MarchCount(year: int, m: nat): int {
    var y := if m < 2 then year - 1 else year;
    365 * y + y / 4 - y / 100 + y / 400 + (153 * ((m + 10) % 12) + 2) / 5 - 719_468
  }

  lemma BeforeMonth(m: nat, leap: bool)
    requires m < 12
    ensures DaysBefore(m, leap) == (153 * ((m + 10) % 12) + 2) / 5 + if m < 2 then -306 else if leap then 60 else 59
  {
    MonthLengthsAre(leap);
    hide LengthIn;
    assert DaysBefore(1, leap) == 31 && DaysBefore(2, leap) == if leap then 60 else 59;
    assert DaysBefore(3, leap) == DaysBefore(2, leap) + 31 && DaysBefore(4, leap) == DaysBefore(2, leap) + 61;
    assert DaysBefore(5, leap) == DaysBefore(2, leap) + 92 && DaysBefore(6, leap) == DaysBefore(2, leap) + 122;
    assert DaysBefore(7, leap) == DaysBefore(2, leap) + 153 && DaysBefore(8, leap) == DaysBefore(2, leap) + 184;
    assert DaysBefore(9, leap) == DaysBefore(2, leap) + 214 && DaysBefore(10, leap) == DaysBefore(2, leap) + 245;
    assert DaysBefore(11, leap) == DaysBefore(2, leap) + 275;
  }

  lemma YearStart(year: int)
    ensures var y := year - 1;
            DayFromYear(year) == 365 * y + y / 4 - y / 100 + y / 400 - 719_162
  {
    var y := year - 1;
    assert year - 1969 == y - 4 * 492 && year - 1901 == y - 100 * 19 && year - 1601 == y - 400 * 4;
  }

  /** Both counts agree for every month of every year. */
  lemma FirstDayIsMarchCount(year: int, m: nat)
    requires m < 12
    ensures FirstDay(12 * year + m) == MarchCount(year, m)
  {
    hide DaysBefore;
    FirstDayIs(12 * year + m, year, m);
    BeforeMonth(m, Leap(year));
    YearStart(year);
    hide DayFromYear;
    FloorStep(year - 1, 4);
    FloorStep(year - 1, 100);
    FloorStep(year - 1, 400);
    Coarser(year);
  }

  /** The months tile the day line. */
  lemma NextMonth(month: int)
    ensures FirstDay(month + 1) == FirstDay(month) + MonthLength(month)
    ensures 28 <= MonthLength(month) <= 31
  {
    var year, m := month / 12, month % 12;
    if m == 11 {
      YearLength(year);
      December(Leap(year));
      FirstDayIs(month + 1, year + 1, 0);
    } else {
      FirstDayIs(month + 1, year, m + 1);
    }
  }

  lemma {:induction false} MonthsApart(a: int, b: int)
    requires a <= b
    ensures FirstDay(a) + 28 * (b - a) <= FirstDay(b) <= FirstDay(a) + 31 * (b - a)
    decreases b - a
  {
    hide FirstDay, MonthLength;
    if a < b {
      MonthsApart(a, b - 1);
      NextMonth(b - 1);
    }
  }

  /** Searches upwards for the month that holds `day`. */
  function Climb(month: int, day: int): (r: int)
    requires FirstDay(month) <= day
    ensures month <= r
    ensures FirstDay(r) <= day < FirstDay(r + 1)
    decreases day - FirstDay(month)
  {
    NextMonth(month);
    hide FirstDay, MonthLength;
    if day < FirstDay(month + 1) then month else Climb(month + 1, day)
  }

  lemma EpochMonth()
    ensures FirstDay(EPOCH_MONTH) == 0
  {
    hide FirstDay;
    FirstDayIs(EPOCH_MONTH, 1970, 0);
  }

  function SearchFrom(day: int): (month: int)
    ensures FirstDay(month) <= day
  {
    EpochMonth();
    hide FirstDay;
    if 0 <= day then EPOCH_MONTH else
      MonthsApart(EPOCH_MONTH + day, EPOCH_MONTH);
      EPOCH_MONTH + day
  }

  /** The month a day lies in (YearFromTime and MonthFromTime together). */
  function MonthOf(day: int): (month: int)
    ensures FirstDay(month) <= day < FirstDay(month + 1)
  {
    hide FirstDay;
    Climb(SearchFrom(day), day)
  }

  lemma MonthIsUnique(month: int, day: int)
    requires FirstDay(month) <= day < FirstDay(month + 1)
    ensures MonthOf(day) == month
  {
    hide FirstDay, MonthOf, MonthLength;
    var other := MonthOf(day);
    if other < month {
      MonthsApart(other + 1, month);
    } else if month < other {
      MonthsApart(month + 1, other);
    }
  }

  /** DateFromTime: 1 to 31. */
  function DateOf(day: int): (date: int)
    ensures 1 <= date <= MonthLength(MonthOf(day))
  {
    NextMonth(MonthOf(day));
    day - FirstDay(MonthOf(day)) + 1
  }

  /** MakeDay: months outside 0 to 11 and dates outside the month roll over. */
  function MakeDay(year: int, month: int, date: int): int {
    FirstDay(12 * year + month) + date - 1
  }

  lemma FieldsRoundTrip(year: int, month: int, date: int)
    requires 1 <= date <= MonthLength(12 * year + month)
    ensures MonthOf(MakeDay(year, month, date)) == 12 * year + month
    ensures DateOf(MakeDay(year, month, date)) == date
  {
    hide FirstDay, MonthOf, MonthLength;
    NextMonth(12 * year + month);
    MonthIsUnique(12 * year + month, MakeDay(year, month, date));
  }

  /** Day 0 of the next month is the last day of this one. */
  lemma DayZero(month: int)
    ensures MonthOf(FirstDay(month + 1) - 1) == month
    ensures DateOf(FirstDay(month + 1) - 1) == MonthLength(month)
  {
    NextMonth(month);
    MonthIsUnique(month, FirstDay(month + 1) - 1);
  }

  /** The local day of an instant. */
  function DayAt(t: int, offset: int): int {
    (t + offset) / MS_PER_DAY
  }

  /** Milliseconds since local midnight. */
  function TimeOfDay(t: int, offset: int): int {
    (t + offset) % MS_PER_DAY
  }

  function MonthAt(t: int, offset: int): int {
    MonthOf(DayAt(t, offset))
  }

  lemma InstantFields(day: int, time: int, offset: int)
    requires 0 <= time < MS_PER_DAY
    ensures DayAt(day * MS_PER_DAY + time - offset, offset) == day
    ensures TimeOfDay(day * MS_PER_DAY + time - offset, offset) == time
  {
  }

  lemma DayBounds(t: int, offset: int)
    ensures DayAt(t, offset) * MS_PER_DAY - offset <= t < (DayAt(t, offset) + 1) * MS_PER_DAY - offset
  {
  }

  /** Date constructor and Date.UTC: a year argument from 0 to 99 means 1900 to 1999. */
  function FullYear(year: int): int {
    if 0 <= year <= 99 then 1900 + year else year
  }

  /** new Date(year, month, date, ...) at a fixed offset; Date.UTC is offset 0. */
  function NewDate(year: int, month: int, date: int, time: int, offset: int): int {
    MakeDay(FullYear(year), month, date) * MS_PER_DAY + time - offset
  }

  /** The days of January 1st of the years 0 and 100. */
  const YEAR_0: int := -719_528
  const YEAR_100: int := -683_003

  /** The days whose year the Date constructor misreads. */
  predicate Misread(day: int) {
    YEAR_0 <= day < YEAR_100
  }

  lemma MisreadYears(day: int)
    ensures Misread(day) <==> 0 <= MonthOf(day) / 12 <= 99
    ensures day < YEAR_100 <==> MonthOf(day) < 1200
  {
    YearStarts();
    hide FirstDay, MonthOf;
    EarlierMonth(day, 0);
    EarlierMonth(day, 1200);
  }

  lemma YearStarts()
    ensures FirstDay(0) == YEAR_0 && FirstDay(1200) == YEAR_100
  {
    hide FirstDay;
    FirstDayIs(0, 0, 0);
    FirstDayIs(1200, 100, 0);
  }

  lemma EarlierMonth(day: int, month: int)
    ensures day < FirstDay(month) <==> MonthOf(day) < month
  {
    hide FirstDay, MonthOf;
    var own := MonthOf(day);
    if own < month { MonthsApart(own + 1, month); } else { MonthsApart(month, own); }
  }
}
