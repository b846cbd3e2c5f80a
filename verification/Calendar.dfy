/**
 * The proleptic Gregorian calendar in UTC, as `Date` computes it (section 21.4.1 of ECMA-262).
 * Instants are milliseconds since 1970-01-01T00:00:00Z; days and years are unbounded integers.
 */
module Calendar {

  // --- a sequence of instants that tiles the line -----------------------------

  ghost predicate Increasing(f: int -> int) { forall i, j :: i < j ==> f(i) < f(j) }

  /** Increasing at every single step is increasing throughout. */
  lemma {:induction false} StepwiseIncreasing(f: int -> int, i: int, j: int)
    requires forall k :: i <= k < j ==> f(k) < f(k + 1)
    requires i < j
    ensures f(i) < f(j)
    decreases j - i
  {
    if i + 1 < j { StepwiseIncreasing(f, i, j - 1); }
    assert f(j - 1) < f(j - 1 + 1);
  }

  function SlotUp(f: int -> int, x: int, i: int): (r: int)
    requires Increasing(f) && f(i) <= x
    ensures f(r) <= x < f(r + 1)
    decreases x - f(i)
  {
    if x < f(i + 1) then i else SlotUp(f, x, i + 1)
  }

  function SlotDown(f: int -> int, x: int, i: int): (r: int)
    requires Increasing(f) && x < f(i)
    ensures f(r) <= x < f(r + 1)
    decreases f(i) - x
  {
    if f(i - 1) <= x then i - 1 else SlotDown(f, x, i - 1)
  }

  /** The slot `[f(r), f(r + 1))` that holds `x`, searched for from `start`. */
  function Slot(f: int -> int, x: int, start: int): (r: int)
    requires Increasing(f)
    ensures f(r) <= x < f(r + 1)
  {
    if f(start) <= x then SlotUp(f, x, start) else SlotDown(f, x, start)
  }

  lemma SlotUnique(f: int -> int, x: int, i: int, j: int)
    requires Increasing(f) && f(i) <= x < f(i + 1) && f(j) <= x < f(j + 1)
    ensures i == j
  {
    assert i + 1 < j ==> f(i + 1) < f(j);
    assert j + 1 < i ==> f(j + 1) < f(i);
  }

  // --- years, months and days -------------------------------------------------

  const MS_PER_DAY := 86_400_000

  predicate Leap(year: int) { year % 4 == 0 && (year % 100 != 0 || year % 400 == 0) }

  /** DayFromYear: the day number of the first of January. */
  function DayFromYear(year: int): int {
    365 * (year - 1970) + (year - 1969) / 4 - (year - 1901) / 100 + (year - 1601) / 400
  }

  function YearLength(year: int): int { if Leap(year) then 366 else 365 }

  lemma NextYear(year: int)
    ensures DayFromYear(year + 1) == DayFromYear(year) + YearLength(year)
  {
    NextOlympiad(year);
    NextCentury(year);
    NextCycle(year);
    assert DayFromYear(year + 1) - DayFromYear(year)
           == 365 + (if year % 4 == 0 then 1 else 0) - (if year % 100 == 0 then 1 else 0) + (if year % 400 == 0 then 1 else 0);
    LeapRule(year);
  }

  lemma FourHundreds(year: int)
    ensures year % 400 == 0 ==> year % 100 == 0
  {
    var q := year / 400;
    assert year == 400 * q + year % 400;
    assert year % 400 == 0 ==> year == 100 * (4 * q);
  }

  lemma Hundreds(year: int)
    ensures year % 100 == 0 ==> year % 4 == 0
  {
    var q := year / 100;
    assert year == 100 * q + year % 100;
    assert year % 100 == 0 ==> year == 4 * (25 * q);
  }

  lemma LeapRule(year: int)
    ensures YearLength(year)
            == 365 + (if year % 4 == 0 then 1 else 0) - (if year % 100 == 0 then 1 else 0) + (if year % 400 == 0 then 1 else 0)
  {
    FourHundreds(year);
    Hundreds(year);
  }

  lemma NextOlympiad(year: int)
    ensures (year - 1968) / 4 == (year - 1969) / 4 + if year % 4 == 0 then 1 else 0
  {
  }

  lemma NextCentury(year: int)
    ensures (year - 1900) / 100 == (year - 1901) / 100 + if year % 100 == 0 then 1 else 0
  {
  }

  lemma NextCycle(year: int)
    ensures (year - 1600) / 400 == (year - 1601) / 400 + if year % 400 == 0 then 1 else 0
  {
  }

  /** Days before the first of a month (0 is January). */
  function DaysBefore(month: int, leap: bool): int
    requires 0 <= month <= 12
  {
    var f := if leap then 1 else 0;
    if month == 0 then 0 else if month == 1 then 31 else if month == 2 then 59 + f
    else if month == 3 then 90 + f else if month == 4 then 120 + f else if month == 5 then 151 + f
    else if month == 6 then 181 + f else if month == 7 then 212 + f else if month == 8 then 243 + f
    else if month == 9 then 273 + f else if month == 10 then 304 + f else if month == 11 then 334 + f
    else 365 + f
  }

  /** Months are counted from year zero: `12 * year + month`, with 0 for January. */
  const EPOCH_MONTH := 23640

  function MonthLength(index: int): (n: int)
    ensures 28 <= n <= 31
  {
    if index % 12 in {3, 5, 8, 10} then 30
    else if index % 12 != 1 then 31
    else if Leap(index / 12) then 29
    else 28
  }

  /** The day number of the first of a month, by adding up month lengths from January 1970. */
  function MonthStart(index: int): int
    decreases if index >= EPOCH_MONTH then index - EPOCH_MONTH else EPOCH_MONTH - index
  {
    if index == EPOCH_MONTH then 0
    else if index > EPOCH_MONTH then MonthStart(index - 1) + MonthLength(index - 1)
    else MonthStart(index + 1) - MonthLength(index)
  }

  lemma NextMonth(index: int)
    ensures MonthStart(index + 1) == MonthStart(index) + MonthLength(index)
  {
  }

  /** The day number of the first of a month in closed form, from DayFromYear and the month table. */
  function MakeDay(index: int): int {
    DayFromYear(index / 12) + DaysBefore(index % 12, Leap(index / 12))
  }

  lemma NextMakeDay(index: int)
    ensures MakeDay(index + 1) == MakeDay(index) + MonthLength(index)
  {
    NextYear(index / 12);
    if index % 12 == 11 {
      assert (index + 1) / 12 == index / 12 + 1 && (index + 1) % 12 == 0;
    } else {
      assert (index + 1) / 12 == index / 12 && (index + 1) % 12 == index % 12 + 1;
    }
  }

  lemma MakeDayStep(index: int)
    ensures MakeDay(index) == MonthStart(index) <==> MakeDay(index + 1) == MonthStart(index + 1)
  {
    NextMakeDay(index);
    NextMonth(index);
  }

  lemma MakeDayEpoch()
    ensures MakeDay(EPOCH_MONTH) == 0
  {
  }

  /** The closed form agrees with the calendar in every month, past and future. */
  lemma {:induction false} MakeDayIsMonthStart(index: int)
    ensures MakeDay(index) == MonthStart(index)
    decreases if index >= EPOCH_MONTH then index - EPOCH_MONTH else EPOCH_MONTH - index
  {
    hide MakeDay;
    if index == EPOCH_MONTH {
      MakeDayEpoch();
    } else if index > EPOCH_MONTH {
      MakeDayIsMonthStart(index - 1);
      MakeDayStep(index - 1);
    } else {
      MakeDayIsMonthStart(index + 1);
      MakeDayStep(index);
    }
  }

  lemma MonthsIncrease()
    ensures Increasing(MonthStart)
  {
    forall i, j | i < j ensures MonthStart(i) < MonthStart(j) {
      forall k | i <= k < j ensures MonthStart(k) < MonthStart(k + 1) { NextMonth(k); }
      StepwiseIncreasing(MonthStart, i, j);
    }
  }

  /** The month a day falls in, found by walking from January 1970. */
  function MonthOfDay(day: int): (index: int)
    ensures MonthStart(index) <= day < MonthStart(index + 1)
  {
    hide MonthStart;
    MonthsIncrease();
    Slot(MonthStart, day, 12 * 1970)
  }

  lemma SameMonth(day: int, i: int, j: int)
    requires MonthStart(i) <= day < MonthStart(i + 1) && MonthStart(j) <= day < MonthStart(j + 1)
    ensures i == j
  {
    hide MonthStart;
    MonthsIncrease();
    SlotUnique(MonthStart, day, i, j);
  }

  // --- the getters ------------------------------------------------------------

  function DayOf(at: int): int { at / MS_PER_DAY }

  /** A date as `getUTCFullYear`, `getUTCMonth` (0 is January) and `getUTCDate` report it. */
  datatype Civil = Civil(year: int, month: int, date: int) {
    predicate Valid() { 0 <= month < 12 && 1 <= date <= MonthLength(12 * year + month) }

    /** The day number of a date. */
    function Day(): int { MonthStart(12 * year + month) + date - 1 }
  }

  /** The date of a day of a month. */
  function CivilIn(index: int, day: int): (c: Civil)
    requires MonthStart(index) <= day < MonthStart(index + 1)
    ensures 12 * c.year + c.month == index && 0 <= c.month < 12
    ensures c.date == day - MonthStart(index) + 1 && 1 <= c.date <= MonthLength(index)
  {
    NextMonth(index);
    Civil(index / 12, index % 12, day - MonthStart(index) + 1)
  }

  function CivilOf(at: int): (c: Civil)
    ensures c.Valid() && c.Day() == DayOf(at)
  {
    hide MonthStart, MonthLength, MonthOfDay;
    CivilIn(MonthOfDay(DayOf(at)), DayOf(at))
  }

  lemma SameDate(i: int, date: int, j: int, other: int)
    requires 1 <= date <= MonthLength(i) && 1 <= other <= MonthLength(j)
    requires MonthStart(i) + date == MonthStart(j) + other
    ensures i == j && date == other
  {
    hide MonthStart, MonthLength;
    NextMonth(i);
    NextMonth(j);
    SameMonth(MonthStart(i) + date - 1, i, j);
  }

  /** A valid date is what the getters report at its midnight. */
  lemma CivilAtMidnight(c: Civil, at: int)
    requires c.Valid() && DayOf(at) == c.Day()
    ensures CivilOf(at) == c
  {
    hide MonthStart, MonthLength, MonthOfDay;
    var d := CivilOf(at);
    SameDate(12 * c.year + c.month, c.date, 12 * d.year + d.month, d.date);
  }

  // --- Date.UTC ---------------------------------------------------------------

  /** MakeFullYear: a year argument of 0..99 means 1900..1999. */
  function FullYear(year: int): int { if 0 <= year <= 99 then 1900 + year else year }

  /** MakeDay then MakeDate at midnight: the month argument may lie outside 0..11. */
  function Utc(year: int, month: int, date: int): int {
    (MonthStart(12 * FullYear(year) + month) + date - 1) * MS_PER_DAY
  }

  /** The same through the closed form of MakeDay and DayFromYear. */
  lemma UtcClosedForm(year: int, month: int, date: int)
    ensures Utc(year, month, date) == (MakeDay(12 * FullYear(year) + month) + date - 1) * MS_PER_DAY
  {
    MakeDayIsMonthStart(12 * FullYear(year) + month);
  }

  lemma DayOfMidnight(day: int)
    ensures DayOf(day * MS_PER_DAY) == day
  {
  }
}
