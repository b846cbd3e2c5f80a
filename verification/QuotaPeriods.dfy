/** The calendar window a quota counts in, and the key its usage is filed under. */
module QuotaPeriods {
  import opened Text
  import opened Calendar
  import opened IsoText

  datatype Period = Daily | Monthly | Annual

  datatype Window = Window(start: int, end: int, key: string)

  /** Texts of which no character is a colon: what a store key relies on. */
  predicate NoColon(s: string) { forall i :: 0 <= i < |s| ==> s[i] != ':' }

  function Integer(n: int): string { if n < 0 then "-" + Numeral(-n, Decimal) else Numeral(n, Decimal) }

  // --- the window -------------------------------------------------------------

  /** The year an annual window starts in: one earlier for the days before the reset. */
  function AnnualYear(reset: int, c: Civil): int {
    if c.month == 0 && c.date < reset then c.year - 1 else c.year
  }

  function DailyPeriod(c: Civil): Window {
    var start := Utc(c.year, c.month, c.date);
    Window(start, start + MS_PER_DAY, IsoDate(start)[..10])
  }

  function AnnualPeriod(reset: int, c: Civil): Window {
    var year := AnnualYear(reset, c);
    Window(Utc(year, 0, reset), Utc(year + 1, 0, reset), Integer(year))
  }

  function MonthlyPeriod(reset: int, c: Civil): Window {
    var month := if c.date < reset then c.month - 1 else c.month;
    var start := Utc(c.year, month, reset);
    var s := CivilOf(start);
    Window(start, Utc(s.year, s.month + 1, reset), IsoDate(start)[..7])
  }

  function PeriodFor(period: Period, reset: int, at: int): Window {
    match period
    case Daily => DailyPeriod(CivilOf(at))
    case Monthly => MonthlyPeriod(reset, CivilOf(at))
    case Annual => AnnualPeriod(reset, CivilOf(at))
  }

  // --- the tiling it should be ------------------------------------------------

  /** Month starts at least 28 days apart. */
  ghost predicate Spaced(f: int -> int) { forall i, j :: i < j ==> f(i) + 28 <= f(j) }

  lemma MonthsSpaced()
    ensures Spaced(MonthStart)
  {
    hide MonthStart;
    forall i, j | i < j ensures MonthStart(i) + 28 <= MonthStart(j) {
      NextMonth(i);
      MonthsIncrease();
      assert i + 1 == j || MonthStart(i + 1) < MonthStart(j);
    }
  }

  /** The n-th boundary of a period, as a day number, over the months' first days. */
  function Boundary(months: int -> int, period: Period, reset: int, n: int): int {
    match period
    case Daily => n
    case Monthly => months(n) + reset - 1
    case Annual => months(12 * n) + reset - 1
  }

  /** Which window holds a date. */
  function WindowIndex(period: Period, reset: int, c: Civil): int {
    match period
    case Daily => c.Day()
    case Monthly => 12 * c.year + c.month - if c.date < reset then 1 else 0
    case Annual => AnnualYear(reset, c)
  }

  /** Every date lies between its window's boundary and the next one. */
  lemma WithinWindow(months: int -> int, period: Period, reset: int, c: Civil, day: int)
    requires Spaced(months) && 1 <= reset <= 28 && 0 <= c.month < 12
    requires day == months(12 * c.year + c.month) + c.date - 1 < months(12 * c.year + c.month + 1) && 1 <= c.date
    requires period.Daily? ==> day == c.Day()
    ensures var n := WindowIndex(period, reset, c);
            Boundary(months, period, reset, n) <= day < Boundary(months, period, reset, n + 1)
  {
    var m := 12 * c.year + c.month;
    match period
    case Daily =>
    case Monthly =>
      assert months(m - 1) + 28 <= months(m) && months(m) + 28 <= months(m + 1);
    case Annual =>
      var y := c.year;
      assert 12 * (y + 1) == 12 * y + 12 && 12 * (y - 1) == 12 * y - 12;
      assert months(12 * y - 12) + 28 <= months(12 * y);
      if m != 12 * y { assert months(12 * y) + 28 <= months(m); }
      assert m + 1 == 12 * y + 12 || months(m + 1) + 28 <= months(12 * y + 12);
  }

  lemma BoundariesIncrease(months: int -> int, period: Period, reset: int, m: int, n: int)
    requires Spaced(months)
    ensures m < n ==> Boundary(months, period, reset, m) < Boundary(months, period, reset, n)
    ensures m <= n ==> Boundary(months, period, reset, m) <= Boundary(months, period, reset, n)
  {
    if m < n { assert 12 * m < 12 * n; }
  }

  // --- what the code computes -------------------------------------------------

  predicate Plain(year: int) { !(0 <= year <= 99) }

  /** No year handed to `Date.UTC` while finding the window is one it reads as 1900 to 1999. */
  predicate Ordinary(period: Period, reset: int, c: Civil) {
    match period
    case Daily => Plain(c.year)
    case Annual => Plain(AnnualYear(reset, c)) && Plain(AnnualYear(reset, c) + 1)
    case Monthly => Plain(c.year) && Plain(AnnualYear(reset, c))
  }

  /** The window between two boundaries, in milliseconds. */
  ghost predicate IsWindow(w: Window, period: Period, reset: int, n: int) {
    && w.start == Boundary(MonthStart, period, reset, n) * MS_PER_DAY
    && w.end == Boundary(MonthStart, period, reset, n + 1) * MS_PER_DAY
  }

  /** `Date.UTC` lands on the month it was asked for exactly when the year is not read as 19xx. */
  lemma UtcMonth(year: int, month: int, date: int, n: int)
    requires 12 * year + month == n
    ensures Utc(year, month, date) == (MonthStart(n) + date - 1) * MS_PER_DAY <==> Plain(year)
  {
    hide MonthStart;
    var m := 12 * FullYear(year) + month;
    MonthsSpaced();
    assert m < n ==> MonthStart(m) < MonthStart(n);
    assert n < m ==> MonthStart(n) < MonthStart(m);
  }

  lemma DailyWindow(reset: int, c: Civil)
    ensures IsWindow(DailyPeriod(c), Daily, reset, WindowIndex(Daily, reset, c)) <==> Ordinary(Daily, reset, c)
  {
    hide MonthStart, IsoDate, Utc, Plain;
    UtcMonth(c.year, c.month, c.date, 12 * c.year + c.month);
  }

  lemma AnnualWindow(reset: int, c: Civil)
    ensures IsWindow(AnnualPeriod(reset, c), Annual, reset, WindowIndex(Annual, reset, c)) <==> Ordinary(Annual, reset, c)
  {
    hide MonthStart;
    var y := AnnualYear(reset, c);
    UtcMonth(y, 0, reset, 12 * y);
    UtcMonth(y + 1, 0, reset, 12 * (y + 1));
  }

  lemma MonthlyEnd(year: int, month: int, reset: int, start: int)
    requires 0 <= month < 12 && 1 <= reset <= 28
    requires start == (MonthStart(12 * year + month) + reset - 1) * MS_PER_DAY
    ensures CivilOf(start) == Civil(year, month, reset)
    ensures Utc(year, month + 1, reset) == (MonthStart(12 * year + month + 1) + reset - 1) * MS_PER_DAY <==> Plain(year)
  {
    hide MonthStart;
    DayOfMidnight(MonthStart(12 * year + month) + reset - 1);
    CivilAtMidnight(Civil(year, month, reset), start);
    UtcMonth(year, month + 1, reset, 12 * year + month + 1);
  }

  /** A monthly window once its first month is known. */
  lemma MonthlyFrom(year: int, month: int, reset: int, w: Window)
    requires 0 <= month < 12 && 1 <= reset <= 28
    requires w.start == (MonthStart(12 * year + month) + reset - 1) * MS_PER_DAY
    requires w.end == Utc(CivilOf(w.start).year, CivilOf(w.start).month + 1, reset)
    ensures IsWindow(w, Monthly, reset, 12 * year + month) <==> Plain(year)
  {
    hide MonthStart;
    MonthlyEnd(year, month, reset, w.start);
  }

  lemma MonthlyWindowAt(reset: int, c: Civil, year: int, month: int)
    requires c.Valid() && 1 <= reset <= 28 && 0 <= month < 12 && Plain(c.year)
    requires 12 * year + month == WindowIndex(Monthly, reset, c) && year == AnnualYear(reset, c)
    ensures IsWindow(MonthlyPeriod(reset, c), Monthly, reset, 12 * year + month) <==> Plain(year)
  {
    hide MonthStart;
    var w := MonthlyPeriod(reset, c);
    UtcMonth(c.year, if c.date < reset then c.month - 1 else c.month, reset, 12 * year + month);
    assert w.start == (MonthStart(12 * year + month) + reset - 1) * MS_PER_DAY;
    MonthlyFrom(year, month, reset, w);
  }

  lemma MonthlyWindow(reset: int, c: Civil)
    requires c.Valid() && 1 <= reset <= 28
    ensures IsWindow(MonthlyPeriod(reset, c), Monthly, reset, WindowIndex(Monthly, reset, c)) <==> Ordinary(Monthly, reset, c)
  {
    hide MonthStart, IsoDate, Utc;
    if !Plain(c.year) {
      UtcMonth(c.year, if c.date < reset then c.month - 1 else c.month, reset, WindowIndex(Monthly, reset, c));
    } else if c.month == 0 && c.date < reset {
      MonthlyWindowAt(reset, c, c.year - 1, 11);
    } else {
      MonthlyWindowAt(reset, c, c.year, if c.date < reset then c.month - 1 else c.month);
    }
  }

  // --- the promises -----------------------------------------------------------

  function IndexOf(period: Period, reset: int, at: int): int { WindowIndex(period, reset, CivilOf(at)) }

  /**
   * The computed window is the calendar window the instant lies in exactly when no year handed to
   * `Date.UTC` is in 0..99, which it reads as 1900..1999.
   */
  lemma PeriodIsCalendarWindow(period: Period, reset: int, at: int)
    requires 1 <= reset <= 28
    ensures IsWindow(PeriodFor(period, reset, at), period, reset, IndexOf(period, reset, at))
            <==> Ordinary(period, reset, CivilOf(at))
  {
    hide IsWindow, Ordinary, WindowIndex, CivilOf;
    match period
    case Daily => DailyWindow(reset, CivilOf(at));
    case Monthly => MonthlyWindow(reset, CivilOf(at));
    case Annual => AnnualWindow(reset, CivilOf(at));
  }

  lemma IndexBounds(period: Period, reset: int, at: int)
    requires 1 <= reset <= 28
    ensures var n := IndexOf(period, reset, at);
            Boundary(MonthStart, period, reset, n) * MS_PER_DAY <= at < Boundary(MonthStart, period, reset, n + 1) * MS_PER_DAY
  {
    hide MonthStart, CivilOf, WindowIndex, Boundary;
    var c := CivilOf(at);
    MonthsSpaced();
    NextMonth(12 * c.year + c.month);
    WithinWindow(MonthStart, period, reset, c, DayOf(at));
  }

  /** The year handed to `Date.UTC` for the window's start. */
  function StartYear(period: Period, reset: int, c: Civil): int { if period.Annual? then AnnualYear(reset, c) else c.year }

  /** A year read as 19xx puts the date centuries on, and no year puts it earlier than asked. */
  lemma UtcNotEarlier(year: int, month: int, date: int, n: int)
    requires 12 * year + month == n
    ensures Utc(year, month, date) >= (MonthStart(n) + date - 1) * MS_PER_DAY
    ensures Plain(year) ==> Utc(year, month, date) == (MonthStart(n) + date - 1) * MS_PER_DAY
    ensures !Plain(year) ==> Utc(year, month, date) >= (MonthStart(n + 12) + date - 1) * MS_PER_DAY
  {
    hide MonthStart;
    var m := 12 * FullYear(year) + month;
    MonthsIncrease();
    assert n < m ==> MonthStart(n) < MonthStart(m);
    assert n + 12 < m ==> MonthStart(n + 12) < MonthStart(m);
  }

  lemma DailyHolds(c: Civil, at: int)
    requires c.Valid() && c.Day() * MS_PER_DAY <= at < (c.Day() + 1) * MS_PER_DAY
    ensures DailyPeriod(c).start <= at < DailyPeriod(c).end <==> Plain(c.year)
  {
    hide MonthStart, IsoDate, Utc;
    var n := 12 * c.year + c.month;
    UtcNotEarlier(c.year, c.month, c.date, n);
    MonthsSpaced();
    assert MonthStart(n) + 28 <= MonthStart(n + 12);
  }

  lemma AnnualHolds(reset: int, c: Civil, at: int)
    requires var y := AnnualYear(reset, c);
             (MonthStart(12 * y) + reset - 1) * MS_PER_DAY <= at < (MonthStart(12 * (y + 1)) + reset - 1) * MS_PER_DAY
    ensures AnnualPeriod(reset, c).start <= at < AnnualPeriod(reset, c).end <==> Plain(AnnualYear(reset, c))
  {
    hide MonthStart, Utc, Integer;
    var y := AnnualYear(reset, c);
    UtcNotEarlier(y, 0, reset, 12 * y);
    UtcNotEarlier(y + 1, 0, reset, 12 * (y + 1));
    assert 12 * y + 12 == 12 * (y + 1);
  }

  lemma MonthlyHolds(reset: int, c: Civil, at: int)
    requires c.Valid() && 1 <= reset <= 28
    requires var n := WindowIndex(Monthly, reset, c);
             (MonthStart(n) + reset - 1) * MS_PER_DAY <= at < (MonthStart(n + 1) + reset - 1) * MS_PER_DAY
    ensures MonthlyPeriod(reset, c).start <= at < MonthlyPeriod(reset, c).end <==> Plain(c.year)
  {
    hide MonthStart, Utc, IsoDate, CivilOf;
    var n := WindowIndex(Monthly, reset, c);
    UtcNotEarlier(c.year, if c.date < reset then c.month - 1 else c.month, reset, n);
    MonthsIncrease();
    assert MonthStart(n + 1) < MonthStart(n + 12);
    if Plain(c.year) {
      var year, month := if c.month == 0 && c.date < reset then c.year - 1 else c.year,
                         if c.date >= reset then c.month else if c.month == 0 then 11 else c.month - 1;
      MonthlyEnd(year, month, reset, MonthlyPeriod(reset, c).start);
      UtcNotEarlier(year, month + 1, reset, n + 1);
    }
  }

  /** An instant lies in its window exactly when the year its start was asked for is not read as 19xx. */
  lemma InstantInWindow(period: Period, reset: int, at: int)
    requires 1 <= reset <= 28
    ensures PeriodFor(period, reset, at).start <= at < PeriodFor(period, reset, at).end
            <==> Plain(StartYear(period, reset, CivilOf(at)))
  {
    hide CivilOf, MonthStart, Plain;
    IndexBounds(period, reset, at);
    hide DailyPeriod, AnnualPeriod, MonthlyPeriod;
    var c := CivilOf(at);
    match period
    case Daily => DailyHolds(c, at);
    case Monthly => MonthlyHolds(reset, c, at);
    case Annual => AnnualHolds(reset, c, at);
  }

  predicate SameWindow(v: Window, w: Window) { v.start == w.start && v.end == w.end }

  /** Two instants' windows are one and the same, or one ends before the other starts. */
  lemma WindowsTile(period: Period, reset: int, a: int, b: int)
    requires 1 <= reset <= 28 && Ordinary(period, reset, CivilOf(a)) && Ordinary(period, reset, CivilOf(b))
    ensures var v, w := PeriodFor(period, reset, a), PeriodFor(period, reset, b);
            && (SameWindow(v, w) <==> IndexOf(period, reset, a) == IndexOf(period, reset, b))
            && (SameWindow(v, w) || v.end <= w.start || w.end <= v.start)
  {
    hide CivilOf, WindowIndex, Ordinary, PeriodFor, Boundary, Spaced, MonthStart;
    PeriodIsCalendarWindow(period, reset, a);
    PeriodIsCalendarWindow(period, reset, b);
    MonthsSpaced();
    var m, n := IndexOf(period, reset, a), IndexOf(period, reset, b);
    BoundariesIncrease(MonthStart, period, reset, m, n);
    BoundariesIncrease(MonthStart, period, reset, n, m);
    BoundariesIncrease(MonthStart, period, reset, m + 1, n);
    BoundariesIncrease(MonthStart, period, reset, n + 1, m);
  }

  /** Consecutive windows abut: the instant a window ends at starts the next one. */
  lemma WindowsAbut(period: Period, reset: int, at: int)
    requires 1 <= reset <= 28 && Ordinary(period, reset, CivilOf(at))
    requires Ordinary(period, reset, CivilOf(PeriodFor(period, reset, at).end))
    ensures var next := PeriodFor(period, reset, PeriodFor(period, reset, at).end);
            && next.start == PeriodFor(period, reset, at).end
            && IndexOf(period, reset, PeriodFor(period, reset, at).end) == IndexOf(period, reset, at) + 1
  {
    hide CivilOf, WindowIndex, Ordinary, PeriodFor, Boundary, Spaced, MonthStart;
    var n, end := IndexOf(period, reset, at), PeriodFor(period, reset, at).end;
    PeriodIsCalendarWindow(period, reset, at);
    PeriodIsCalendarWindow(period, reset, end);
    IndexBounds(period, reset, end);
    MonthsSpaced();
    var m := IndexOf(period, reset, end);
    BoundariesIncrease(MonthStart, period, reset, m + 1, n + 1);
    BoundariesIncrease(MonthStart, period, reset, n + 2, m);
    BoundariesIncrease(MonthStart, period, reset, n + 1, n + 2);
  }

  /** In the first century the code's window is not around the instant: 1950 for the year 50. */
  lemma FirstCenturyMisplaced(c: Civil)
    requires c.Valid() && 0 <= c.year <= 99
    ensures var at := c.Day() * MS_PER_DAY; PeriodFor(Daily, 1, at).start > at
  {
    hide MonthStart, IsoDate;
    var at := c.Day() * MS_PER_DAY;
    DayOfMidnight(c.Day());
    CivilAtMidnight(c, at);
    MonthsIncrease();
    assert MonthStart(12 * c.year + c.month) < MonthStart(12 * (1900 + c.year) + c.month);
  }

  // --- keys -------------------------------------------------------------------

  lemma IntegerInjective(m: int, n: int)
    ensures Integer(m) == Integer(n) <==> m == n
  {
    if Integer(m) == Integer(n) {
      if m >= 0 && n >= 0 {
        NumeralInjective(m, n, Decimal);
      } else if m < 0 && n < 0 {
        assert Integer(m)[1..] == Numeral(-m, Decimal) && Integer(n)[1..] == Numeral(-n, Decimal);
        NumeralInjective(-m, -n, Decimal);
      }
      SignShows(m);
      SignShows(n);
    }
  }

  lemma SignShows(n: int)
    ensures Integer(n) != "" && (Integer(n)[0] == '-' <==> n < 0)
  {
    if n >= 0 { assert IsDigit(Numeral(n, Decimal)[0]); }
  }

  /** The first date of a window. */
  lemma StartDate(period: Period, reset: int, at: int)
    requires 1 <= reset <= 28 && Ordinary(period, reset, CivilOf(at))
    ensures var n, s := IndexOf(period, reset, at), CivilOf(PeriodFor(period, reset, at).start);
            && (period.Daily? ==> s == CivilOf(at))
            && (period.Monthly? ==> 12 * s.year + s.month == n && s.date == reset)
  {
    hide MonthStart, CivilOf, Ordinary, PeriodFor;
    var n, start := IndexOf(period, reset, at), PeriodFor(period, reset, at).start;
    PeriodIsCalendarWindow(period, reset, at);
    if period.Daily? {
      DayOfMidnight(n);
      CivilAtMidnight(CivilOf(at), start);
    }
    if period.Monthly? {
      MonthlyEnd(n / 12, n % 12, reset, start);
    }
  }

  /** Two different windows the code files under one key: outside years 0..9999 the text is cut short. */
  predicate Collide(period: Period, v: Window, w: Window) {
    var c, d := CivilOf(v.start), CivilOf(w.start);
    !period.Annual? && !FourDigits(c.year) && c.year == d.year && (period.Monthly? || c.month == d.month)
  }

  /** Two instants share a key exactly when they share a window, or their windows collide. */
  lemma KeyNamesWindow(period: Period, reset: int, a: int, b: int)
    requires 1 <= reset <= 28 && Ordinary(period, reset, CivilOf(a)) && Ordinary(period, reset, CivilOf(b))
    requires SixDigits(CivilOf(PeriodFor(period, reset, a).start).year)
    requires SixDigits(CivilOf(PeriodFor(period, reset, b).start).year)
    ensures var v, w := PeriodFor(period, reset, a), PeriodFor(period, reset, b);
            v.key == w.key <==> SameWindow(v, w) || Collide(period, v, w)
  {
    hide CivilOf, Ordinary, Utc, DateText, Integer, MonthStart;
    var v, w := PeriodFor(period, reset, a), PeriodFor(period, reset, b);
    WindowsTile(period, reset, a, b);
    StartDate(period, reset, a);
    StartDate(period, reset, b);
    match period
    case Daily =>
      DayKeys(CivilOf(v.start), CivilOf(w.start));
      SameCivilDay(CivilOf(a), CivilOf(b));
    case Monthly =>
      MonthKeys(CivilOf(v.start), CivilOf(w.start));
    case Annual =>
      IntegerInjective(AnnualYear(reset, CivilOf(a)), AnnualYear(reset, CivilOf(b)));
  }

  lemma SameCivilDay(c: Civil, d: Civil)
    requires c.Valid() && d.Valid()
    ensures c.Day() == d.Day() <==> c == d
  {
    hide MonthStart, MonthLength;
    if c.Day() == d.Day() {
      SameDate(12 * c.year + c.month, c.date, 12 * d.year + d.month, d.date);
    }
  }

  /** The collision is real: January and February of the year 10000 share a monthly key. */
  lemma YearTenThousandCollides()
    ensures var a, b := Civil(10_000, 0, 1).Day() * MS_PER_DAY, Civil(10_000, 1, 1).Day() * MS_PER_DAY;
            && PeriodFor(Monthly, 1, a).key == PeriodFor(Monthly, 1, b).key
            && !SameWindow(PeriodFor(Monthly, 1, a), PeriodFor(Monthly, 1, b))
  {
    hide MonthStart, IsoDate, Utc, PeriodFor, CivilOf;
    var c, d := Civil(10_000, 0, 1), Civil(10_000, 1, 1);
    var a, b := c.Day() * MS_PER_DAY, d.Day() * MS_PER_DAY;
    DayOfMidnight(c.Day());
    DayOfMidnight(d.Day());
    CivilAtMidnight(c, a);
    CivilAtMidnight(d, b);
    StartDate(Monthly, 1, a);
    StartDate(Monthly, 1, b);
    KeyNamesWindow(Monthly, 1, a, b);
    WindowsTile(Monthly, 1, a, b);
  }

  lemma DateTextHasNoColon(c: Civil)
    requires c.Valid()
    ensures NoColon(DateText(c))
  {
    hide Fixed;
    assert NoColon(YearText(c.year));
  }

  /** No period key holds a colon. */
  lemma PeriodKeyHasNoColon(period: Period, reset: int, at: int)
    ensures NoColon(PeriodFor(period, reset, at).key)
  {
    hide Utc, CivilOf, Numeral, DateText;
    if !period.Annual? {
      DateTextHasNoColon(CivilOf(PeriodFor(period, reset, at).start));
    }
  }

  /** A key reads as the day, month or year its window starts on, for windows that start in years of four digits. */
  lemma KeyReads(period: Period, reset: int, at: int)
    requires FourDigits(CivilOf(PeriodFor(period, reset, at).start).year)
    requires period.Annual? ==> CivilOf(at).year >= 1
    ensures var key, c, now := PeriodFor(period, reset, at).key, CivilOf(PeriodFor(period, reset, at).start), CivilOf(at);
            match period
            case Daily => |key| == 10 && AllDigits(key[..4]) && AllDigits(key[5..7]) && AllDigits(key[8..]) && key[4] == '-' == key[7]
                          && Value(key[..4], Decimal) == c.year && Value(key[5..7], Decimal) == c.month + 1 && Value(key[8..], Decimal) == c.date
            case Monthly => |key| == 7 && AllDigits(key[..4]) && AllDigits(key[5..]) && key[4] == '-'
                            && Value(key[..4], Decimal) == c.year && Value(key[5..], Decimal) == c.month + 1
            case Annual => AllDigits(key) && Value(key, Decimal) == if now.month == 0 && now.date < reset then now.year - 1 else now.year
  {
    hide CivilOf, Utc, DateText, MonthStart;
    var c := CivilOf(PeriodFor(period, reset, at).start);
    match period
    case Annual => NumeralValue(AnnualYear(reset, CivilOf(at)), Decimal);
    case Daily =>
      DateReads(c);
      assert DateText(c)[..10] == DateText(c);
    case Monthly =>
      DateReads(c);
      var key := DateText(c)[..7];
      assert key[..4] == DateText(c)[..4] && key[5..] == DateText(c)[5..7];
  }
}
