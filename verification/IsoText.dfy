/** The date text of an instant, as `toISOString()` prints it, and what its leading characters tell apart. */
module IsoText {
  import opened Text
  import opened Calendar

  /** `n` in exactly `width` decimal digits, the low ones when it has more. */
  function Fixed(n: nat, width: nat): (s: string)
    ensures |s| == width && AllDigits(s)
  {
    if width == 0 then "" else Fixed(n / 10, width - 1) + [DigitChar(n % 10)]
  }

  function Pow10(width: nat): nat { if width == 0 then 1 else 10 * Pow10(width - 1) }

  lemma {:induction false} FixedInjective(m: nat, n: nat, width: nat)
    requires m < Pow10(width) && n < Pow10(width)
    ensures Fixed(m, width) == Fixed(n, width) <==> m == n
  {
    if width > 0 {
      FixedInjective(m / 10, n / 10, width - 1);
      var s, t := Fixed(m, width), Fixed(n, width);
      assert s[..width - 1] == Fixed(m / 10, width - 1) && t[..width - 1] == Fixed(n / 10, width - 1);
      assert DigitValue(s[width - 1]) == m % 10 && DigitValue(t[width - 1]) == n % 10;
    }
  }

  predicate FourDigits(year: int) { 0 <= year <= 9999 }

  /** Four digits, or a sign and six outside 0..9999. */
  function YearText(year: int): string {
    if FourDigits(year) then Fixed(year, 4)
    else if year < 0 then "-" + Fixed(-year, 6)
    else "+" + Fixed(year, 6)
  }

  /** The date part of `toISOString()`, ahead of the `T`. */
  function IsoDate(at: int): (s: string)
    ensures |s| >= 10
  {
    DateText(CivilOf(at))
  }

  function DateText(c: Civil): (s: string)
    requires c.Valid()
    ensures |s| >= 10
  {
    YearText(c.year) + "-" + Fixed(c.month + 1, 2) + "-" + Fixed(c.date, 2)
  }

  predicate SixDigits(year: int) { -1_000_000 < year < 1_000_000 }

  lemma Pow10Values()
    ensures Pow10(2) == 100 && Pow10(4) == 10_000 && Pow10(6) == 1_000_000
  {
    assert Pow10(6) == 100 * Pow10(4) && Pow10(4) == 100 * Pow10(2);
  }

  /** A year's text is its own, and its first character tells four digits from a sign and six. */
  lemma YearTextInjective(y: int, z: int)
    requires SixDigits(y) && SixDigits(z)
    ensures YearText(y) == YearText(z) <==> y == z
    ensures |YearText(y)| == if FourDigits(y) then 4 else 7
    ensures IsDigit(YearText(y)[0]) <==> FourDigits(y)
  {
    hide Fixed, Pow10;
    Pow10Values();
    if FourDigits(y) && FourDigits(z) { FixedInjective(y, z, 4); }
    if y < 0 && z < 0 {
      FixedInjective(-y, -z, 6);
      assert YearText(y)[1..] == Fixed(-y, 6) && YearText(z)[1..] == Fixed(-z, 6);
    }
    if y > 9999 && z > 9999 {
      FixedInjective(y, z, 6);
      assert YearText(y)[1..] == Fixed(y, 6) && YearText(z)[1..] == Fixed(z, 6);
    }
  }

  /** What the leading characters of a date's text hold. */
  lemma DatePrefixes(c: Civil)
    requires c.Valid() && SixDigits(c.year)
    ensures FourDigits(c.year) ==>
              DateText(c)[..7] == YearText(c.year) + "-" + Fixed(c.month + 1, 2)
              && DateText(c)[..10] == YearText(c.year) + "-" + Fixed(c.month + 1, 2) + "-" + Fixed(c.date, 2)
    ensures !FourDigits(c.year) ==>
              DateText(c)[..7] == YearText(c.year)
              && DateText(c)[..10] == YearText(c.year) + "-" + Fixed(c.month + 1, 2)
  {
    hide YearText, Fixed;
    YearTextInjective(c.year, c.year);
  }

  /** Fixed-width texts joined by a dash are equal only part by part. */
  lemma DashedParts(a: string, b: string, x: string, y: string)
    requires |a| == |x|
    ensures a + "-" + b == x + "-" + y <==> a == x && b == y
  {
    if a + "-" + b == x + "-" + y {
      assert a == (a + "-" + b)[..|a|] && b == (a + "-" + b)[|a| + 1..];
    }
  }

  lemma TwoDigits(m: int, n: int)
    requires 0 <= m < 100 && 0 <= n < 100
    ensures Fixed(m, 2) == Fixed(n, 2) <==> m == n
  {
    FixedInjective(m, n, 2);
  }

  lemma MixedYearsDiffer(c: Civil, d: Civil, k: nat)
    requires c.Valid() && d.Valid() && SixDigits(c.year) && SixDigits(d.year) && 0 < k <= 10
    requires FourDigits(c.year) != FourDigits(d.year)
    ensures DateText(c)[..k] != DateText(d)[..k]
  {
    YearTextInjective(c.year, d.year);
    YearTextInjective(d.year, c.year);
    assert DateText(c)[..k][0] == YearText(c.year)[0] && DateText(d)[..k][0] == YearText(d.year)[0];
  }

  lemma MonthKeys(c: Civil, d: Civil)
    requires c.Valid() && d.Valid() && SixDigits(c.year) && SixDigits(d.year)
    ensures DateText(c)[..7] == DateText(d)[..7] <==>
              c.year == d.year && (c.month == d.month || !FourDigits(c.year))
  {
    hide YearText, Fixed, DateText;
    DatePrefixes(c);
    DatePrefixes(d);
    YearTextInjective(c.year, d.year);
    YearTextInjective(d.year, c.year);
    TwoDigits(c.month + 1, d.month + 1);
    if FourDigits(c.year) != FourDigits(d.year) {
      MixedYearsDiffer(c, d, 7);
    } else {
      DashedParts(YearText(c.year), Fixed(c.month + 1, 2), YearText(d.year), Fixed(d.month + 1, 2));
    }
  }

  lemma DayKeys(c: Civil, d: Civil)
    requires c.Valid() && d.Valid() && SixDigits(c.year) && SixDigits(d.year)
    ensures DateText(c)[..10] == DateText(d)[..10] <==>
              c.year == d.year && c.month == d.month && (c.date == d.date || !FourDigits(c.year))
  {
    hide YearText, Fixed, DateText;
    DatePrefixes(c);
    DatePrefixes(d);
    YearTextInjective(c.year, d.year);
    YearTextInjective(d.year, c.year);
    TwoDigits(c.month + 1, d.month + 1);
    TwoDigits(c.date, d.date);
    if FourDigits(c.year) != FourDigits(d.year) {
      MixedYearsDiffer(c, d, 10);
      return;
    }
    DashedParts(YearText(c.year), Fixed(c.month + 1, 2), YearText(d.year), Fixed(d.month + 1, 2));
    if FourDigits(c.year) {
      DashedParts(YearText(c.year) + "-" + Fixed(c.month + 1, 2), Fixed(c.date, 2),
                  YearText(d.year) + "-" + Fixed(d.month + 1, 2), Fixed(d.date, 2));
    }
  }

  /** Digits written in a fixed width read back as the number. */
  lemma {:induction false} FixedValue(n: nat, width: nat)
    requires n < Pow10(width)
    ensures Value(Fixed(n, width), Decimal) == n
  {
    if width > 0 {
      FixedValue(n / 10, width - 1);
      var s := Fixed(n, width);
      assert s[..width - 1] == Fixed(n / 10, width - 1);
      assert DigitValue(s[width - 1]) == n % 10;
    }
  }

  /** A date of four-digit years reads year, month counted from one, and day, between dashes. */
  lemma DateReads(c: Civil)
    requires c.Valid() && FourDigits(c.year)
    ensures var text := DateText(c);
            && |text| == 10 && text[4] == '-' && text[7] == '-'
            && AllDigits(text[..4]) && AllDigits(text[5..7]) && AllDigits(text[8..])
            && Value(text[..4], Decimal) == c.year && Value(text[5..7], Decimal) == c.month + 1 && Value(text[8..], Decimal) == c.date
  {
    Pow10Values();
    FixedValue(c.year, 4);
    FixedValue(c.month + 1, 2);
    FixedValue(c.date, 2);
    hide Fixed, MonthStart, Value;
    var text := DateText(c);
    assert text == Fixed(c.year, 4) + "-" + Fixed(c.month + 1, 2) + "-" + Fixed(c.date, 2);
    assert text[..4] == Fixed(c.year, 4) && text[5..7] == Fixed(c.month + 1, 2) && text[8..] == Fixed(c.date, 2);
  }
}
