/**
 * Calendar dates in the extended form `YYYY-MM-DD` of ISO 8601 (section
 * 5.2.1.1): the form the tracker accepts for an expense date and the form
 * in which it writes today's date.
 */
module Calendar {
  import opened Lexical
  import opened Outcomes

  datatype Date = Date(year: nat, month: nat, day: nat)

  /** The Gregorian leap-year rule. */
  predicate IsLeapYear(y: nat) {
    y % 4 == 0 && (y % 100 != 0 || y % 400 == 0)
  }

  function DaysInMonth(y: nat, m: nat): (n: nat)
    requires 1 <= m <= 12
    ensures 28 <= n <= 31
  {
    if m == 2 then (if IsLeapYear(y) then 29 else 28)
    else if m == 4 || m == 6 || m == 9 || m == 11 then 30
    else 31
  }

  /** A real date in the range of Python's `datetime.date` (years 1 to 9999). */
  predicate IsRealDate(d: Date) {
    1 <= d.year <= 9999 && 1 <= d.month <= 12 && 1 <= d.day <= DaysInMonth(d.year, d.month)
  }

  /** `date.isoformat()`: four-digit year, two-digit month and day, dash-separated. */
  function FormatDate(d: Date): (s: string)
    ensures |s| == 10 && s[4] == '-' && s[7] == '-'
  {
    Digits(d.year, 4) + ("-" + (Digits(d.month, 2) + ("-" + Digits(d.day, 2))))
  }

  /** The strings that name a real date. */
  ghost predicate IsIsoDate(s: string) {
    exists d :: IsRealDate(d) && FormatDate(d) == s
  }

  /** Chronological order of dates. */
  predicate DateBefore(a: Date, b: Date) {
    a.year < b.year || (a.year == b.year && (a.month < b.month || (a.month == b.month && a.day < b.day)))
  }

  /**
   * The `YYYY-MM-DD` reader of `datetime.date.fromisoformat`: ten characters,
   * ASCII digits around two dashes, naming a real date.
   */
  function ParseIsoDate(s: string): (r: Option<Date>)
    ensures r.Some? ==> IsRealDate(r.value)
  {
    if |s| == 10 && AllDigits(s[..4]) && s[4] == '-' && AllDigits(s[5..7]) && s[7] == '-' && AllDigits(s[8..]) then
      var d := Date(NumeralValue(s[..4]), NumeralValue(s[5..7]), NumeralValue(s[8..]));
      if IsRealDate(d) then Some(d) else None
    else None
  }

  /** Every real date is read back from its own text. */
  lemma ParseFormat(d: Date)
    requires IsRealDate(d)
    ensures ParseIsoDate(FormatDate(d)) == Some(d)
  {
    var s := FormatDate(d);
    assert Pow10(4) == 10000 && Pow10(2) == 100;
    assert s[..4] == Digits(d.year, 4);
    assert s[5..7] == Digits(d.month, 2);
    assert s[8..] == Digits(d.day, 2);
    DigitsRoundTrip(d.year, 4);
    DigitsRoundTrip(d.month, 2);
    DigitsRoundTrip(d.day, 2);
  }

  /** A string that is read as a date is exactly the text of that date. */
  lemma FormatParse(s: string)
    requires ParseIsoDate(s).Some?
    ensures FormatDate(ParseIsoDate(s).value) == s
  {
    NumeralRoundTrip(s[..4]);
    NumeralRoundTrip(s[5..7]);
    NumeralRoundTrip(s[8..]);
    DashedParts(s);
  }

  /** Ten characters with dashes at 4 and 7 are their three fields joined by dashes. */
  lemma DashedParts(s: string)
    requires |s| == 10 && s[4] == '-' && s[7] == '-'
    ensures s == s[..4] + ("-" + (s[5..7] + ("-" + s[8..])))
  {
    var t := s[..4] + ("-" + (s[5..7] + ("-" + s[8..])));
    assert |t| == 10;
    forall k | 0 <= k < 10 ensures t[k] == s[k] {
      if k < 4 {
      } else if k == 4 {
      } else if k < 7 {
        assert t[k] == s[5..7][k - 5];
      } else if k == 7 {
      } else {
        assert t[k] == s[8..][k - 8];
      }
    }
  }

  /** Four-digit years and two-digit months and days: what the text can hold. */
  predicate FitsFormat(d: Date) {
    d.year < 10000 && d.month < 100 && d.day < 100
  }

  lemma FormatDateInjective(a: Date, b: Date)
    requires FitsFormat(a) && FitsFormat(b) && FormatDate(a) == FormatDate(b)
    ensures a == b
  {
    var s := FormatDate(a);
    assert Pow10(4) == 10000 && Pow10(2) == 100;
    assert s[..4] == Digits(a.year, 4) && s[..4] == Digits(b.year, 4);
    assert s[5..7] == Digits(a.month, 2) && s[5..7] == Digits(b.month, 2);
    assert s[8..] == Digits(a.day, 2) && s[8..] == Digits(b.day, 2);
    DigitsInjective(a.year, b.year, 4);
    DigitsInjective(a.month, b.month, 2);
    DigitsInjective(a.day, b.day, 2);
  }

  /**
   * Well-shaped text naming a day that does not exist (February 30th,
   * month 13, day 00, February 29th outside a leap year) is refused.
   */
  lemma ParseRejectsUnrealDate(d: Date)
    requires FitsFormat(d) && !IsRealDate(d)
    ensures ParseIsoDate(FormatDate(d)) == None
  {
    var r := ParseIsoDate(FormatDate(d));
    if r.Some? {
      FormatParse(FormatDate(d));
      FormatDateInjective(r.value, d);
    }
  }

  /** The reader accepts exactly the texts of real dates. */
  lemma ParseIsoDateAcceptsExactlyRealDates(s: string)
    ensures ParseIsoDate(s).Some? <==> IsIsoDate(s)
  {
    if ParseIsoDate(s).Some? {
      FormatParse(s);
    }
    if IsIsoDate(s) {
      var d :| IsRealDate(d) && FormatDate(d) == s;
      ParseFormat(d);
    }
  }

  /**
   * On real dates, comparing the texts as strings (what the date-range
   * filters do) is chronological comparison.
   */
  lemma DateOrderIsLexical(a: Date, b: Date)
    requires IsRealDate(a) && IsRealDate(b)
    ensures DateBefore(a, b) <==> LexLess(FormatDate(a), FormatDate(b))
  {
    assert Pow10(4) == 10000 && Pow10(2) == 100;
    DigitsOrder(a.year, b.year, 4);
    DigitsOrder(a.month, b.month, 2);
    DigitsOrder(a.day, b.day, 2);
    DigitsInjective(a.year, b.year, 4);
    DigitsInjective(a.month, b.month, 2);
    var da, db := "-" + Digits(a.day, 2), "-" + Digits(b.day, 2);
    LexLessConcat("-", Digits(a.day, 2), "-", Digits(b.day, 2));
    LexLessIrreflexive("-");
    var ma, mb := "-" + (Digits(a.month, 2) + da), "-" + (Digits(b.month, 2) + db);
    LexLessConcat(Digits(a.month, 2), da, Digits(b.month, 2), db);
    LexLessConcat("-", Digits(a.month, 2) + da, "-", Digits(b.month, 2) + db);
    LexLessConcat(Digits(a.year, 4), ma, Digits(b.year, 4), mb);
  }
}
