/**
 * Expense identifiers: `"exp_"` followed by the creation time written with
 * the `strftime` pattern `%Y%m%d_%H%M%S%f`, i.e. eight date digits, an
 * underscore and twelve time digits (hours to microseconds). The clock is
 * a parameter: the time of creation is passed in as a Timestamp.
 */
module ExpenseIds {
  import opened Lexical
  import Calendar

  /** A reading of the local clock at microsecond resolution. */
  datatype Timestamp = Timestamp(year: nat, month: nat, day: nat, hour: nat, minute: nat, second: nat, micro: nat)

  /**
   * A clock reading whose fields are in range. Years below 1000 are
   * excluded because `%Y` does not pad them to four digits on every platform.
   */
  predicate ValidTimestamp(t: Timestamp) {
    && 1000 <= t.year <= 9999
    && Calendar.IsRealDate(Calendar.Date(t.year, t.month, t.day))
    && t.hour < 24 && t.minute < 60 && t.second < 60 && t.micro < 1000000
  }

  /** Chronological order of clock readings. */
  predicate Earlier(a: Timestamp, b: Timestamp) {
    || a.year < b.year
    || (a.year == b.year && a.month < b.month)
    || (a.year == b.year && a.month == b.month && a.day < b.day)
    || (a.year == b.year && a.month == b.month && a.day == b.day && a.hour < b.hour)
    || (a.year == b.year && a.month == b.month && a.day == b.day && a.hour == b.hour && a.minute < b.minute)
    || (a.year == b.year && a.month == b.month && a.day == b.day && a.hour == b.hour && a.minute == b.minute
        && a.second < b.second)
    || (a.year == b.year && a.month == b.month && a.day == b.day && a.hour == b.hour && a.minute == b.minute
        && a.second == b.second && a.micro < b.micro)
  }

  const Prefix: string := "exp_"

  /** `%Y%m%d`: eight digits. */
  function DatePart(t: Timestamp): (s: string)
    ensures |s| == 8 && AllDigits(s)
  {
    AllDigitsConcat(Digits(t.month, 2), Digits(t.day, 2));
    AllDigitsConcat(Digits(t.year, 4), Digits(t.month, 2) + Digits(t.day, 2));
    Digits(t.year, 4) + (Digits(t.month, 2) + Digits(t.day, 2))
  }

  /** `%H%M%S%f`: twelve digits, the last six the microseconds. */
  function TimePart(t: Timestamp): (s: string)
    ensures |s| == 12 && AllDigits(s)
  {
    AllDigitsConcat(Digits(t.second, 2), Digits(t.micro, 6));
    AllDigitsConcat(Digits(t.minute, 2), Digits(t.second, 2) + Digits(t.micro, 6));
    AllDigitsConcat(Digits(t.hour, 2), Digits(t.minute, 2) + (Digits(t.second, 2) + Digits(t.micro, 6)));
    Digits(t.hour, 2) + (Digits(t.minute, 2) + (Digits(t.second, 2) + Digits(t.micro, 6)))
  }

  /** The twenty digits and the underscore after the prefix. */
  function Stamp(t: Timestamp): string {
    DatePart(t) + ("_" + TimePart(t))
  }

  /** `generate_expense_id` with the clock reading `t`. */
  function FormatId(t: Timestamp): (id: string)
    ensures |id| == 25 && id[..4] == Prefix && id[12] == '_'
    ensures AllDigits(id[4..12]) && AllDigits(id[13..])
  {
    var id := Prefix + Stamp(t);
    assert id[4..12] == DatePart(t);
    assert id[13..] == TimePart(t);
    id
  }

  /** Comparing two fixed-width fields followed by the rest. */
  lemma FieldThen(a: nat, b: nat, w: nat, ra: string, rb: string)
    requires a < Pow10(w) && b < Pow10(w)
    ensures LexLess(Digits(a, w) + ra, Digits(b, w) + rb) <==> a < b || (a == b && LexLess(ra, rb))
    ensures Digits(a, w) + ra == Digits(b, w) + rb <==> a == b && ra == rb
  {
    DigitsOrder(a, b, w);
    DigitsInjective(a, b, w);
    LexLessConcat(Digits(a, w), ra, Digits(b, w), rb);
    ConcatEqual(Digits(a, w), ra, Digits(b, w), rb);
  }

  /** The date part, compared field by field. */
  lemma DateOrder(a: Timestamp, b: Timestamp)
    requires ValidTimestamp(a) && ValidTimestamp(b)
    ensures LexLess(DatePart(a), DatePart(b)) <==>
              a.year < b.year || (a.year == b.year && (a.month < b.month || (a.month == b.month && a.day < b.day)))
    ensures DatePart(a) == DatePart(b) <==> a.year == b.year && a.month == b.month && a.day == b.day
  {
    assert Pow10(4) == 10000 && Pow10(2) == 100;
    FieldThen(a.day, b.day, 2, [], []);
    assert Digits(a.day, 2) + [] == Digits(a.day, 2) && Digits(b.day, 2) + [] == Digits(b.day, 2);
    FieldThen(a.month, b.month, 2, Digits(a.day, 2), Digits(b.day, 2));
    FieldThen(a.year, b.year, 4, Digits(a.month, 2) + Digits(a.day, 2), Digits(b.month, 2) + Digits(b.day, 2));
  }

  /** The time part, compared field by field from hours down to microseconds. */
  lemma TimeOrder(a: Timestamp, b: Timestamp)
    requires ValidTimestamp(a) && ValidTimestamp(b)
    ensures LexLess(TimePart(a), TimePart(b)) <==>
              a.hour < b.hour || (a.hour == b.hour && (a.minute < b.minute || (a.minute == b.minute &&
              (a.second < b.second || (a.second == b.second && a.micro < b.micro)))))
    ensures TimePart(a) == TimePart(b) <==>
              a.hour == b.hour && a.minute == b.minute && a.second == b.second && a.micro == b.micro
  {
    assert Pow10(2) == 100 && Pow10(6) == 1000000;
    FieldThen(a.micro, b.micro, 6, [], []);
    assert Digits(a.micro, 6) + [] == Digits(a.micro, 6) && Digits(b.micro, 6) + [] == Digits(b.micro, 6);
    FieldThen(a.second, b.second, 2, Digits(a.micro, 6), Digits(b.micro, 6));
    FieldThen(a.minute, b.minute, 2, Digits(a.second, 2) + Digits(a.micro, 6), Digits(b.second, 2) + Digits(b.micro, 6));
    FieldThen(a.hour, b.hour, 2,
      Digits(a.minute, 2) + (Digits(a.second, 2) + Digits(a.micro, 6)),
      Digits(b.minute, 2) + (Digits(b.second, 2) + Digits(b.micro, 6)));
  }

  /** The date part decides first; the underscore always ties; then the time part decides. */
  lemma StampOrder(a: Timestamp, b: Timestamp)
    requires ValidTimestamp(a) && ValidTimestamp(b)
    ensures Earlier(a, b) <==> LexLess(Stamp(a), Stamp(b))
    ensures Stamp(a) == Stamp(b) <==> a == b
  {
    DateOrder(a, b);
    TimeOrder(a, b);
    LexLessIrreflexive("_");
    LexLessConcat("_", TimePart(a), "_", TimePart(b));
    ConcatEqual("_", TimePart(a), "_", TimePart(b));
    LexLessConcat(DatePart(a), "_" + TimePart(a), DatePart(b), "_" + TimePart(b));
    ConcatEqual(DatePart(a), "_" + TimePart(a), DatePart(b), "_" + TimePart(b));
  }

  /**
   * Ids order as their clock readings do: the lexical order of ids is the
   * chronological order of creation, which the listing's tie-break relies on.
   */
  lemma IdOrderIsChronological(a: Timestamp, b: Timestamp)
    requires ValidTimestamp(a) && ValidTimestamp(b)
    ensures Earlier(a, b) <==> LexLess(FormatId(a), FormatId(b))
    ensures FormatId(a) == FormatId(b) <==> a == b
  {
    StampOrder(a, b);
    LexLessIrreflexive(Prefix);
    LexLessConcat(Prefix, Stamp(a), Prefix, Stamp(b));
    ConcatEqual(Prefix, Stamp(a), Prefix, Stamp(b));
  }

  /**
   * Ids minted at strictly increasing clock readings are pairwise distinct,
   * and each later one sorts after every earlier one.
   */
  lemma IncreasingClockGivesDistinctIds(ts: seq<Timestamp>)
    requires forall k :: 0 <= k < |ts| ==> ValidTimestamp(ts[k])
    requires forall i, j :: 0 <= i < j < |ts| ==> Earlier(ts[i], ts[j])
    ensures forall i, j :: 0 <= i < j < |ts| ==> LexLess(FormatId(ts[i]), FormatId(ts[j]))
    ensures forall i, j :: 0 <= i < |ts| && 0 <= j < |ts| && i != j ==> FormatId(ts[i]) != FormatId(ts[j])
  {
    forall i, j | 0 <= i < j < |ts|
      ensures LexLess(FormatId(ts[i]), FormatId(ts[j])) && FormatId(ts[i]) != FormatId(ts[j])
    {
      IdOrderIsChronological(ts[i], ts[j]);
      LexTrichotomy(FormatId(ts[i]), FormatId(ts[j]));
    }
  }
}
