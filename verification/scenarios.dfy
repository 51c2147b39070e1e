/**
 * Worked cases of the validators and the query engine on concrete inputs:
 * leap days, tag normalisation, a date-range listing and the id tie-break.
 */
module Scenarios {
  import opened Outcomes
  import opened Lexical
  import opened Calendar
  import opened Validators
  import opened Expenses
  import opened Query

  /** February 29th exists in 2024, a leap year. */
  lemma LeapDay2024()
    ensures ParseIsoDate("2024-02-29") == Some(Date(2024, 2, 29))
  {
    assert FormatDate(Date(2024, 2, 29)) == "2024-02-29";
    ParseFormat(Date(2024, 2, 29));
  }

  /** February 29th exists in 2000: divisible by 400. */
  lemma LeapDay2000()
    ensures ParseIsoDate("2000-02-29") == Some(Date(2000, 2, 29))
  {
    assert FormatDate(Date(2000, 2, 29)) == "2000-02-29";
    ParseFormat(Date(2000, 2, 29));
  }

  /** February 29th does not exist in 2023. */
  lemma NoLeapDay2023()
    ensures ParseIsoDate("2023-02-29") == None
  {
    assert FormatDate(Date(2023, 2, 29)) == "2023-02-29";
    ParseRejectsUnrealDate(Date(2023, 2, 29));
  }

  /** February 29th does not exist in 1900: divisible by 100 but not by 400. */
  lemma NoLeapDay1900()
    ensures ParseIsoDate("1900-02-29") == None
  {
    assert FormatDate(Date(1900, 2, 29)) == "1900-02-29";
    ParseRejectsUnrealDate(Date(1900, 2, 29));
  }

  /** There is no month 13. */
  lemma NoMonth13()
    ensures ParseIsoDate("2024-13-01") == None
  {
    assert FormatDate(Date(2024, 13, 1)) == "2024-13-01";
    ParseRejectsUnrealDate(Date(2024, 13, 1));
  }

  /** There is no day 00. */
  lemma NoDayZero()
    ensures ParseIsoDate("2024-01-00") == None
  {
    assert FormatDate(Date(2024, 1, 0)) == "2024-01-00";
    ParseRejectsUnrealDate(Date(2024, 1, 0));
  }

  /** A single visible character, alone or padded by one space each side, strips to itself. */
  lemma StripPadded(c: char)
    requires !Text.IsSpace(c)
    ensures Text.Strip([c]) == [c] && Text.Strip([' ', c, ' ']) == [c]
  {
    Text.StripTrimmed([c]);
    var padded := [' ', c, ' '];
    assert Text.SkipSpace(padded, 1) == 1;
    assert Text.SkipSpace(padded, 0) == 1;
    assert Text.BackSpace(padded, 1, 2) == 2;
    assert Text.BackSpace(padded, 1, 3) == 2;
    assert padded[1..2] == [c];
  }

  /** Two pieces that both strip to something non-empty are both kept, stripped. */
  lemma KeepTwo(x: string, y: string)
    requires Text.Strip(x) != "" && Text.Strip(y) != ""
    ensures KeepStripped([x, y]) == [Text.Strip(x), Text.Strip(y)]
  {
    KeepStrippedCons(x, [y]);
    KeepStrippedSingle(y);
    assert [x] + [y] == [x, y];
  }

  /** A bare character and a space-padded one are kept as the two one-character tags. */
  lemma BareAndPadded(x: string, y: string, c: char, d: char)
    requires !Text.IsSpace(c) && !Text.IsSpace(d)
    requires x == [c] && y == [' ', d, ' ']
    ensures KeepStripped([x, y]) == [[c], [d]]
  {
    StripPadded(c);
    StripPadded(d);
    KeepTwo(x, y);
  }

  /** `"x, y "` gives `["x", "y"]`. */
  lemma TagTextExample()
    ensures NormalizeTags(TagText("x, y ")) == ["x", "y"]
  {
    assert Text.Join(["x", " y "], ',') == "x, y ";
    Text.SplitJoin(["x", " y "], ',');
    BareAndPadded("x", " y ", 'x', 'y');
  }

  /** `",,"` (three empty pieces) gives no tags. */
  lemma EmptyPiecesExample()
    ensures NormalizeTags(TagText(",,")) == []
  {
    assert Text.Join(["", "", ""], ',') == ",,";
    Text.SplitJoin(["", "", ""], ',');
  }

  /** `["x", " y "]` gives `["x", "y"]`. */
  lemma TagListExample()
    ensures NormalizeTags(TagList(["x", " y "])) == ["x", "y"]
  {
    BareAndPadded("x", " y ", 'x', 'y');
  }

  function Entry(id: string, date: string): Expense {
    Expense(id, date, 10.0, "Food", "", "", [])
  }

  const Jan1: Expense := Entry("exp_1", "2024-01-01")
  const Jan15: Expense := Entry("exp_2", "2024-01-15")
  const Feb1: Expense := Entry("exp_3", "2024-02-01")
  const January: Filters := Filters(Some("2024-01-01"), Some("2024-01-31"), None)

  /** Texts with a common prefix compare as their first differing characters do. */
  lemma SameMonth(prefix: string, a: string, b: string)
    requires |a| > 0 && |b| > 0 && a[0] < b[0]
    ensures LexLess(prefix + a, prefix + b)
  {
    LexLessConcat(prefix, a, prefix, b);
  }

  lemma JanuaryDatesOrdered()
    ensures LexLess("2024-01-01", "2024-01-15") && LexLess("2024-01-15", "2024-01-31")
    ensures LexLess("2024-01-01", "2024-01-31")
  {
    assert "2024-01-01" == "2024-01-" + "01" && "2024-01-15" == "2024-01-" + "15";
    assert "2024-01-31" == "2024-01-" + "31";
    SameMonth("2024-01-", "01", "15");
    SameMonth("2024-01-", "15", "31");
    SameMonth("2024-01-", "01", "31");
  }

  lemma FebruaryAfterJanuary()
    ensures !LexLe("2024-02-01", "2024-01-31")
  {
    assert "2024-01-31" == "2024-0" + "1-31" && "2024-02-01" == "2024-0" + "2-01";
    SameMonth("2024-0", "1-31", "2-01");
    LexTrichotomy("2024-01-31", "2024-02-01");
  }

  lemma JanuaryBounds()
    ensures Matches(Jan1, January) && Matches(Jan15, January) && !Matches(Feb1, January)
    ensures KeyLess(Jan1, Jan15)
  {
    JanuaryDatesOrdered();
    FebruaryAfterJanuary();
  }

  lemma FilterKeepsTwo(a: Expense, b: Expense, c: Expense, f: Filters)
    requires Matches(a, f) && Matches(b, f) && !Matches(c, f)
    ensures multiset(FilterExpenses([a, b, c], f)) == multiset{a, b}
  {
    assert multiset([a, b, c]) == multiset{a, b} + multiset{c};
    FilteredEntries([a, b, c], multiset{a, b}, c, f);
  }

  /** Filtering entries that are those of `keep`, which all match, and one `c`, which does not, leaves `keep`. */
  lemma FilteredEntries(items: seq<Expense>, keep: multiset<Expense>, c: Expense, f: Filters)
    requires multiset(items) == keep + multiset{c}
    requires forall x :: x in keep ==> Matches(x, f)
    requires !Matches(c, f)
    ensures multiset(FilterExpenses(items, f)) == keep
  {
    var filtered := FilterExpenses(items, f);
    forall x ensures multiset(filtered)[x] == keep[x] {
      if Matches(x, f) {
        assert x != c;
      } else {
        assert x !in keep;
      }
    }
  }

  lemma LargerKeyFirst(a: Expense, b: Expense)
    requires KeyLess(a, b) && a.id != b.id
    ensures SortedNewestFirst([b, a]) && IdsIdentify([b, a])
  {
    KeyTrichotomy(b, a);
  }

  /** Any arrangement of two entries with distinct ids is listed larger key first. */
  lemma SortPair(a: Expense, b: Expense, s: seq<Expense>)
    requires multiset(s) == multiset{a, b}
    requires KeyLess(a, b) && a.id != b.id
    ensures SortNewestFirst(s) == [b, a]
  {
    LargerKeyFirst(a, b);
    var sorted := SortNewestFirst(s);
    assert multiset([b, a]) == multiset{a, b};
    SortedListingIsUnique([b, a], sorted);
  }

  /** Of three entries the third fails the filters: the other two are listed, larger key first. */
  lemma ListingOfTwoMatches(a: Expense, b: Expense, c: Expense, f: Filters)
    requires Matches(a, f) && Matches(b, f) && !Matches(c, f)
    requires KeyLess(a, b) && a.id != b.id
    ensures SortNewestFirst(FilterExpenses([a, b, c], f)) == [b, a]
  {
    FilterKeepsTwo(a, b, c, f);
    SortPair(a, b, FilterExpenses([a, b, c], f));
  }

  /**
   * Entries of January 1st, January 15th and February 1st, listed for
   * January: the first two, the later one first.
   */
  lemma JanuaryListing()
    ensures SortNewestFirst(FilterExpenses([Jan1, Jan15, Feb1], January)) == [Jan15, Jan1]
  {
    JanuaryBounds();
    ListingOfTwoMatches(Jan1, Jan15, Feb1, January);
  }

  /** On the same date, id "exp_b" is listed before id "exp_a". */
  lemma TieBreakOnId()
    ensures SortNewestFirst([Entry("exp_a", "2024-03-01"), Entry("exp_b", "2024-03-01")])
              == [Entry("exp_b", "2024-03-01"), Entry("exp_a", "2024-03-01")]
  {
    assert LexLess("exp_a", "exp_b");
    assert KeyLess(Entry("exp_a", "2024-03-01"), Entry("exp_b", "2024-03-01"));
  }

  /**
   * Two entries minted in the same microsecond share date and id; they are
   * listed in the order they were stored.
   */
  lemma SameKeyKeepsStoredOrder(a: Expense, b: Expense)
    requires SameKey(a, b)
    ensures SortNewestFirst([a, b]) == [a, b]
  {
    KeyTrichotomy(a, b);
    assert [a, b][1..] == [b];
  }
}
