/**
 * One user's expense collection and the two operations on it,
 * `add_expense` and `list_expenses`. The collection is the list held in
 * the user's expenses document; loading and saving that document are left
 * to the caller, so the list is a field that the operations read and
 * replace in memory.
 */
module Store {
  import opened Outcomes
  import opened Validators
  import opened Expenses
  import opened Query
  import ExpenseIds

  class ExpenseStore {
    /** The entries in stored (append) order. */
    var items: seq<Expense>

    /** A document created on first access holds no expenses. */
    constructor ()
      ensures items == []
    {
      items := [];
    }

    /**
     * `add_expense`: validate date, amount and category in that order; on the
     * first failure report its message and leave the collection as it was;
     * otherwise append exactly one new entry, whose id is minted from the
     * clock reading `now`, and return that id.
     */
    method AddExpense(p: Payload, today: string, now: ExpenseIds.Timestamp) returns (r: Result<string>)
      modifies this
      ensures NewExpense(p, today, ExpenseIds.FormatId(now)).Err? ==>
                r == Err(NewExpense(p, today, ExpenseIds.FormatId(now)).error) && items == old(items)
      ensures NewExpense(p, today, ExpenseIds.FormatId(now)).Ok? ==>
                r == Ok(ExpenseIds.FormatId(now))
                && items == old(items) + [NewExpense(p, today, ExpenseIds.FormatId(now)).value]
      ensures r.Ok? && IdsDistinct(old(items)) && IdUnused(old(items), r.value) ==> IdsDistinct(items)
    {
      var date := EffectiveDate(p, today);
      var dateCheck := ValidateDateIso(date);
      if dateCheck.Fail? {
        return Err(dateCheck.error);
      }
      var amount := ValidateAmountPositive(p.amount);
      if amount.Err? {
        return Err(amount.error);
      }
      var categoryCheck := ValidateRequiredText(p.category, CategoryField);
      if categoryCheck.Fail? {
        return Err(categoryCheck.error);
      }
      var description := p.description.GetOr("");
      var paymentMethod := p.paymentMethod.GetOr("");
      var tags := NormalizeTags(p.tags);
      var eid := ExpenseIds.FormatId(now);
      var entry := Expense(eid, date, amount.value, p.category.value, description, paymentMethod, tags);
      items := items + [entry];
      r := Ok(eid);
    }

    /**
     * `list_expenses`: exactly the entries that pass every filter present,
     * each as often as it is stored, sorted newest first by (date, id);
     * entries sharing a key come in the order they are stored, as the
     * comprehensions and the stable sort leave them. The collection itself
     * is not changed.
     */
    method ListExpenses(f: Filters) returns (r: seq<Expense>)
      ensures forall x :: multiset(r)[x] == if Matches(x, f) then multiset(items)[x] else 0
      ensures SortedNewestFirst(r)
      ensures forall e :: Keep(r, SameKeyAs(e)) == Keep(Keep(items, MatchesAll(f)), SameKeyAs(e))
    {
      var matching := FilterExpenses(items, f);
      r := SortNewestFirst(matching);
      forall e ensures Keep(r, SameKeyAs(e)) == Keep(Keep(items, MatchesAll(f)), SameKeyAs(e)) {
        SortedListingKeepsTies(items, f, e);
      }
    }
  }

  /** Ids that are distinct position by position identify the entries. */
  lemma DistinctIdsIdentify(items: seq<Expense>)
    requires IdsDistinct(items)
    ensures IdsIdentify(items)
  {
    forall x, y | x in items && y in items && x.id == y.id ensures x == y {
      var i :| 0 <= i < |items| && items[i] == x;
      var j :| 0 <= j < |items| && items[j] == y;
    }
  }

  /**
   * While the ids of the collection are distinct, the listing is the one and
   * only sequence satisfying the listing contract: the sort's handling of
   * equal keys cannot be observed.
   */
  lemma ListingIsDetermined(items: seq<Expense>, f: Filters, r: seq<Expense>)
    requires IdsDistinct(items)
    requires forall x :: multiset(r)[x] == if Matches(x, f) then multiset(items)[x] else 0
    requires SortedNewestFirst(r)
    ensures r == SortNewestFirst(FilterExpenses(items, f))
  {
    var s := SortNewestFirst(FilterExpenses(items, f));
    assert multiset(r) == multiset(s);
    DistinctIdsIdentify(items);
    SelectionIdentifies(items, r);
    SortedListingIsUnique(r, s);
  }

  /**
   * Whether or not ids repeat, the listing contract has exactly one
   * solution, the stable sort of the filtered collection.
   */
  lemma ListingIsTheStableSort(items: seq<Expense>, f: Filters, r: seq<Expense>)
    requires forall x :: multiset(r)[x] == if Matches(x, f) then multiset(items)[x] else 0
    requires SortedNewestFirst(r)
    requires forall e :: Keep(r, SameKeyAs(e)) == Keep(Keep(items, MatchesAll(f)), SameKeyAs(e))
    ensures r == SortNewestFirst(FilterExpenses(items, f))
  {
    var s := SortNewestFirst(FilterExpenses(items, f));
    SameMatchingEntries(items, f, r);
    forall e ensures Keep(r, SameKeyAs(e)) == Keep(s, SameKeyAs(e)) {
      SortedListingKeepsTies(items, f, e);
    }
    StableListingIsUnique(r, s);
  }

  /** Entries counted as the listing contract says are those of the sorted, filtered collection. */
  lemma SameMatchingEntries(items: seq<Expense>, f: Filters, r: seq<Expense>)
    requires forall x :: multiset(r)[x] == if Matches(x, f) then multiset(items)[x] else 0
    ensures multiset(r) == multiset(SortNewestFirst(FilterExpenses(items, f)))
  {
  }

  /** The listing keeps the entries of each key in stored order. */
  lemma SortedListingKeepsTies(items: seq<Expense>, f: Filters, e: Expense)
    ensures Keep(SortNewestFirst(FilterExpenses(items, f)), SameKeyAs(e)) == Keep(Keep(items, MatchesAll(f)), SameKeyAs(e))
  {
    FilterIsOnePass(items, f);
    SortIsStable(FilterExpenses(items, f), e);
  }

  /** Ids still identify the entries of any selection of the collection. */
  lemma SelectionIdentifies(items: seq<Expense>, r: seq<Expense>)
    requires IdsIdentify(items)
    requires forall x :: multiset(r)[x] <= multiset(items)[x]
    ensures IdsIdentify(r)
  {
    forall x, y | x in r && y in r && x.id == y.id ensures x == y {
      assert multiset(r)[x] > 0 && multiset(r)[y] > 0;
      assert x in items && y in items;
    }
  }

  /** With no filters the listing holds every stored entry. */
  lemma UnfilteredListingHoldsEverything(items: seq<Expense>)
    ensures multiset(SortNewestFirst(FilterExpenses(items, NoFilters))) == multiset(items)
  {
  }
}
