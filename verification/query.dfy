/**
 * The query engine of `list_expenses`: optional inclusive bounds on the date
 * text and an exact category match, applied as three successive filters,
 * then a sort on the pair (date, id) from largest to smallest.
 */
module Query {
  import opened Outcomes
  import opened Lexical
  import opened Expenses

  /** The keys a filters dictionary may hold; None is a missing key. */
  datatype Filters = Filters(fromDate: Option<string>, toDate: Option<string>, category: Option<string>)

  /** No filters at all (`filters` is None or empty). */
  const NoFilters: Filters := Filters(None, None, None)

  /** `e` survives every filter present: `date >= from_date`, `date <= to_date`, `category ==`. */
  predicate Matches(e: Expense, f: Filters) {
    && (f.fromDate.Some? ==> LexLe(f.fromDate.value, e.date))
    && (f.toDate.Some? ==> LexLe(e.date, f.toDate.value))
    && (f.category.Some? ==> e.category == f.category.value)
  }

  /** `[e for e in s if keep(e)]`: every entry with its multiplicity if it passes, none otherwise. */
  function Keep(s: seq<Expense>, keep: Expense -> bool): (r: seq<Expense>)
    ensures forall x {:trigger multiset(r)[x]} :: multiset(r)[x] == if keep(x) then multiset(s)[x] else 0
  {
    if s == [] then []
    else
      assert s == [s[0]] + s[1..];
      (if keep(s[0]) then [s[0]] else []) + Keep(s[1..], keep)
  }

  /** `e["date"] >= from_date`. */
  function OnOrAfter(fromDate: string): Expense -> bool {
    (e: Expense) => LexLe(fromDate, e.date)
  }

  /** `e["date"] <= to_date`. */
  function OnOrBefore(toDate: string): Expense -> bool {
    (e: Expense) => LexLe(e.date, toDate)
  }

  /** `e["category"] == category`. */
  function InCategory(category: string): Expense -> bool {
    (e: Expense) => e.category == category
  }

  /** Passes every filter of `f`. */
  function MatchesAll(f: Filters): Expense -> bool {
    (e: Expense) => Matches(e, f)
  }

  /** The three filter passes of `list_expenses`, each applied only when its key is present. */
  function FilterExpenses(items: seq<Expense>, f: Filters): (r: seq<Expense>)
    ensures forall x :: multiset(r)[x] == if Matches(x, f) then multiset(items)[x] else 0
  {
    var afterFrom := if f.fromDate.Some? then Keep(items, OnOrAfter(f.fromDate.value)) else items;
    var afterTo := if f.toDate.Some? then Keep(afterFrom, OnOrBefore(f.toDate.value)) else afterFrom;
    if f.category.Some? then Keep(afterTo, InCategory(f.category.value)) else afterTo
  }

  /** A comprehension keeps order: filtering a concatenation concatenates the filtered parts. */
  lemma {:induction false} KeepAppend(s1: seq<Expense>, s2: seq<Expense>, keep: Expense -> bool)
    ensures Keep(s1 + s2, keep) == Keep(s1, keep) + Keep(s2, keep)
    decreases |s1|
  {
    if s1 == [] {
      assert s1 + s2 == s2;
    } else {
      assert (s1 + s2)[0] == s1[0] && (s1 + s2)[1..] == s1[1..] + s2;
      KeepAppend(s1[1..], s2, keep);
    }
  }

  /**
   * A pass that is applied only when `present` holds keeps, in order, exactly
   * the entries of `q`, where `q` holds of everything when the pass is skipped.
   */
  lemma {:induction false} OptionalPass(s: seq<Expense>, present: bool, p: Expense -> bool, q: Expense -> bool)
    requires forall x :: q(x) == (present ==> p(x))
    ensures (if present then Keep(s, p) else s) == Keep(s, q)
    decreases |s|
  {
    if s != [] {
      OptionalPass(s[1..], present, p, q);
      assert s == [s[0]] + s[1..];
    }
  }

  /** Two successive comprehensions keep, in order, the entries that pass both. */
  lemma {:induction false} KeepKeep(s: seq<Expense>, p: Expense -> bool, q: Expense -> bool, pq: Expense -> bool)
    requires forall x :: pq(x) == (p(x) && q(x))
    ensures Keep(Keep(s, p), q) == Keep(s, pq)
    decreases |s|
  {
    if s != [] {
      var head := if p(s[0]) then [s[0]] else [];
      KeepAppend(head, Keep(s[1..], p), q);
      KeepKeep(s[1..], p, q, pq);
    }
  }

  /**
   * The three passes keep exactly the entries matching every filter present,
   * in stored order: the same list as one comprehension on `Matches`.
   */
  lemma FilterIsOnePass(items: seq<Expense>, f: Filters)
    ensures FilterExpenses(items, f) == Keep(items, MatchesAll(f))
  {
    var fromPass := (e: Expense) => f.fromDate.Some? ==> LexLe(f.fromDate.value, e.date);
    var toPass := (e: Expense) => f.toDate.Some? ==> LexLe(e.date, f.toDate.value);
    var categoryPass := (e: Expense) => f.category.Some? ==> e.category == f.category.value;
    var bothDates := (e: Expense) => fromPass(e) && toPass(e);
    var afterFrom := if f.fromDate.Some? then Keep(items, OnOrAfter(f.fromDate.value)) else items;
    var afterTo := if f.toDate.Some? then Keep(afterFrom, OnOrBefore(f.toDate.value)) else afterFrom;
    var fromValue, toValue, categoryValue := f.fromDate.GetOr(""), f.toDate.GetOr(""), f.category.GetOr("");
    OptionalPass(items, f.fromDate.Some?, OnOrAfter(fromValue), fromPass);
    OptionalPass(afterFrom, f.toDate.Some?, OnOrBefore(toValue), toPass);
    KeepKeep(items, fromPass, toPass, bothDates);
    OptionalPass(afterTo, f.category.Some?, InCategory(categoryValue), categoryPass);
    KeepKeep(items, bothDates, categoryPass, MatchesAll(f));
  }

  // ---------- Ordering on (date, id) ----------

  /** Python's `(a.date, a.id) < (b.date, b.id)`. */
  predicate KeyLess(a: Expense, b: Expense) {
    LexLess(a.date, b.date) || (a.date == b.date && LexLess(a.id, b.id))
  }

  predicate SameKey(a: Expense, b: Expense) {
    a.date == b.date && a.id == b.id
  }

  /** Has the same (date, id) key as `e`. */
  function SameKeyAs(e: Expense): Expense -> bool {
    (x: Expense) => SameKey(x, e)
  }

  /** Sorted with `reverse=True`: no entry has a smaller key than one after it. */
  predicate SortedNewestFirst(s: seq<Expense>) {
    forall i, j :: 0 <= i < j < |s| ==> !KeyLess(s[i], s[j])
  }

  /** Any two keys are ordered one way, the other way, or equal, and never both ways. */
  lemma KeyTrichotomy(a: Expense, b: Expense)
    ensures KeyLess(a, b) || SameKey(a, b) || KeyLess(b, a)
    ensures !(KeyLess(a, b) && KeyLess(b, a))
    ensures SameKey(a, b) ==> !KeyLess(a, b)
  {
    LexTrichotomy(a.date, b.date);
    LexTrichotomy(a.id, b.id);
    LexLessIrreflexive(a.date);
    LexLessIrreflexive(a.id);
  }

  /** "Not smaller than" is transitive. */
  lemma NotKeyLessTransitive(a: Expense, b: Expense, c: Expense)
    requires !KeyLess(a, b) && !KeyLess(b, c)
    ensures !KeyLess(a, c)
  {
    KeyTrichotomy(a, b);
    KeyTrichotomy(b, c);
    KeyTrichotomy(a, c);
    if KeyLess(a, c) {
      if KeyLess(b, a) && KeyLess(c, b) {
        LexTrichotomy(a.date, c.date);
        if LexLess(c.date, b.date) && LexLess(b.date, a.date) {
          LexLessTransitive(c.date, b.date, a.date);
        } else if LexLess(b.date, a.date) {
          LexLessTransitive(c.date, b.date, a.date);
        } else if LexLess(c.date, b.date) {
          LexLessTransitive(c.date, b.date, a.date);
        } else {
          LexLessTransitive(c.id, b.id, a.id);
        }
      }
    }
  }

  /** An entry not smaller than the head of a newest-first list can go in front of it. */
  lemma PrependSorted(x: Expense, t: seq<Expense>)
    requires SortedNewestFirst(t) && (t == [] || !KeyLess(x, t[0]))
    ensures SortedNewestFirst([x] + t)
  {
    forall k | 0 <= k < |t| ensures !KeyLess(x, t[k]) {
      if k > 0 { NotKeyLessTransitive(x, t[0], t[k]); }
    }
  }

  /**
   * The head of a newest-first list, larger than `x`, is not smaller than any
   * entry of the rest with `x` added.
   */
  lemma HeadBoundsInsertion(h: Expense, x: Expense, tail: seq<Expense>, rest: seq<Expense>)
    requires KeyLess(x, h)
    requires forall k :: 0 <= k < |tail| ==> !KeyLess(h, tail[k])
    requires multiset(rest) == multiset(tail) + multiset{x}
    ensures forall k :: 0 <= k < |rest| ==> !KeyLess(h, rest[k])
  {
    forall k | 0 <= k < |rest| ensures !KeyLess(h, rest[k]) {
      assert rest[k] in multiset(rest);
      if rest[k] == x {
        KeyTrichotomy(x, h);
      } else {
        assert rest[k] in multiset(tail);
        var m :| 0 <= m < |tail| && tail[m] == rest[k];
      }
    }
  }

  /** Insert `x` before the first entry whose key is not larger than its own. */
  function Insert(x: Expense, t: seq<Expense>): (r: seq<Expense>)
    requires SortedNewestFirst(t)
    ensures multiset(r) == multiset(t) + multiset{x}
    ensures SortedNewestFirst(r)
  {
    if t == [] || !KeyLess(x, t[0]) then
      PrependSorted(x, t);
      [x] + t
    else
      var rest := Insert(x, t[1..]);
      assert t == [t[0]] + t[1..];
      HeadBoundsInsertion(t[0], x, t[1..], rest);
      [t[0]] + rest
  }

  /**
   * `items.sort(key=lambda e: (e["date"], e["id"]), reverse=True)`, as an
   * insertion sort that, like Python's, keeps entries with equal keys in
   * their stored order.
   */
  function SortNewestFirst(s: seq<Expense>): (r: seq<Expense>)
    ensures multiset(r) == multiset(s)
    ensures SortedNewestFirst(r)
  {
    if s == [] then []
    else
      assert s == [s[0]] + s[1..];
      Insert(s[0], SortNewestFirst(s[1..]))
  }

  /** One step of a comprehension: the head if it passes, then the rest. */
  lemma KeepStep(s: seq<Expense>, keep: Expense -> bool)
    requires |s| > 0
    ensures Keep(s, keep) == (if keep(s[0]) then [s[0]] else []) + Keep(s[1..], keep)
  {
  }

  /**
   * An entry `h` with a larger key than `x` can be moved from behind `x` to
   * in front of it without changing the order within any key.
   */
  lemma PassLargerHead(x: Expense, h: Expense, rest: seq<Expense>, tail: seq<Expense>, e: Expense)
    requires KeyLess(x, h)
    requires Keep(rest, SameKeyAs(e)) == (if SameKey(x, e) then [x] else []) + Keep(tail, SameKeyAs(e))
    ensures Keep([h] + rest, SameKeyAs(e)) == (if SameKey(x, e) then [x] else []) + Keep([h] + tail, SameKeyAs(e))
  {
    var p := SameKeyAs(e);
    var kx := if SameKey(x, e) then [x] else [];
    var kh := if p(h) then [h] else [];
    KeepStep([h] + rest, p);
    KeepStep([h] + tail, p);
    assert ([h] + rest)[1..] == rest && ([h] + tail)[1..] == tail;
    assert kx == [] || kh == [] by {
      KeyTrichotomy(x, h);
    }
    SwapPastEmpty(kh, kx, Keep(tail, p));
  }

  /** Two lists one of which is empty can be put in either order. */
  lemma SwapPastEmpty(u: seq<Expense>, v: seq<Expense>, w: seq<Expense>)
    requires u == [] || v == []
    ensures u + (v + w) == v + (u + w)
  {
    if u == [] {
      assert u + (v + w) == v + w == v + (u + w);
    } else {
      assert u + (v + w) == u + w == v + (u + w);
    }
  }

  /**
   * Inserting `x` puts it before every entry with the same key, and keeps
   * the order of the others: for each key, the entries holding it are `x`
   * (if it holds that key) followed by those of `t`, in their order.
   */
  lemma {:induction false} InsertKeepsTies(x: Expense, t: seq<Expense>, e: Expense)
    requires SortedNewestFirst(t)
    ensures Keep(Insert(x, t), SameKeyAs(e)) == (if SameKey(x, e) then [x] else []) + Keep(t, SameKeyAs(e))
    decreases |t|
  {
    if t == [] || !KeyLess(x, t[0]) {
      assert Insert(x, t) == [x] + t;
      KeepStep([x] + t, SameKeyAs(e));
      assert ([x] + t)[1..] == t;
    } else {
      assert Insert(x, t) == [t[0]] + Insert(x, t[1..]);
      InsertKeepsTies(x, t[1..], e);
      PassLargerHead(x, t[0], Insert(x, t[1..]), t[1..], e);
      assert [t[0]] + t[1..] == t;
    }
  }

  /**
   * The sort is stable, as Python's `list.sort` is (also with
   * `reverse=True`): entries with equal keys keep their relative order.
   */
  lemma {:induction false} SortIsStable(s: seq<Expense>, e: Expense)
    ensures Keep(SortNewestFirst(s), SameKeyAs(e)) == Keep(s, SameKeyAs(e))
    decreases |s|
  {
    if s != [] {
      assert s == [s[0]] + s[1..];
      SortIsStable(s[1..], e);
      InsertKeepsTies(s[0], SortNewestFirst(s[1..]), e);
      KeepStep(s, SameKeyAs(e));
    }
  }

  /** Two newest-first orderings of the same entries start with entries of the same key. */
  lemma HeadsShareKey(r1: seq<Expense>, r2: seq<Expense>)
    requires |r1| > 0 && multiset(r1) == multiset(r2)
    requires SortedNewestFirst(r1) && SortedNewestFirst(r2)
    ensures |r2| > 0 && SameKey(r1[0], r2[0])
  {
    assert r1[0] in multiset(r2);
    var a, b := r1[0], r2[0];
    assert b in multiset(r1);
    KeyTrichotomy(a, a);
    KeyTrichotomy(b, b);
    assert !KeyLess(a, b) by {
      var i :| 0 <= i < |r1| && r1[i] == b;
      if i > 0 { assert !KeyLess(r1[0], r1[i]); }
    }
    assert !KeyLess(b, a) by {
      var j :| 0 <= j < |r2| && r2[j] == a;
      if j > 0 { assert !KeyLess(r2[0], r2[j]); }
    }
    KeyTrichotomy(a, b);
  }

  /**
   * A newest-first ordering is fixed by its entries and by the order of the
   * entries within each key: two orderings that agree on both are equal.
   */
  lemma {:induction false} StableListingIsUnique(r1: seq<Expense>, r2: seq<Expense>)
    requires multiset(r1) == multiset(r2)
    requires SortedNewestFirst(r1) && SortedNewestFirst(r2)
    requires forall e :: Keep(r1, SameKeyAs(e)) == Keep(r2, SameKeyAs(e))
    ensures r1 == r2
    decreases |r1|
  {
    assert |r1| == |multiset(r1)| == |r2|;
    if |r1| > 0 {
      HeadsShareKey(r1, r2);
      TiedHeadsAgree(r1, r2);
      forall e ensures Keep(r1[1..], SameKeyAs(e)) == Keep(r2[1..], SameKeyAs(e)) {
        TailsKeepTies(r1, r2, e);
      }
      TailsSameEntries(r1, r2);
      SortedTail(r1);
      SortedTail(r2);
      StableListingIsUnique(r1[1..], r2[1..]);
      assert r1 == [r1[0]] + r1[1..] && r2 == [r2[0]] + r2[1..];
    }
  }

  lemma SortedTail(r: seq<Expense>)
    requires |r| > 0 && SortedNewestFirst(r)
    ensures SortedNewestFirst(r[1..])
  {
    forall i, j | 0 <= i < j < |r| - 1 ensures !KeyLess(r[1..][i], r[1..][j]) {
      assert r[1..][i] == r[i + 1] && r[1..][j] == r[j + 1];
    }
  }

  /** Heads of the same key, when both lists order that key's entries alike, are the same entry. */
  lemma TiedHeadsAgree(r1: seq<Expense>, r2: seq<Expense>)
    requires |r1| > 0 && |r2| > 0 && SameKey(r1[0], r2[0])
    requires Keep(r1, SameKeyAs(r1[0])) == Keep(r2, SameKeyAs(r1[0]))
    ensures r1[0] == r2[0]
  {
    var p := SameKeyAs(r1[0]);
    KeepStep(r1, p);
    KeepStep(r2, p);
    assert p(r1[0]) && p(r2[0]);
    assert Keep(r1, p)[0] == r1[0];
  }

  /** Dropping one shared head leaves the entries of each key in the same order. */
  lemma TailsKeepTies(r1: seq<Expense>, r2: seq<Expense>, e: Expense)
    requires |r1| > 0 && |r2| > 0 && r1[0] == r2[0]
    requires Keep(r1, SameKeyAs(e)) == Keep(r2, SameKeyAs(e))
    ensures Keep(r1[1..], SameKeyAs(e)) == Keep(r2[1..], SameKeyAs(e))
  {
    var p := SameKeyAs(e);
    var head := if p(r1[0]) then [r1[0]] else [];
    KeepStep(r1, p);
    KeepStep(r2, p);
    assert head + Keep(r1[1..], p) == head + Keep(r2[1..], p);
    assert Keep(r1[1..], p) == (head + Keep(r1[1..], p))[|head|..];
  }

  /** Two entries of `s` with the same id are the same entry. */
  ghost predicate IdsIdentify(s: seq<Expense>) {
    forall x, y :: x in s && y in s && x.id == y.id ==> x == y
  }

  lemma TailStillIdentifies(s: seq<Expense>)
    requires |s| > 0 && IdsIdentify(s)
    ensures IdsIdentify(s[1..])
  {
    forall x | x in s[1..] ensures x in s { }
  }

  /** Removing equal heads from equal multisets leaves equal multisets. */
  lemma TailsSameEntries(r1: seq<Expense>, r2: seq<Expense>)
    requires |r1| > 0 && |r2| > 0 && r1[0] == r2[0] && multiset(r1) == multiset(r2)
    ensures multiset(r1[1..]) == multiset(r2[1..])
  {
    assert r1 == [r1[0]] + r1[1..] && r2 == [r2[0]] + r2[1..];
    assert multiset(r1) == multiset{r1[0]} + multiset(r1[1..]);
    assert multiset(r2) == multiset{r1[0]} + multiset(r2[1..]);
    assert multiset(r1[1..]) == multiset(r1) - multiset{r1[0]};
    assert multiset(r2[1..]) == multiset(r2) - multiset{r1[0]};
  }

  /** Two newest-first orderings of the same entries start with the same entry. */
  lemma HeadsAgree(r1: seq<Expense>, r2: seq<Expense>)
    requires |r1| > 0 && multiset(r1) == multiset(r2) && IdsIdentify(r1)
    requires SortedNewestFirst(r1) && SortedNewestFirst(r2)
    ensures |r2| > 0 && r1[0] == r2[0]
  {
    HeadsShareKey(r1, r2);
    var a, b := r1[0], r2[0];
    assert b in multiset(r1);
    assert a in r1 && b in r1 && a.id == b.id;
  }

  /**
   * When ids identify entries, the sorted listing is completely determined:
   * any two newest-first orderings of the same entries are equal, so the
   * order among equal keys never shows.
   */
  lemma {:induction false} SortedListingIsUnique(r1: seq<Expense>, r2: seq<Expense>)
    requires multiset(r1) == multiset(r2) && IdsIdentify(r1)
    requires SortedNewestFirst(r1) && SortedNewestFirst(r2)
    ensures r1 == r2
    decreases |r1|
  {
    assert |r1| == |multiset(r1)| == |r2|;
    if |r1| > 0 {
      HeadsAgree(r1, r2);
      TailsSameEntries(r1, r2);
      TailStillIdentifies(r1);
      SortedListingIsUnique(r1[1..], r2[1..]);
      assert r1 == [r1[0]] + r1[1..] && r2 == [r2[0]] + r2[1..];
    }
  }
}
