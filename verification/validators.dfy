/**
 * The field validators of an expense payload and the tag normaliser
 * (app.py, "Validation helpers" and `normalize_tags`). Each validator
 * returns the error message its ValueError would carry instead of raising.
 */
module Validators {
  import opened Outcomes
  import opened Text
  import Calendar

  const DateMessage: string := "date must be in format YYYY-MM-DD"
  const NotNumberMessage: string := "amount must be a number"
  const NotPositiveMessage: string := "amount must be positive"

  /** `validate_date_iso`: passes exactly on the text of a real calendar date. */
  function ValidateDateIso(s: string): (r: Check)
    ensures r.Fail? ==> r.error == DateMessage
    ensures r.Pass? ==> |s| == 10 && s[4] == '-' && s[7] == '-'
  {
    match Calendar.ParseIsoDate(s)
    case Some(d) =>
      Calendar.FormatParse(s);
      Pass
    case None => Fail(DateMessage)
  }

  lemma ValidateDateIsoExact(s: string)
    ensures ValidateDateIso(s).Pass? <==> Calendar.IsIsoDate(s)
  {
    Calendar.ParseIsoDateAcceptsExactlyRealDates(s);
  }

  /**
   * `validate_amount_positive`. The argument is what `float(x)` produced:
   * None when the coercion raised (a missing or non-numeric amount).
   */
  function ValidateAmountPositive(x: Option<real>): (r: Result<real>)
    ensures r.Ok? <==> x.Some? && x.value > 0.0
    ensures r.Ok? ==> r.value == x.value
    ensures x.None? ==> r == Err(NotNumberMessage)
    ensures x.Some? && x.value <= 0.0 ==> r == Err(NotPositiveMessage)
  {
    match x
    case None => Err(NotNumberMessage)
    case Some(v) => if v <= 0.0 then Err(NotPositiveMessage) else Ok(v)
  }

  function RequiredMessage(field: string): string {
    field + " is required"
  }

  /** `validate_required_text`: fails when the value is absent, empty or only whitespace. */
  function ValidateRequiredText(s: Option<string>, field: string): (r: Check)
    ensures r.Fail? <==> s.None? || AllSpace(s.value)
    ensures r.Fail? ==> r.error == RequiredMessage(field)
  {
    if s.None? then Fail(RequiredMessage(field))
    else
      StripEmptyIff(s.value);
      if Strip(s.value) == "" then Fail(RequiredMessage(field)) else Pass
  }

  // ---------- Tags ----------

  /**
   * The `tags` value of a payload: a list (its elements already converted by
   * `str`), a comma-separated string, or anything else (including absent).
   */
  datatype TagsInput = TagList(items: seq<string>) | TagText(text: string) | OtherTags

  /** A tag as stored: non-empty, with no leading or trailing whitespace. */
  predicate IsTag(t: string) {
    t != "" && IsTrimmed(t)
  }

  /** What the comprehension makes of one element: its stripped self, or nothing when that is empty. */
  function Kept(x: string): (ts: seq<string>)
    ensures ts == [] || (|ts| == 1 && IsTag(ts[0]))
  {
    if Strip(x) == "" then [] else [Strip(x)]
  }

  /** `[x.strip() for x in xs if x.strip()]`. */
  function KeepStripped(xs: seq<string>): (tags: seq<string>)
    ensures |tags| <= |xs|
    ensures forall k :: 0 <= k < |tags| ==> IsTag(tags[k])
  {
    if xs == [] then [] else Kept(xs[0]) + KeepStripped(xs[1..])
  }

  /** `normalize_tags`. */
  function NormalizeTags(raw: TagsInput): (tags: seq<string>)
    ensures forall k :: 0 <= k < |tags| ==> IsTag(tags[k])
    ensures raw.OtherTags? ==> tags == []
  {
    match raw
    case TagList(xs) => KeepStripped(xs)
    case TagText(s) => KeepStripped(SplitOn(s, ','))
    case OtherTags => []
  }

  /**
   * Order is preserved: normalising a concatenation normalises the parts
   * and concatenates the results; one element yields its stripped self or nothing.
   */
  lemma {:induction false} KeepStrippedAppend(a: seq<string>, b: seq<string>)
    ensures KeepStripped(a + b) == KeepStripped(a) + KeepStripped(b)
    decreases |a|
  {
    if a == [] {
      assert a + b == b;
    } else {
      assert (a + b)[0] == a[0] && (a + b)[1..] == a[1..] + b;
      KeepStrippedAppend(a[1..], b);
    }
  }

  lemma KeepStrippedCons(x: string, rest: seq<string>)
    ensures KeepStripped([x] + rest) == Kept(x) + KeepStripped(rest)
  {
    assert ([x] + rest)[0] == x && ([x] + rest)[1..] == rest;
  }

  lemma KeepStrippedSingle(x: string)
    ensures KeepStripped([x]) == if Strip(x) == "" then [] else [Strip(x)]
  {
    assert [x][1..] == [];
  }

  lemma StripTag(t: string)
    requires IsTag(t)
    ensures Strip(t) == t
  {
    StripTrimmed(t);
  }

  /** Lists that are already normalised come back unchanged. */
  lemma {:induction false} KeepStrippedOfTags(tags: seq<string>)
    requires forall k :: 0 <= k < |tags| ==> IsTag(tags[k])
    ensures KeepStripped(tags) == tags
    decreases |tags|
  {
    if tags != [] {
      StripTag(tags[0]);
      KeepStrippedOfTags(tags[1..]);
      assert tags == [tags[0]] + tags[1..];
    }
  }

  lemma NormalizeTagsIdempotent(raw: TagsInput)
    ensures NormalizeTags(TagList(NormalizeTags(raw))) == NormalizeTags(raw)
  {
    KeepStrippedOfTags(NormalizeTags(raw));
  }

  /** A tag cut out of pieces that avoid a character avoids it too. */
  lemma {:induction false} KeepStrippedAvoids(xs: seq<string>, c: char)
    requires forall i :: 0 <= i < |xs| ==> c !in xs[i]
    ensures forall k :: 0 <= k < |KeepStripped(xs)| ==> c !in KeepStripped(xs)[k]
    decreases |xs|
  {
    if xs != [] {
      var i, j := StripSlice(xs[0]);
      assert c !in xs[0][i..j];
      KeepStrippedAvoids(xs[1..], c);
    }
  }

  /** Tags read from a comma-separated string never contain a comma. */
  lemma TextTagsHaveNoComma(s: string)
    ensures forall k :: 0 <= k < |NormalizeTags(TagText(s))| ==> ',' !in NormalizeTags(TagText(s))[k]
  {
    KeepStrippedAvoids(SplitOn(s, ','), ',');
  }

  /**
   * Writing comma-free tags out as a comma-separated string and reading the
   * string back as the `tags` field gives the same list.
   */
  lemma TagTextRoundTrip(tags: seq<string>)
    requires forall k :: 0 <= k < |tags| ==> IsTag(tags[k]) && ',' !in tags[k]
    ensures NormalizeTags(TagText(Join(tags, ','))) == tags
  {
    if tags == [] {
      EmptyTextHasNoTags();
    } else {
      SplitJoin(tags, ',');
      KeepStrippedOfTags(tags);
    }
  }

  /** The empty string is one empty piece, which is dropped. */
  lemma EmptyTextHasNoTags()
    ensures NormalizeTags(TagText("")) == []
  {
    var pieces := SplitOn("", ',');
    assert pieces == [""];
    assert AllSpace(pieces[0]);
    assert Kept(pieces[0]) == [];
    assert pieces[1..] == [];
  }
}
