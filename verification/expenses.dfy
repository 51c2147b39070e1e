/**
 * Expense entries and the validation-and-construction step of `add_expense`:
 * the date (defaulting to today), then the amount, then the category are
 * checked, in that order, and the first failure is the error reported.
 */
module Expenses {
  import opened Outcomes
  import opened Text
  import opened Validators
  import Calendar

  /** One stored expense record. */
  datatype Expense = Expense(
    id: string,
    date: string,
    amount: real,
    category: string,
    description: string,
    paymentMethod: string,
    tags: seq<string>)

  /**
   * The payload of `add_expense`. None stands for a missing key; `amount` is
   * what `float` made of the value, None when the coercion raised.
   */
  datatype Payload = Payload(
    date: Option<string>,
    amount: Option<real>,
    category: Option<string>,
    description: Option<string>,
    paymentMethod: Option<string>,
    tags: TagsInput)

  const CategoryField: string := "category"

  /** `payload.get("date") or today`: an absent or empty date means today. */
  function EffectiveDate(p: Payload, today: string): (d: string)
    ensures p.date.None? || p.date == Some("") ==> d == today
    ensures p.date.Some? && p.date.value != "" ==> d == p.date.value
  {
    match p.date
    case Some(s) => if s == "" then today else s
    case None => today
  }

  /** A payload that passes every check. */
  ghost predicate Acceptable(p: Payload, today: string) {
    && Calendar.IsIsoDate(EffectiveDate(p, today))
    && p.amount.Some? && p.amount.value > 0.0
    && p.category.Some? && !AllSpace(p.category.value)
  }

  /**
   * The entry `add_expense` builds from `p` with the id `id`, or the message
   * of the first failed check. Missing description and payment method become
   * empty strings, the category is kept exactly as given (not stripped) and
   * the tags are normalised.
   */
  function NewExpense(p: Payload, today: string, id: string): (r: Result<Expense>)
    ensures r.Ok? <==> Acceptable(p, today)
    ensures !Calendar.IsIsoDate(EffectiveDate(p, today)) ==> r == Err(DateMessage)
    ensures Calendar.IsIsoDate(EffectiveDate(p, today)) && p.amount.None? ==> r == Err(NotNumberMessage)
    ensures (Calendar.IsIsoDate(EffectiveDate(p, today)) && p.amount.Some? && p.amount.value <= 0.0)
              ==> r == Err(NotPositiveMessage)
    ensures (Calendar.IsIsoDate(EffectiveDate(p, today)) && p.amount.Some? && p.amount.value > 0.0
             && (p.category.None? || AllSpace(p.category.value)))
              ==> r == Err(RequiredMessage(CategoryField))
    ensures r.Ok? ==> && r.value.id == id
                      && r.value.date == EffectiveDate(p, today)
                      && r.value.amount == p.amount.value && r.value.amount > 0.0
                      && Some(r.value.category) == p.category
                      && r.value.description == p.description.GetOr("")
                      && r.value.paymentMethod == p.paymentMethod.GetOr("")
                      && r.value.tags == NormalizeTags(p.tags)
  {
    var date := EffectiveDate(p, today);
    ValidateDateIsoExact(date);
    :- ValidateDateIso(date);
    var amount :- ValidateAmountPositive(p.amount);
    :- ValidateRequiredText(p.category, CategoryField);
    Ok(Expense(id, date, amount, p.category.value, p.description.GetOr(""), p.paymentMethod.GetOr(""),
               NormalizeTags(p.tags)))
  }

  /** Every stored entry's date is a real calendar date. */
  lemma NewExpenseDateIsReal(p: Payload, today: string, id: string)
    requires NewExpense(p, today, id).Ok?
    ensures Calendar.IsIsoDate(NewExpense(p, today, id).value.date)
    ensures Calendar.ParseIsoDate(NewExpense(p, today, id).value.date).Some?
  {
    Calendar.ParseIsoDateAcceptsExactlyRealDates(NewExpense(p, today, id).value.date);
  }

  /**
   * A payload without a date, with a positive amount and a non-blank
   * category, is stored under today's date when today is a real date.
   */
  lemma DefaultDateIsToday(p: Payload, today: Calendar.Date, id: string)
    requires Calendar.IsRealDate(today)
    requires p.date.None? || p.date == Some("")
    requires p.amount.Some? && p.amount.value > 0.0
    requires p.category.Some? && !AllSpace(p.category.value)
    ensures NewExpense(p, Calendar.FormatDate(today), id).Ok?
    ensures NewExpense(p, Calendar.FormatDate(today), id).value.date == Calendar.FormatDate(today)
  {
    assert EffectiveDate(p, Calendar.FormatDate(today)) == Calendar.FormatDate(today);
  }

  /** No two entries share an id. */
  ghost predicate IdsDistinct(items: seq<Expense>) {
    forall i, j :: 0 <= i < j < |items| ==> items[i].id != items[j].id
  }

  /** No entry carries the id `id`. */
  ghost predicate IdUnused(items: seq<Expense>, id: string) {
    forall i :: 0 <= i < |items| ==> items[i].id != id
  }
}
