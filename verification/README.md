# Expense tracker core, modelled in Dafny

A model of the command-line expense tracker in `app.py`. The tracker keeps,
for each user, a list of expense entries: id, date, amount, category,
description, payment method and tags. It also keeps a directory of
user records and a two-screen session, AUTH (register or log in) and HOME
(a logged-in user). The model covers:

- the field validators of an expense payload and the tag normaliser;
- the shape of the expense id minted from the clock;
- `add_expense`: validate, build the entry, append it;
- `list_expenses`: filter on date bounds and category, then sort newest
  first on (date, id);
- the account directory: search, register, authenticate;
- the session transitions.

The JSON documents on disk become in-memory state:

- a user's expenses are the `items` field of `Store.ExpenseStore`;
- the users document is the `users` field of `Accounts.AccountDirectory`;
- the module-level `state` and `current_user` globals are the fields of
  `Session.Session`.

The clock becomes parameters:

- `today` is the text of today's date;
- `now` is a `Timestamp` clock reading from which the id is formatted.

Modules:

- `Outcomes`: `Result`, `Check` and `Option`. A Python `ValueError` is
  modelled as an `Err`/`Fail` carrying the exception's message.
- `Lexical`: Python's string ordering (`<` on `str`) and fixed-width
  decimal numerals.
- `Text`: `str.strip()`, `str.split(sep)` and `sep.join`.
- `Calendar`: the `YYYY-MM-DD` dates read by `datetime.date.fromisoformat`
  and written by `date.isoformat()`. This is the calendar-date form of
  ISO 8601 (section 5.2.1.1), with the Gregorian leap-year rule and years
  1 to 9999.
- `ExpenseIds`: `"exp_"` followed by `%Y%m%d_%H%M%S%f`.
- `Validators`, `Expenses`, `Query`, `Store`, `Accounts`, `Session`: the
  operations of `app.py`.
- `Scenarios`: worked cases on concrete inputs.

## Model

| member | source | states |
|---|---|---|
| Lexical.LexLess | app.py:299-306 | Python's `<` on strings: code point by code point, a proper prefix first |
| Lexical.LexTrichotomy | app.py:299-306 | Python string comparison is a strict total order: exactly one of `a < b`, `a == b`, `b < a` |
| Lexical.LexLessTransitive | app.py:306 | string `<` is transitive, which the sort on (date, id) relies on |
| Lexical.LexLessConcat | app.py:306 | comparing `x1 + y1` with `x2 + y2` for equal-length `x1`, `x2` compares the prefixes first, then the rests; this is how tuple and fixed-width text comparison agree |
| Lexical.Digits | app.py:219 | the zero-padded decimal fields of `%Y`, `%m`, `%d` and the time part: exactly `width` digits |
| Lexical.DigitsRoundTrip | app.py:219 | a number below `10^w` written as `w` zero-padded digits reads back as itself |
| Lexical.NumeralRoundTrip | app.py:186 | a string of digits is the zero-padded numeral of its value |
| Lexical.DigitsOrder | app.py:219 | for zero-padded numerals of one width, text order is numeric order |
| Text.IsSpace | app.py:205 | the whitespace characters `strip()` removes (the ASCII ones of `str.isspace`) |
| Text.Strip | app.py:205 | `strip()` leaves no whitespace at either end |
| Text.StripEmptyIff | app.py:205 | the result of `strip()` is empty if and only if the input is all whitespace |
| Text.StripTrimmed | app.py:226-229 | text with no whitespace at either end is left unchanged by `strip()` |
| Text.StripSlice | app.py:226-229 | `strip()` removes only whitespace, and only from the two ends: its result is a slice of the input |
| Text.StripIdempotent | app.py:226-229 | stripping twice is stripping once |
| Text.SplitOn | app.py:229 | `split(",")` gives at least one piece, and no piece contains the separator |
| Text.JoinSplit | app.py:229 | joining the pieces of `split(sep)` with `sep` gives back the original string |
| Text.SplitJoin | app.py:229 | splitting the join of separator-free pieces gives back exactly those pieces |
| Calendar.IsLeapYear | app.py:186 | the Gregorian leap-year rule `fromisoformat` applies: divisible by 4, and by 400 when divisible by 100 |
| Calendar.DaysInMonth | app.py:186 | the month lengths `fromisoformat` checks the day against, between 28 and 31 |
| Calendar.IsRealDate | app.py:186 | the range checks of `fromisoformat`: year 1 to 9999, month 1 to 12, day 1 to the month's length |
| Calendar.FormatDate | app.py:210-212 | `isoformat()` is ten characters with dashes at positions 4 and 7 |
| Calendar.ParseIsoDate | app.py:186 | what `fromisoformat` reads from a `YYYY-MM-DD` string is always a real calendar date |
| Calendar.ParseFormat | app.py:186 | every real date is read back from its own `isoformat()` text |
| Calendar.FormatParse | app.py:186 | a string that is read as a date is exactly that date's text (no other spelling is accepted) |
| Calendar.FormatDateInjective | app.py:186 | two dates whose fields fit the format and whose texts are equal are the same date |
| Calendar.ParseRejectsUnrealDate | app.py:185-188 | well-formed text naming a day that does not exist (day 0, month 13, February 29th outside a leap year) is refused |
| Calendar.ParseIsoDateAcceptsExactlyRealDates | app.py:185-188 | the reader accepts a string if and only if it is the text of a real date |
| Calendar.DateOrderIsLexical | app.py:299-301 | on real dates, comparing the date texts as strings, as the date filters do, is chronological comparison |
| Validators.ValidateDateIso | app.py:183-188 | a failure carries "date must be in format YYYY-MM-DD"; a pass implies the `YYYY-MM-DD` shape |
| Validators.ValidateDateIsoExact | app.py:183-188 | the date check passes if and only if the string names a real calendar date |
| Validators.ValidateAmountPositive | app.py:191-200 | returns the value exactly when it is a number > 0; "amount must be a number" when the coercion fails; "amount must be positive" when the value is ≤ 0 |
| Validators.ValidateRequiredText | app.py:203-206 | fails with "<field> is required" if and only if the value is absent, empty or whitespace only |
| Validators.Kept | app.py:226 | one element gives nothing or exactly one tag, and that tag is non-empty and stripped |
| Validators.KeepStripped | app.py:226 | never more tags than elements, and each tag is non-empty and stripped |
| Validators.NormalizeTags | app.py:222-232 | every tag returned is non-empty and stripped; anything that is neither a list nor a string yields `[]` |
| Validators.KeepStrippedAppend | app.py:226-229 | order is preserved: normalising a concatenation concatenates the normalised parts |
| Validators.KeepStrippedCons | app.py:226-229 | the first element's contribution comes first, followed by the rest's |
| Validators.KeepStrippedSingle | app.py:226-229 | one element yields its stripped self, or nothing when that is empty |
| Validators.KeepStrippedOfTags | app.py:226 | a list of tags that is already normalised comes back unchanged |
| Validators.NormalizeTagsIdempotent | app.py:222-232 | normalising the result of `normalize_tags` as a list changes nothing |
| Validators.TextTagsHaveNoComma | app.py:229 | tags read from a comma-separated string contain no comma |
| Validators.TagTextRoundTrip | app.py:229 | comma-free tags joined with commas and read back give the same list |
| Validators.EmptyTextHasNoTags | app.py:229 | the empty string gives no tags |
| ExpenseIds.DatePart | app.py:219 | `%Y%m%d` is eight digits |
| ExpenseIds.TimePart | app.py:219 | `%H%M%S%f` is twelve digits |
| ExpenseIds.FormatId | app.py:215-219 | the id is 25 characters: `exp_`, eight digits, `_`, twelve digits |
| ExpenseIds.FieldThen | app.py:219 | a fixed-width field followed by the rest compares field first; two such texts are equal exactly when field and rest are |
| ExpenseIds.DateOrder | app.py:219 | the date digits compare as the dates do, year first, and are equal exactly when year, month and day are |
| ExpenseIds.TimeOrder | app.py:219 | the time digits compare as the times do, hour first, and are equal exactly when hour, minute, second and microsecond are |
| ExpenseIds.StampOrder | app.py:219 | the text after the prefix orders as the clock readings do, and is equal exactly when they are |
| ExpenseIds.IdOrderIsChronological | app.py:215-219 | for valid clock readings, id order is time order, and two ids are equal exactly when the readings are |
| ExpenseIds.IncreasingClockGivesDistinctIds | app.py:216-219 | ids minted at strictly increasing clock readings are pairwise distinct and sort in creation order |
| Expenses.EffectiveDate | app.py:248 | an absent or empty date means `today`; any other value is used as given |
| Expenses.NewExpense | app.py:247-277 | succeeds if and only if every check passes; checks run date, then amount, then category, and the first failure's message is returned; on success the entry's fields are the id, the effective date, the validated amount, the category as given, description and payment method defaulting to "", and the normalised tags |
| Expenses.NewExpenseDateIsReal | app.py:248-249 | every entry built carries the text of a real date |
| Expenses.DefaultDateIsToday | app.py:248 | a payload without a date, a positive amount and a non-blank category is accepted and stored under today's date |
| Store.ExpenseStore.constructor | app.py:161-165 | a newly created expenses document holds no entries |
| Store.ExpenseStore.AddExpense | app.py:236-283 | on a failed check, returns its message and leaves the collection unchanged; otherwise appends exactly the new entry, returns its id, and keeps ids distinct when that id is new |
| Store.ExpenseStore.ListExpenses | app.py:286-308 | returns each stored entry that passes every filter present, as often as it is stored, and nothing else, sorted non-increasingly on (date, id); entries sharing a (date, id) key come in stored order; the collection is not changed |
| Store.DistinctIdsIdentify | app.py:216 | when ids are pairwise distinct, an id determines its entry |
| Store.SelectionIdentifies | app.py:297-303 | when ids identify the stored entries, they also identify the entries of any filtered selection |
| Store.ListingIsDetermined | app.py:305-306 | with distinct ids, the listing contract has exactly one solution, the listing itself |
| Store.ListingIsTheStableSort | app.py:294-306 | whether or not ids repeat, the listing contract has exactly one solution: the stable sort of the filtered entries |
| Store.SortedListingKeepsTies | app.py:297-306 | in the listing, the matching entries of each (date, id) key appear in the order they are stored |
| Store.UnfilteredListingHoldsEverything | app.py:297 | with no filters the listing holds every stored entry |
| Query.Keep | app.py:299-303 | a comprehension keeps each entry that passes, as often as it occurs, and nothing else |
| Query.Matches | app.py:297-303 | an entry passes `date >= from_date`, `date <= to_date` and `category ==` for each key present |
| Query.FilterExpenses | app.py:296-303 | the three filter passes keep exactly the entries with `date >= from_date`, `date <= to_date` and equal category, for each key present |
| Query.KeepAppend | app.py:299-303 | a comprehension keeps input order: filtering a concatenation concatenates the filtered parts |
| Query.OptionalPass | app.py:298-303 | a pass applied only when its key is present keeps, in order, the entries for which "key present implies condition" holds |
| Query.KeepKeep | app.py:299-303 | two successive comprehensions keep, in input order, exactly the entries that pass both |
| Query.FilterIsOnePass | app.py:297-303 | the three passes give the matching entries in stored order: the same list as one comprehension on all filters |
| Query.KeyLess | app.py:306 | the tuple comparison `(a.date, a.id) < (b.date, b.id)`: date first, then id |
| Query.KeyTrichotomy | app.py:306 | (date, id) keys are ordered one way, the other way, or equal, and never both ways |
| Query.NotKeyLessTransitive | app.py:306 | "not smaller than" on (date, id) keys is transitive |
| Query.Insert | app.py:306 | inserting into a newest-first list adds exactly that entry and keeps the list newest first |
| Query.SortNewestFirst | app.py:306 | `sort(key=(date, id), reverse=True)` returns a permutation of its input, sorted non-increasingly on the key |
| Query.InsertKeepsTies | app.py:306 | inserting puts the new entry before the entries sharing its key and keeps the order of the rest |
| Query.SortIsStable | app.py:306 | the sort is stable, as `list.sort` is also with `reverse=True`: entries with equal keys keep their relative order |
| Query.HeadsShareKey | app.py:306 | two newest-first orderings of the same entries start with entries of equal key |
| Query.StableListingIsUnique | app.py:306 | a newest-first ordering is fixed by its entries and the order within each key: two that agree on both are equal |
| Query.HeadsAgree | app.py:306 | two newest-first orderings of the same entries, with ids identifying entries, start with the same entry |
| Query.SortedListingIsUnique | app.py:306 | when ids identify entries, any two newest-first orderings of the same entries are equal |
| Accounts.UsernameExists | app.py:65-72 | true if and only if some record carries the name |
| Accounts.AccountDirectory.constructor | app.py:40-47 | a newly created users document holds no records |
| Accounts.AccountDirectory.Register | app.py:74-88 | a taken name fails with "username already exists" and changes nothing; otherwise exactly one record `{username, password}` is appended; afterwards the name exists, and distinct names stay distinct |
| Accounts.AccountDirectory.Authenticate | app.py:90-99 | true if and only if some record matches both the name and the password |
| Session.Session.constructor | app.py:104-106 | the tracker starts on AUTH with nobody logged in |
| Session.Session.GoAuth | app.py:108-113 | state AUTH, no current user |
| Session.Session.GoHome | app.py:116-120 | state HOME, current user `username` |
| Session.Session.ActionRegister | app.py:123-133 | succeeds if and only if the name was free; success moves to HOME with that user and reports "registered and logged in"; failure reports the directory's message and changes neither the state, the current user nor the directory |
| Session.Session.ActionLogin | app.py:135-141 | succeeds if and only if the credentials match a record; success moves to HOME with that user and reports "logged in"; failure reports "invalid credentials" and changes nothing |
| Session.Session.ActionLogout | app.py:143-145 | always ends on AUTH with nobody logged in |
| Scenarios.LeapDay2024 | app.py:186 | "2024-02-29" is accepted |
| Scenarios.LeapDay2000 | app.py:186 | "2000-02-29" is accepted (2000 is divisible by 400) |
| Scenarios.NoLeapDay2023 | app.py:185-188 | "2023-02-29" is refused |
| Scenarios.NoLeapDay1900 | app.py:185-188 | "1900-02-29" is refused (1900 is divisible by 100 but not by 400) |
| Scenarios.NoMonth13 | app.py:185-188 | "2024-13-01" is refused |
| Scenarios.NoDayZero | app.py:185-188 | "2024-01-00" is refused |
| Scenarios.StripPadded | app.py:226-229 | a visible character, alone or with one space on each side, strips to itself |
| Scenarios.TagTextExample | app.py:229 | the string "x, y " gives the tags `["x", "y"]` |
| Scenarios.EmptyPiecesExample | app.py:229 | the string ",," gives no tags |
| Scenarios.TagListExample | app.py:226 | the list `["x", " y "]` gives the tags `["x", "y"]` |
| Scenarios.FilterKeepsTwo | app.py:296-303 | of three entries, the two that match are kept and the third is dropped |
| Scenarios.FilteredEntries | app.py:296-303 | filtering entries that all match except one leaves exactly the matching ones |
| Scenarios.SortPair | app.py:306 | two entries with distinct ids are listed larger key first, whatever their stored order |
| Scenarios.ListingOfTwoMatches | app.py:294-306 | of three entries where the third fails the filters, the listing is the other two, larger key first |
| Scenarios.JanuaryListing | app.py:294-306 | entries of 2024-01-01, 2024-01-15 and 2024-02-01, listed from 2024-01-01 to 2024-01-31: the January 15th entry, then the January 1st entry |
| Scenarios.TieBreakOnId | app.py:306 | on the same date, id "exp_b" is listed before id "exp_a" |
| Scenarios.SameKeyKeepsStoredOrder | app.py:306 | two entries minted in the same microsecond (same date and id) are listed in stored order |

## Left out

- File and JSON persistence is not modelled. This covers
  `ensure_user_dir_exists`, `ensure_users_file`, `load_users`/`save_users`,
  `expenses_path`, `load_expenses`/`save_expenses` and `boot`. Each document
  is an in-memory sequence, and "create it empty when missing" is the
  constructor's empty sequence. As a result, the data folder that
  `register_user` creates for a new user is not modelled.
- The clock (`date.today`, `datetime.now`) is replaced by parameters: today's date text and the `Timestamp` reading.
- `float(x)` is not modelled. The amount arrives as the outcome of the coercion, with None when it raised. Floating-point rounding, NaN and infinities are left out; a NaN amount would pass `val <= 0` in Python.
- Text is modelled as strings only. A category, description, payment method or tag element that is not a string (with `str()` applied) is left out. So are a description or payment method present with a null value, and user records missing a key.
- `str.strip` is modelled with ASCII whitespace only: space, `\t` to `\r`, and `\x1c` to `\x1f`. Unicode whitespace is left out.
- Newer Python releases make `fromisoformat` accept more formats than `YYYY-MM-DD` (week dates, the basic format). Only `YYYY-MM-DD` is modelled.
- A filter key present with a null value is left out; a missing key is None. With a null `from_date` or `to_date` the comparison raises in Python, since `str >= None` and `str <= None` are type errors. With a null `category`, the `==` test is False for every entry, so the listing would be empty.
- ExpenseIds.ValidTimestamp: years below 1000 are excluded, because `%Y` does not zero-pad them on every platform.
- The sort's in-place update of the loaded list is not modelled. `list.sort` is a library call, so the sort is the function `Query.SortNewestFirst`. It is stable, like Python's (`Query.SortIsStable`). `Store.ListingIsTheStableSort` shows that the listing contract fixes the result even when ids repeat. `Store.ListingIsDetermined` shows that, with distinct ids, sortedness alone fixes it.
- `generate_expense_id` does not guarantee uniqueness: two calls within the same microsecond give the same id. `Store.ExpenseStore.AddExpense` keeps ids distinct only under the hypothesis that the new id is unused, and `ExpenseIds.IncreasingClockGivesDistinctIds` states when that holds.
- The comment at app.py:218 shows a nine-digit time part. The code's `%H%M%S%f` gives twelve digits, and the model follows the code.
- The interactive menu `demo_cli` and its output formatting are not modelled. Neither are password secrecy and concurrent writers.
