# Income converter: a Dafny model

`konwerter.py` is an interactive console tool. It adds up foreign-currency
income in Polish złoty. For every entry the user gives a date and an amount
with an optional currency code. The program fetches the average exchange rate
from the National Bank of Poland's service for the last business day before
the income date and adds `rate * amount` to that currency's running total.
Typing `x` at the date prompt prints the grand total and the non-negligible
per-currency totals.

This project models the two parts of the program that hold its logic:

- `get_rate` (module `Rates`): the loop that asks the rate service about a date
  and, while the reply's status is not 200, steps back one calendar day. It is
  specified by the recursive function `Walk` and implemented by the method
  `GetRate`, a `while` loop over the same variables. The calendar arithmetic
  it relies on, `date - timedelta(1)` and `date.toordinal()`, is in module
  `Dates`.
- `main` (module `Income`): the per-currency totals, the sticky default
  currency, the currency token taken from the amount line, the allowlist, the
  two `x` sentinels, the error paths that skip an entry, and the final report.
  It is specified by the functions `EntryStep`, `Session` and `ReportOf`. It is
  implemented by the methods `Record`, `Run` and `FinalReport`, which update
  locals the way `main` does.

Collaborators the model cannot see are parameters (`Oracles`):
- `dateparser.parse` is a function from a line to an optional date.
- `float` on the amount text is a function to an optional real; None stands
  for the exception.
- The HTTP request plus JSON decoding is a `RateService`. It maps a currency
  code and a date to either `Answered(status, mids)` or `Unreachable`, which
  stands for an exception raised by `requests.get`.

Console input is a sequence of lines.

Behaviour of the code that the model keeps as written:

- `get_rate` decrements the date after every request, including the one that
  answered 200. The date it returns is therefore one day before the date
  whose rate it returns. The docstring (`konwerter.py:22-24`) and the check at
  `konwerter.py:49-52` expect the answering date. `Rates.RecordedScenarios`
  shows that against the replies those checks assume, the query for Sunday
  2016-09-11 reports 2016-09-08, not the 9th.
- Every status other than 200 makes the walk step back, not only "not found".
  An exception from the request is not retried; it reaches `main`, which skips
  the entry.
- `get_rate` has no bound on the number of days it walks back. It ends only
  at a 200 reply, at an exception, or at the overflow of
  `date - timedelta(1)` on 0001-01-01. The model proves termination through
  the ordinal of the date.
- The currency token is made of all ASCII letters of the amount line, wherever
  they stand. So `100usd` is rejected as an unknown currency, and `1e3` yields
  the token `e`. The default currency changes as soon as a known token is
  read, even when the amount or the rate then fails.
- `main` looks the rate up from the day before the income date, and
  `get_rate` then reports a date at least one day earlier still.

## Model

| member | source | states |
|---|---|---|
| Dates.PrevDay | konwerter.py:33 | `date - timedelta(1)` is defined on every date except 0001-01-01, is never the last representable date, and is undone by the next-day function |
| Dates.PrevDayUndoesNextDay | konwerter.py:33 | going one day forward and then one day back returns the original date |
| Dates.PrevDayExamples | konwerter.py:33 | the previous day across a leap February, a century non-leap year, a 400-year leap year, a year boundary, and the date of the recorded check |
| Dates.DaysInMonth | konwerter.py:33 | month lengths are 28 to 31 days, and 29 exactly for February of a leap year; the exact length of each month is fixed by `Dates.MonthsFillYear` |
| Dates.MonthsFillYear | konwerter.py:33 | the days before the first of each month, in closed form, so that every month has its Gregorian length |
| Dates.OrdinalPrevDay | konwerter.py:33 | stepping back one day lowers `toordinal()` by exactly one, across month and year ends |
| Dates.OrdinalOne | konwerter.py:33 | 0001-01-01 is the only date with ordinal 1, so it is the only date on which the decrement overflows |
| Dates.Back | konwerter.py:27-33 | `k` decrements from `d` give the date whose ordinal is `k` less |
| Dates.BackStep | konwerter.py:27-33 | one more pass of the loop goes to the previous day of the date reached so far |
| Dates.BackToMinDate | konwerter.py:27-33 | after one pass fewer than the date's ordinal, the loop has reached 0001-01-01 |
| Rates.Walk | konwerter.py:16-38 | the specification of `get_rate` as a recursion over the days; what it returns is characterised by `Rates.WalkFirstAnswer` with `Rates.WalkSuccessHasAnswer`, and by `Rates.WalkFirstFailure` with `Rates.WalkFailureHasCause` |
| Rates.GetRate | konwerter.py:16-38 | the loop with `status` and `date` reassigned on every pass returns exactly what the backward walk specifies, including its three failure paths (see `Rates.WalkFirstFailure`) |
| Rates.WalkSkipsRefusals | konwerter.py:26-34 | after `k` days that answered with a status other than 200, the lookup continues exactly as if it had started on the `k`-th day back |
| Rates.WalkFirstAnswer | konwerter.py:26-38 | if the first day back that answers 200 carries one record, the lookup returns that record's rate with the day before that day |
| Rates.WalkSuccessHasAnswer | konwerter.py:26-38 | conversely, every returned rate comes from the first 200 answer with one record on or before the queried day, every day between refused, and the reported date is one day before the answering day and before the queried day |
| Rates.WalkAnswerOneBack | konwerter.py:27-33 | an answer found from the previous day is the answer seen from a day that refuses |
| Rates.WalkFirstFailure | konwerter.py:26-38 | after `k` refusals, the `k`-th day back decides the error: a request that raises gives "service unreachable" for that day, with no retry; 0001-01-01 gives the date underflow; a 200 reply without exactly one record gives the record count the assertion at line 36 rejects |
| Rates.WalkFailureHasCause | konwerter.py:26-38 | conversely, every error the lookup returns comes from the first day back that does not refuse, in one of those three ways |
| Rates.WalkFailureOneBack | konwerter.py:27-33 | a failure found from the previous day is the failure seen from a day that refuses |
| Rates.WalkRefusedToMinDate | konwerter.py:27-33 | when every day refuses down to 0001-01-01 and that day answers, the lookup fails with the date underflow |
| Rates.RecordedScenarios | konwerter.py:45-56 | against the replies the three checks assume, the rates come out as 3.8734, 3.8385 and 3.9444, but the Sunday query reports day 8 where the check expects day 9 |
| Income.IsAllowed | konwerter.py:83 | the allowlist test; `Income.AllowedIsListed` proves it is membership in `available_currencies` |
| Income.Member | konwerter.py:83 | `available_currencies.count(c) != 0` computed one element at a time; `Income.MemberIff` proves it is list membership |
| Income.MemberIff | konwerter.py:83 | `available_currencies.count(c) != 0` holds exactly when `c` is in the list |
| Income.AllowedIsListed | konwerter.py:11-13 | a code is allowed exactly when it appears in `available_currencies` |
| Income.AllowedAreCodes | konwerter.py:11-13 | every allowed code is three upper-case letters |
| Income.CurrenciesDistinct | konwerter.py:11-13 | the allowlist has 22 entries, with no code listed twice |
| Income.Letters | konwerter.py:79 | the token keeps only the letters of the amount line |
| Income.NonLetters | konwerter.py:90 | the text given to `float` holds no letter |
| Income.FiltersSplit | konwerter.py:79-90 | both filters distribute over concatenation, so they keep the line's order |
| Income.FiltersPartition | konwerter.py:79-90 | together the token and the amount text hold exactly the characters of the line |
| Income.LettersOnly | konwerter.py:79-81 | a line made of letters only is all token and leaves no amount text |
| Income.TokenOfConcatenated | konwerter.py:79-90 | `100USD` splits into the token `USD` and the amount text `100` |
| Income.LowerCaseCodeRejected | konwerter.py:79-86 | `100usd` yields the token `usd`, which is not allowed |
| Income.ExponentTakenForCode | konwerter.py:79-86 | in `1e3` the exponent letter becomes the token `e`, which is not allowed |
| Income.IsQuit | konwerter.py:66-77 | `s.lower() == 'x'` on ASCII bytes; `Income.QuitIff` proves it holds exactly for `x` and `X` |
| Income.QuitIff | konwerter.py:66-77 | a line is the sentinel exactly when it is `x` or `X` |
| Income.InitialLedger | konwerter.py:60-61 | the run starts with a zero total for each allowed currency and the default `USD` |
| Income.InitialReport | konwerter.py:60-103 | quitting before any entry reports a zero grand total and lists no currency |
| Income.Credit | konwerter.py:99 | an added entry raises its own currency's total by `rate * amount`, leaves every other total alone and keeps the set of currencies |
| Income.CreditsCommute | konwerter.py:99 | two credits give the same totals in either order |
| Income.ChargedCurrency | konwerter.py:79-87 | a line without letters is charged to the default; a line with letters is charged to its token, and is rejected exactly when the token is not allowed; the charged currency is always allowed |
| Income.DefaultCurrencyUsed | konwerter.py:79-87 | an amount line without letters is charged to the default currency and leaves the default as it was |
| Income.EntryStep | konwerter.py:79-99 | an unknown token changes nothing; otherwise the default becomes the charged currency; the amount is rejected exactly when `float` fails; a date that cannot be decremented or a failed lookup comes after a parsed amount and changes no total; a known currency, a parsed amount, a decrementable date and a found rate make the entry added; an added entry used the amount `float` read and the rate found from the day before the income date; the ledger invariant is kept |
| Income.Record | konwerter.py:79-99 | the statements of one entry compute exactly the new totals, default and outcome the entry specification gives |
| Income.RateFromBeforeIncomeDate | konwerter.py:91 | the rate of an added entry was answered for a day strictly before the income date, and the reported date is at least two days before it |
| Income.EntryMovesTotal | konwerter.py:63-99 | an entry raises the running total by exactly `rate * amount` when added and leaves it alone otherwise |
| Income.OutcomeIgnoresLedger | konwerter.py:79-91 | with an explicit currency token, what becomes of an entry does not depend on earlier entries |
| Income.EntriesCommute | konwerter.py:79-99 | two entries with explicit currencies give the same totals in either order |
| Income.Session | konwerter.py:59-103 | the loop keeps one total per allowed currency and an allowed default; a finished run reports on its final totals; input ending at the date prompt ends the run without a report |
| Income.SessionSteps | konwerter.py:62-99 | one pass of the loop: `x` at the date prompt ends the run with the current totals; an unreadable date and `x` at the amount prompt go back to the date prompt with nothing changed; any other amount line is one entry applied to the ledger; input ending at the amount prompt ends the run without a report |
| Income.Run | konwerter.py:59-103 | the prompt loop, with its locals updated in place, ends exactly as the session specification says |
| Income.Total | konwerter.py:100 | `sum(income_pln.values())`, one term per allowed currency; `Income.EntryMovesTotal`, `Income.InitialReport` and `Income.GrandTotalIncludesOmitted` state its properties |
| Income.ReportOf | konwerter.py:100-103 | the final report as a value; `Income.FinalReport` computes it and `Income.GrandTotalIncludesOmitted` states what it lists |
| Income.FinalReport | konwerter.py:100-103 | the loop over the totals, in any order, lists exactly the currencies whose total exceeds 0.001 in absolute value, with those totals |
| Income.GrandTotalIncludesOmitted | konwerter.py:100-103 | the grand total is the sum of the listed and the omitted totals, and a currency is listed exactly when its total exceeds the threshold |

## Left out

- The HTTP request, the URL format and JSON decoding: the reply is an oracle. The model does not check what `rates` holds beyond its count and the `mid` of its one record.
- A 200 reply whose body does not decode: `json.loads` raising ValueError (`konwerter.py:35`), or a missing `rates` or `mid` key raising KeyError (`konwerter.py:36-38`). `main` would catch it and skip the entry. `Reply` has no form for such a reply, so this error path of `get_rate` is not modelled.
- `dateparser.parse` and `float`: these are oracles, so the formats they accept are not modelled. Dates carry no time of day.
- Floating point: amounts, rates and totals are reals. Rounding, `nan` and `inf` are not modelled, and neither is the order in which `sum` adds the totals.
- The `%d` conversion of the amount in the "added" message: it runs outside the `try`, so on an infinite amount `main` would crash. That path is not modelled.
- Console output: the prompts, the messages, the running total printed before each prompt, and `format_date`. The report is modelled as a value, not as printed text.
- `print_rate_info`: it does nothing.
- The order of `dict.iteritems()`: `FinalReport` takes the keys in an arbitrary order and the report is a map.
- `status is not 200` compares identity. The model compares values, which CPython gives for small integers such as HTTP statuses.
- The `assert` on the record count: it is modelled as an error result. Running Python with assertions disabled (`-O`) is not modelled.
- Changing collaborators: the oracles are fixed functions of their inputs. The rate service gives the same reply to the same currency and date at every request of a run, so a transient network failure never clears up on a later request. `dateparser.parse` does not depend on the clock, so a relative date such as "yesterday" never moves. `Income.EntriesCommute` and `Income.OutcomeIgnoresLedger` rely on this.
- End of input: `raw_input` raises EOFError and `main` ends without a report. This is modelled as `InputEnded`.
- `Income.Session`: its own contract states the invariant, the report and end of input at the date prompt; every other pass of the loop is stated by `Income.SessionSteps`, with the entry itself in `Income.EntryStep`.
