# fund-tracker2: a Dafny model of the fetch, aggregation and bookkeeping logic of `fund_app.py`

`fund_app.py` is a Streamlit page that tracks a user's fund holdings. This
project models the parts of it that compute something:

- **Fetching a quote** (`fetch_fund_data`). The fund code is reduced to its
  digits, and an empty result means no data. The primary source (fundgz,
  a `jsonpgz(...)` payload) is asked first. If it gives nothing, the page
  falls back to the Sina quote line. From that line it takes the first
  double-quoted record and splits it on `,`. Field 0 is the name, field 1
  the current value, field 3 the previous value and field 4 the date. A
  current value of 0 is replaced by the previous value, and
  `rate = (curr - last) / last * 100`. Every failure gives "no data"
  (`None`). Each source puts a fixed label on its quote: "今日估值" for the
  primary and "当日净值" for the fallback.
- **Aggregating the portfolio**: one pass over the holdings, one fetch
  each. Holdings whose fetch fails are skipped. The others add
  `shares * curr` to the market-value total and
  `day_p = shares * (curr - last)` to the day's profit total, and they
  append a result card.
- **Maintaining holdings**: saving a code replaces every holding that has
  that code and appends the new holding. Deleting a code removes every
  holding with that code.
- **Creating an account**: a non-empty name not yet present is appended
  to the user list and becomes the current user.

Modules:

- `TextScan` (`text_scan.dfy`): the regular-expression steps, written as
  plain string functions. These are the digit filter, the leftmost match
  of `"([^"]+)"`, and Python's `str.split` together with its inverse
  `Join`.
- `FundFetch` (`fund_fetch.dfy`): the quote record, the fallback parser and
  `fetch_fund_data`.
- `Holdings` (`holdings.dfy`): the holding record, delete-by-code and
  save-by-code as functions, and the `Database` class whose methods change
  `db["holdings"]` in place.
- `Portfolio` (`portfolio.dfy`): the aggregation loop as a method. It is
  proved against recursive specification functions, and lemmas about
  those functions follow.
- `Accounts` (`accounts.dfy`): the `Config` class and account creation.
- `Wrappers` (`wrappers.dfy`): `Option`.

The outside world enters as function parameters:

- the primary source: `code -> Option<GzRecord>`, which stands for the
  HTTP request, `json.loads` and the `float` conversions of lines 37-50;
- the Sina request: `code -> Option<string>`, the decoded response line;
- Python's `float()`: `string -> Option<real>`;
- the per-holding fetch used by the aggregation: `code -> Option<Quote>`.

All numbers are exact reals.

Where a natural reading of the app differs from its code, the model follows
the code:

- A previous value of 0 does not give a change of 0. Line 66 divides by
  it, the `ZeroDivisionError` is swallowed at line 69, and the fetch gives
  no data (`ZeroLastIsNoData`).
- The label of a quote ("今日估值" or "当日净值") is fixed by the source
  that answered. It does not depend on the time of day; `now` at line 47
  is computed and never used.

## Model

| member | source | states |
|---|---|---|
| TextScan.Digits | fund_app.py:32 | the sanitised code holds only digits, no more characters than the input, and exactly the digit characters of the input |
| TextScan.DigitsAppend | fund_app.py:32 | deleting non-digits works character by character: it distributes over concatenation, so the digits keep their original order |
| TextScan.DigitsOfDigits | fund_app.py:32 | a code made only of digits is left unchanged |
| TextScan.DigitsIdempotent | fund_app.py:32 | sanitising twice is sanitising once |
| TextScan.DigitsEmpty | fund_app.py:32-33 | the sanitised code is empty exactly when the input has no digit |
| TextScan.FindQuotedFrom | fund_app.py:61 | the span found is a quote, at least one non-quote, then a quote; no such span starts earlier; None means there is no such span at all |
| TextScan.FirstQuoted | fund_app.py:61 | the captured group is non-empty and quote-free, and there is no match when None is returned |
| TextScan.Split | fund_app.py:61 | str.split(',') gives at least one field, and no field contains the separator |
| TextScan.JoinSplit | fund_app.py:61 | joining the fields of a split with the separator gives the original record back |
| TextScan.SplitJoin | fund_app.py:61 | splitting a join of separator-free fields gives the fields back |
| FundFetch.ChangePercent | fund_app.py:66 | the rate is the percentage that takes last to curr (last * (1 + rate/100) == curr); with a positive last it is non-negative exactly when curr >= last |
| FundFetch.QuoteOfFields | fund_app.py:62-68 | a quote read from record fields is labelled "当日净值", has a non-zero previous value, and has a rate consistent with curr and last |
| FundFetch.ParseSinaLine | fund_app.py:56-69 | a line without a quoted record gives no data |
| FundFetch.ParseSinaLineSucceeds | fund_app.py:61-69 | the parse succeeds exactly when there is a quoted record of at least 5 fields whose fields 1 and 3 are numbers and field 3 is non-zero; then name = field 0, last = field 3, date = field 4, and curr = field 1, or last when field 1 is 0 |
| FundFetch.ShortRecordIsNoData | fund_app.py:61-69 | a record with fewer than five fields gives no data |
| FundFetch.NonNumericIsNoData | fund_app.py:62 | a non-numeric field 1 or field 3 gives no data |
| FundFetch.ZeroLastIsNoData | fund_app.py:66-69 | a previous value of 0 gives no data (the division raises and is swallowed) |
| FundFetch.ZeroCurrentMeansNoChange | fund_app.py:63-66 | a current value of 0 is replaced by the previous one, so the rate is 0 |
| FundFetch.FirstQuotedOf | fund_app.py:61 | with no quote before it, the first quoted part of the line is the group found |
| FundFetch.QuoteOfFiveFields | fund_app.py:62-68 | fields with a numeric field 1 and a numeric non-zero field 3 give name = field 0, last = field 3, date = field 4, curr = field 1 (or last when it is 0) and rate = (curr - last) / last * 100 |
| FundFetch.SinaLineFields | fund_app.py:61 | the fields read from a line are exactly those joined into its first quoted record, whenever that record is non-empty (an empty name field included) |
| FundFetch.ParseSinaRecord | fund_app.py:61-68 | a line whose first quoted part joins at least five fields, any of them possibly empty, parses to the quote those fields describe |
| FundFetch.FetchFundData | fund_app.py:31-69 | a code without digits gives no data; a fallback quote always has a non-zero previous value |
| FundFetch.FetchSeesOnlyDigits | fund_app.py:32-33 | the fetch depends only on the digits of the code |
| FundFetch.FetchPrefersPrimary | fund_app.py:36-69 | the primary source's answer is returned, labelled "今日估值", whenever it gives one; otherwise the result is the fallback parse of the Sina line, or no data when there is no line |
| Holdings.WithoutCode | fund_app.py:177 | no holding with the code is left, and every other holding is kept as often as it occurred |
| Holdings.WithoutCodeKeepsOrder | fund_app.py:177 | the kept holdings keep their original relative order |
| Holdings.WithoutCodeAppend | fund_app.py:177 | filtering distributes over concatenation |
| Holdings.WithoutAbsentCode | fund_app.py:177 | deleting a code no holding has changes nothing |
| Holdings.WithoutCodeIdempotent | fund_app.py:177 | deleting twice is deleting once |
| Holdings.WithoutCodeKeepsUnique | fund_app.py:177 | deleting keeps codes unique |
| Holdings.Upserted | fund_app.py:166-167 | after saving, the new holding is last, no other holding has its code, and every holding with another code is kept as often as it occurred |
| Holdings.UpsertedKeepsOrder | fund_app.py:166-167 | the other holdings keep their original relative order, ahead of the saved one |
| Holdings.UpsertedKeepsUnique | fund_app.py:166-167 | saving keeps codes unique |
| Holdings.UpsertIdempotent | fund_app.py:166-167 | saving the same holding twice is saving it once |
| Holdings.RemoveAfterUpsert | fund_app.py:166-177 | deleting a code just saved gives the same list as deleting it before the save |
| Holdings.Database.constructor | fund_app.py:105 | the holdings are the list as loaded |
| Holdings.Database.SaveHolding | fund_app.py:164-168 | saves only a non-empty code with positive shares; the new list is the upsert of the old one; unique codes stay unique |
| Holdings.Database.RemoveHolding | fund_app.py:177 | the new list is the old one without the target code; unique codes stay unique |
| Portfolio.Aggregate | fund_app.py:114-125 | the loop's result list and its two totals are the cards, market value and day's profit of the specification functions |
| Portfolio.FetchedContents | fund_app.py:118-120 | the fetched holdings are exactly those whose fetch gave a quote, each kept as often as it occurs |
| Portfolio.EntriesMatchFetched | fund_app.py:118-125 | card i belongs to the i-th fetched holding and carries its quote and day_p = shares * (curr - last) |
| Portfolio.FetchedKeepsOrder | fund_app.py:118-125 | the fetched holdings keep their holdings order |
| Portfolio.FetchedAppend | fund_app.py:118-125 | over a concatenation, the fetched holdings are those of each part, in turn |
| Portfolio.EntriesAppend | fund_app.py:118-125 | over a concatenation, the cards are those of each part, in turn |
| Portfolio.MarketValueAppend | fund_app.py:114-123 | over a concatenation, the market value is the sum of the parts' values |
| Portfolio.DailyProfitAppend | fund_app.py:114-124 | over a concatenation, the day's profit is the sum of the parts' profits |
| Portfolio.SkipFailed | fund_app.py:119-125 | a holding whose fetch fails adds no card and nothing to either total |
| Portfolio.TotalsOverFetchedOnly | fund_app.py:114-125 | the totals and the cards over all holdings equal those over the fetched holdings alone |
| Portfolio.DailyProfitIsSumOfCards | fund_app.py:122-125 | the day's profit total is the sum of the day_p shown on the cards |
| Portfolio.NoCardsNoTotals | fund_app.py:114-127 | with no card to show, both totals are 0 |
| Accounts.AppendNewKeepsDistinct | fund_app.py:99-100 | appending a name not yet present keeps the user names distinct |
| Accounts.Config.constructor | fund_app.py:87 | the default configuration has the single user "Default", who is current |
| Accounts.Config.Loaded | fund_app.py:87 | the configuration is the one loaded from an existing file, unchanged |
| Accounts.Config.CreateAccount | fund_app.py:98-100 | creates exactly when the name is non-empty and new; then appends it and makes it current, otherwise changes nothing; distinct names and a current name among them are kept |

## Left out

- HTTP requests, URLs, headers, the TLS context and timeouts (lines 13, 37-40, 57-60) are network I/O. The two requests are function parameters.
- `json.loads` and the `jsonpgz(...)` regular expression of the primary source (lines 42-50) are a foreign library call. The primary source is an opaque `code -> Option<GzRecord>`, whose None covers a failed request, no match and bad JSON alike.
- Byte decoding (utf-8 and gbk) is left out. The Sina response enters as an already decoded string.
- TextScan.Digits: keeps only ASCII '0'-'9'. Python's `\D` on `str` also keeps other Unicode decimal digits, which the model does not.
- Python's `float()` is an opaque parser. Non-finite values (`"nan"`, `"inf"`) are not modelled, because `real` has none.
- Floating-point rounding is left out. All sums and products are exact reals.
- File persistence (`get_db_path`, `save_json`, `load_json`, lines 72-84, 87, 94, 101, 105, 169, 178) is filesystem I/O. `Database` starts from the loaded holdings; `Config` starts either from the default of line 87 or from a loaded configuration.
- The Streamlit UI is display only and is left out. This covers the page config, the CSS, the widgets, the forms, the HTML cards, number formatting, the up/down colour class, and the empty-holdings warning (lines 111-112).
- Switching the current user (lines 91-95) is a UI selection and is not modelled.
- The clock and timezone (lines 11, 37, 47) are left out. Their values are never used in what is returned.
- `time.sleep(1)` at line 171 is not modelled. `time` is never imported, so the line raises `NameError` after the holding has already been saved. This is a runtime defect outside the computed state.
- Repeated fetches of the same code are assumed to agree, because the fetch is a function parameter. Upstream data changing between requests is not modelled.
