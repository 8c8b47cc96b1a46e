# Transaction dashboard core, modelled in Dafny

This project models the aggregation and query engine of a small personal-finance dashboard
that reads a bank's operations table. It covers:

- the month-to-date filter;
- the time-of-day greeting;
- the per-card spending and cashback summary;
- the top five operations by size;
- the 90-day spending total of one category;
- the case-insensitive text search;
- the dashboard assembly, and the loop and error policy of the exchange-rate and stock-price
  lookups.

Every external exchange is replaced by a value the caller passes in: each HTTP reply, the
current hour, the API keys and the operations table.

Modules, one file each:

| module | contents |
|---|---|
| `Wrappers` | `Option` and `Result` |
| `Seqs` | an order-preserving `Filter` (the element-wise choice a pandas boolean mask makes) and its laws |
| `Text` | `str.strip`, `str.lower` (ASCII and Cyrillic), `in` on strings, and code-point order on strings |
| `Calendar` | proleptic Gregorian dates with a second of the day, `datetime` comparison, the day count, and `timedelta(days=n)` subtraction with its lower overflow bound |
| `DateText` | `strftime` for `%Y-%m-%d`, `%Y-%m-%d %H:%M:%S` and `%d.%m.%Y`; `strptime` for the first two, with CPython's leniency (one- or two-digit fields, a blank matching any run of whitespace), plus the round trip |
| `Ledger` | one transaction row (`Txn`), and the `Frame` class. A `Frame` stands for the DataFrame that the search and the report change in place. |
| `Utils` | `filter_data_by_date`, `get_greeting`, `calculate_card_data`, `top_five_transact` |
| `Reports` | `spending_by_category` |
| `Services` | `search_transactions` |
| `Views` | `get_currency_rates`, `get_stock_prices`, `get_dashboard_data` |

## Units and representation

Amounts are integers in kopecks (hundredths of a rouble); negative means money out.

- A card's `totalSpent` is in kopecks, so it is the source's rounded rouble figure.
- `cashback` is a real number: total / 100, in kopecks.
- `total_spending` of the category report is `int()` of the rouble sum. That is the kopeck sum
  divided by 100 and truncated toward zero (`WholeUnits`).

A date is a `Timestamp(year, month, day, second of the day)`. An unreadable date (pandas `NaT`)
is `None`.

## Choices the model makes

- **Category total.** `int()` truncates toward zero (src/reports.py:54). A sum of -500.50
  roubles is therefore reported as -500 (`Reports.TruncatesTowardZero`).
- **Cashback.** Cashback is the total divided with `/` (src/utils.py:120). That is true
  division, and the model proves `cashback * 100 == total`.
- **Order of card summaries.** The loop iterates `groupby` (src/utils.py:112), which visits
  the card numbers in sorted code-point order. `Utils.CardReportSpec` proves that order.
- **Start of the month-to-date window.** `replace(day=1)` keeps the time of day
  (src/utils.py:73). The window therefore starts on day 1 at the target's own time of day, not
  at midnight (`Utils.WindowStartKeepsTimeOfDay`).
- **Failed requests.** Any failing currency request aborts `get_currency_rates` and drops the
  rates gathered so far (src/views.py:42-57). A failing stock request is only skipped
  (src/views.py:83-100).

## Model

| member | source | states |
|---|---|---|
| Utils.FilterByDate | src/utils.py:73-75 | the slice keeps exactly the rows dated between the 1st of the target's month (target's time of day) and the target, both ends included, each as often as in the input, in input order; `NaT` rows never pass |
| Utils.FilteredRowsDated | src/utils.py:75 | every row of the month-to-date slice has a date and lies inside the window |
| Utils.WindowStartKeepsTimeOfDay | src/utils.py:73 | a row on day 1 is kept exactly when its time of day is at or after the target's |
| Utils.MonthToDateSpan | src/utils.py:73-75 | in seconds, the window is `[target - (day-1) days, target]` |
| Utils.FilterByDateExample | tests/test_views.py:18-23 | rows on 2024-01-05, 2024-01-15 and 2024-01-20, filtered at 2024-01-15, give the first two |
| Utils.GreetingBuckets | src/utils.py:86-95 | the hours 0–11, 12–17, 18–21 and 22–23 get "Доброе утро", "Добрый день", "Добрый вечер" and "Доброй ночи", each bucket exactly its hours |
| Utils.CalculateCardData | src/utils.py:109-129 | the loop over groups returns `CardReport` of its input: one summary per group, in group order |
| Utils.CardReportSpec | src/utils.py:109-112 | the summaries are keyed by the distinct card numbers of the rows with a card and status "OK", strictly increasing, one for each such number |
| Utils.SummaryFacts | src/utils.py:114-126 | last digits are the card's last four characters; total spent is minus the sum of the group's negative amounts and is never negative; cashback is never negative and is exactly a hundredth of the total |
| Utils.SummaryAppend | src/utils.py:109-114 | a new row raises one card's total only when it is an "OK" expense on that card, and then by its size; income, other cards and other statuses change nothing |
| Utils.CardReportExample | src/utils.py:109-127 | two "OK" expenses of 100 and 200 roubles on card 1234567890123456 give one summary: "3456", 300 roubles, cashback 3 roubles |
| Utils.GroupKeysSpec | src/utils.py:112 | the group order is strictly increasing and holds exactly the card numbers present |
| Utils.RankByMagnitude | src/utils.py:134 | picks min(5, n) distinct rows in non-increasing order of absolute amount, and every row left out is no larger than every row kept |
| Utils.TopFiveTransact | src/utils.py:132-144 | the entries are those rows in that order, with date as "%d.%m.%Y" and the signed amount, category and description; a picked row without a date makes the call fail as `NaT.strftime` does; with all rows dated it succeeds with min(5, n) entries |
| Reports.SpendingByCategory | src/reports.py:32-61 | returns `SpendingReport` of the frame's rows; the frame keeps its rows, and its date column is datetime again after a successful call |
| Reports.ReparseDates | src/reports.py:44 | converting a text date column back to datetime restores every row's date exactly, and a missing date stays missing |
| Reports.SpendingReportSpec | src/reports.py:38-61 | fails exactly when the date is not `%Y-%m-%d` text of a valid day, or lies fewer than 90 days after 0001-01-01 (`timedelta` overflow); otherwise the window ends at midnight of the date, the category is echoed and the total is the window's sum truncated to whole roubles |
| Reports.SpendWindowSpan | src/reports.py:41-51 | a row counts exactly when its category is the given one and its date lies between 90 days before the end and the end, both included; with the end at midnight, later rows on the end day itself are outside |
| Reports.WindowTotalAppend | src/reports.py:47-54 | a further row adds its amount to the total exactly when it is in the category and the window |
| Reports.NoMatchIsZero | src/reports.py:54 | with no row of the category the total is 0, not an error |
| Reports.WholeUnits | src/reports.py:54 | `int()` of a kopeck sum is the whole-rouble part toward zero: the remainder lies within one rouble of zero |
| Reports.SpendingExample | tests/test_reports.py:9-18 | "Фастфуд" expenses of 500 and 200 roubles on 2024-01-01 and 2024-02-01, queried on 2024-02-01, total -700 |
| Calendar.MinusDaysExact | src/reports.py:41 | subtracting n days succeeds exactly when the result stays on or after 0001-01-01; it keeps the time of day and moves back exactly n·86400 seconds |
| Calendar.OrderMatchesOrdinal | src/utils.py:75 | `datetime` comparison agrees with comparing the count of seconds since 0001-01-01 |
| DateText.ParseRenderDate | src/reports.py:38 | `strptime("%Y-%m-%d")` reads back every rendered date, at midnight |
| DateText.ParseRenderDateTime | src/views.py:108 | `strptime("%Y-%m-%d %H:%M:%S")` reads back every rendered timestamp exactly |
| Services.SearchTransactions | src/services.py:14-31 | the frame's description and category are stripped in place and its date column becomes text; the result is `SearchResult` of the original rows |
| Services.SearchSpec | src/services.py:25-27 | the result is a subsequence of the stripped records in input order, keeping exactly the records that match, each as often as in the input |
| Services.MatchRule | src/services.py:14-26 | a row matches exactly when the lower-cased query starts at some position of the stripped, lower-cased description or category |
| Services.EmptyQueryListsAll | src/services.py:26 | the empty query lists every row |
| Services.CaseInsensitive | src/services.py:14 | lower-casing the query first changes nothing |
| Services.ListedRowsStripped | src/services.py:17-18 | every listed record carries a stripped description and category |
| Services.SearchAgain | src/services.py:17-18 | stripping is idempotent, so a second search over the frame the first left behind lists the same records |
| Services.SameWordFound | src/services.py:14-26 | a row whose stripped description equals the query up to case is listed |
| Services.NothingFound | src/services.py:25-27 | a query found in no row lists nothing |
| Services.FoundExample | tests/test_services.py:9-19 | "супермаркеты" finds the row described "Супермаркеты" |
| Text.TrimSlice | src/services.py:17-18 | `strip` removes exactly the leading and trailing whitespace: the result is a slice of the input, first and last characters not whitespace, nothing outside it but whitespace |
| Text.ContainsAt | src/services.py:26 | `q in s` holds exactly when `q` occurs at some position of `s` |
| Text.StrLessTotal | src/utils.py:112 | the order `groupby` sorts card numbers by relates any two distinct strings |
| Views.FirstAbort | src/views.py:26-57 | the position of the first reply that aborts the loop: every earlier reply does not abort |
| Views.GetCurrencyRates | src/views.py:22-59 | the loop with its early returns yields `CurrencyRates` of the replies |
| Views.CurrencyRatesSpec | src/views.py:42-57 | the call fails exactly when some reply is an exception or lacks `rates`, and the message is the first such reply's |
| Views.RatesOfKept | src/views.py:46-51 | the rates are the currencies whose RUB rate is present and non-zero, each with that rate, in user-list order |
| Views.GetStockPrices | src/views.py:62-102 | fails with "API key is missing" exactly when the key is unset; otherwise the loop yields `PricesOf` of the replies |
| Views.PricesOfPriced | src/views.py:83-93 | the prices are the stocks whose request succeeded with data, each with its first close, in user-list order |
| Views.SkipsUnpriced | src/views.py:83-100 | a stock whose request fails or brings no data is skipped and the stocks on either side are priced as without it |
| Views.GetDashboardData | src/views.py:105-127 | fails exactly when a text date is not "%Y-%m-%d %H:%M:%S"; otherwise the snapshot has the greeting of the hour and the card summaries and top five of the same month-to-date slice; the rates are `[]` when some currency request aborts and otherwise the rates of every reply that has a RUB rate, in order; the prices are `[]` when the API key is missing and otherwise the closing price of every symbol that has one, in order |
| Views.DateOnlyRefused | src/views.py:106-110 | "2021-12-20", without a time, is refused |
| Views.FullDateRead | src/views.py:106-108 | "2021-12-20 17:00:00" is read as 17:00 on that day |

## Left out

- Reading the Excel file and `load_operations_data` are not part of this model. This includes `pd.to_datetime(dayfirst=True)` and `pd.to_numeric`. The table arrives already typed, and an unreadable date is `None`.
- Logging, `print`, `json.dumps` text, the report file written by `report_decorator`, `load_dotenv`, reading `user_settings.json`, and the module-level `API_KEY` check are I/O and are left out.
- Every HTTP request becomes the reply it produced, one per user-list entry, in list order.
- The clock becomes a parameter: the current hour for the greeting. `spending_by_category`'s default date is `date=None`, which reads today; the model always takes the date text.
- Floating point is left out. Amounts are exact kopecks, so `round(x, 2)` is not modelled, and neither are NaN amounts.
- Utils.SummaryFacts: cashback is an exact real, not a float rounded to two digits.
- Only the columns the core reads are kept. The payment date and the other numeric columns are dropped.
- `astype(str)` turning a missing description or category into "nan" is not modelled. These fields are always strings.
- Utils.RankByMagnitude: the order among rows of equal magnitude is left open, because the default `sort_values` is not stable.
- `str.lower` is modelled for ASCII and the Cyrillic capitals U+0400–U+042F only; other letters are left unchanged.
- `strptime` accepts only ASCII digits, and only `str.isspace` characters for the format's blank. Python would also accept other Unicode decimal digits.
- Utils.GreetingBuckets: the hour comes in as an integer 0..23; the clock read is not modelled.
- Reports.ReparseDates: `pd.to_datetime` on the text column is modelled by the `strptime` reading of the rendered text, which is the only text that column can hold here.
- Sub-second precision of timestamps is dropped: seconds are whole.
- `Ledger.Frame` holds the modelled rows and whether the operation-date column is text. The payment-date column, which the search also turns into text (src/services.py:21-22), is not modelled. Aliasing between frames is not modelled.
