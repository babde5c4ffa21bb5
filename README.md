# Trades, status and credit backend — a Dafny model

The backend holds three in-memory tables, loaded from CSV files:

- `TRADES`: the trades of each client.
- `CLIENT_STATUS`: five status fields per client.
- `CREDIT_LINES`: approved amount, used amount and utilisation percentage for the Spot, Fwd and Derivados lines.

It answers these queries over the tables:

- the client's five latest trades;
- the client's status with a traffic light per field;
- the client's credit lines with a traffic light per line;
- statistics over the loaded data;
- the document file of a trade.

The model keeps that shape:

- `Backend.TradesApi` is a class whose three `seq` fields are the tables. Its loader methods replace a table and its query methods read them. Each method is proved against a specification function.
- The helpers (`safe_get`, `status_to_emoji`, `credit_percentage_to_emoji`, `parse_date`) become functions, with lemmas about them.

| file | module | what it holds |
|---|---|---|
| `text.dfy` | `Text` | `str.strip()` and `str.lower()` (ASCII), decimal digits, splitting on a character |
| `fields.dfy` | `Fields` | a CSV row as a map from header to cell; `safe_get` |
| `dates.dfy` | `Dates` | `datetime.strptime(s, '%d/%m/%Y')` with `datetime.min` as fallback; formatting a date back |
| `classify.dfy` | `Classify` | the four lights; status text and credit percentage to light; Python's `float()` on strings; the two summary lines |
| `stable_sort.dfy` | `StableSort` | a stable descending sort by an integer key (`sort(..., reverse=True)`), and taking a prefix |
| `counting.dfy` | `Counting` | counting values in a dict: distinct values in first-appearance order with their counts |
| `loading.dfy` | `Loading` | a CSV source (missing, unreadable, or rows) and the row loop shared by the loaders |
| `records.dfy` | `Records` | the three record kinds, their extraction from a row, which rows are kept, the sample data |
| `queries.dfy` | `Queries` | the trades, status and credit queries as functions of the tables |
| `stats.dfy` | `Stats` | the statistics as a function of the tables |
| `documents.dfy` | `Documents` | the document lookup over an abstract file system |
| `backend.dfy` | `Backend` | the class holding the tables, its loaders, reload and query methods |

Some terms used below:

- A *light* is one of green, amber, red or white. These are the glyphs U+1F7E2, U+1F7E1, U+1F534 and U+26AA.
- A date string sorts by a *date key*: its parsed date, or `datetime.min` (01/01/0001) when it does not parse.
- A *tally* of a list of strings is what the source's dict counting produces. It is each distinct value once, in first-appearance order, with its number of occurrences.

## Model

| member | source | states |
|---|---|---|
| Fields.SafeGet | test_claude/trades_api.py:46-51 | a missing key gives the stripped default; a null or empty cell gives the default unchanged; any other cell gives its text stripped of surrounding whitespace |
| Fields.SafeGetEmptyIff | test_claude/trades_api.py:46-51 | with default "" the result is empty exactly when the key is missing, the cell is null, or the cell is all whitespace |
| Fields.SafeGetFallsBackToDefault | test_claude/trades_api.py:48-51 | a missing, null or empty cell yields the default itself when the default has no surrounding whitespace |
| Fields.SafeGetWhitespaceIsEmpty | test_claude/trades_api.py:51 | a non-empty all-whitespace cell yields "" and not the default |
| Fields.SafeGetTrimmed | test_claude/trades_api.py:51 | the result never starts or ends with whitespace when the default does not |
| Text.StripEmptyIffAllSpace | test_claude/trades_api.py:51 | `strip()` leaves nothing exactly when the text is all whitespace |
| Text.StripIdempotent | test_claude/trades_api.py:51 | stripping twice is stripping once |
| Classify.LightOfGlyph | test_claude/trades_api.py:53-76 | the four glyphs are distinct: a glyph decodes to a light exactly when it is that light's glyph |
| Classify.StatusLightTable | test_claude/trades_api.py:53-63 | green exactly for the case variants of "ok", amber for "en curso", red for "nok", white for everything else |
| Classify.StatusLightExamples | test_claude/trades_api.py:53-63 | "OK", "Ok", "ok" are green; "En Curso", "EN CURSO" amber; "NOK", "nok" red; "Unknown" and "" white |
| Classify.StatusLineRoundTrip | test_claude/trades_api.py:391 | the status line carries the five lights, KYC, Onboarding, CCG, Contract, Client, at fixed places, each followed by its field's label, and the lights can be read back |
| Classify.ParseFloatDigits | test_claude/trades_api.py:68 | `float()` of a run of decimal digits is the number they spell |
| Classify.ParseFloatDecimal | test_claude/trades_api.py:68 | `float()` of the decimal text of a whole number gives that number back |
| Classify.CreditLightTable | test_claude/trades_api.py:65-76 | white exactly when `float()` raises; red exactly at 100 or more or +inf; amber exactly from 80 below 100; green exactly below 80, -inf or NaN |
| Classify.LeadingSeparatorRejected | test_claude/trades_api.py:65-70 | a percentage starting with one of U+001C to U+001F, which `str.strip()` would remove but `float()` does not skip, makes `float()` raise and is white |
| Classify.CreditLightOfWholeNumber | test_claude/trades_api.py:69-74 | for a whole-number percentage the light is red from 100, amber from 80, green below |
| Classify.CreditLightOfDigits | test_claude/trades_api.py:69-74 | the same thresholds for any run of digits, leading zeros included |
| Classify.CreditLightOfZero | test_claude/trades_api.py:69-74 | "0", the placeholder percentage, is green |
| Classify.CreditLightOfSamples | test_claude/trades_api.py:276-286 | the sample percentages 75, 85 and 105 are green, amber and red |
| Classify.CreditLineLayout | test_claude/trades_api.py:448 | the credit line shows the Spot, Fwd and Derivados glyphs, their labels, the percentages as stored and the percent signs, at places fixed by the lengths of the preceding percentages |
| Dates.ParseDate | test_claude/trades_api.py:78-83 | a parsed date is a date `datetime` can represent: year 1 to 9999, month 1 to 12, day within the month, with leap years |
| Dates.ParseFormatDate | test_claude/trades_api.py:81 | parsing the zero-padded DD/MM/YYYY text of any valid date gives the date back |
| Dates.DayNumberOrdersLikeDatetime | test_claude/trades_api.py:81 | the integer date key orders valid dates as `datetime` comparison does: year, then month, then day |
| Dates.UnparsableIsEarliest | test_claude/trades_api.py:78-83 | an unparsable date never sorts after a parsed one, and ties only with 01/01/0001 |
| Loading.KeepRows | test_claude/trades_api.py:96-122 | the row loop yields exactly the converted rows that pass the check, in order |
| Loading.KeepExactly | test_claude/trades_api.py:96-122 | the kept records are the conversions of the rows at increasing positions, and a row is kept exactly when it passes the check |
| Records.TradeFieldsTrimmed | test_claude/trades_api.py:97-111 | whatever the row holds, none of the twelve fields of the converted trade starts or ends with whitespace |
| Fields.SafeGetAllTrimmed | test_claude/trades_api.py:46-51 | with a default that has no surrounding whitespace, no key of any row gives a result that has any |
| Records.TradeKeptIff | test_claude/trades_api.py:114-116 | a trades row is dropped exactly when its trade number or client id cell is missing, null or all whitespace |
| Records.ClientKeptIff | test_claude/trades_api.py:192-194 | a status or credit-line row is dropped exactly when its client id cell is missing, null or all whitespace |
| Backend.TradesApi.constructor | test_claude/trades_api.py:41-43 | the three tables start empty |
| Backend.TradesApi.LoadTrades | test_claude/trades_api.py:85-166 | true exactly for a readable file; the table becomes its kept rows; a missing file installs the two sample trades; an unreadable one empties the table; the other tables are unchanged |
| Backend.TradesApi.LoadClientStatus | test_claude/trades_api.py:168-225 | as for trades, with the one sample status row when the file is missing |
| Backend.TradesApi.LoadCreditLines | test_claude/trades_api.py:227-292 | as for trades, with the one sample credit line when the file is missing |
| Backend.TradesApi.ReloadData | test_claude/trades_api.py:491-506 | the three loaders' outcomes and new tables, the new table sizes, and the summary line built from the outcomes |
| Backend.ReloadMessageMarks | test_claude/trades_api.py:505 | the summary line shows, after the "Trades: ", ", Status: " and ", Credit: " labels, a check mark exactly for each loader that succeeded and a cross exactly for each that failed |
| Backend.SampleStartup | test_claude/trades_api.py:127-161 | with all three files missing, every loader reports false and the tables hold the sample data: two trades, one status, one credit line; the sample client then gets both trades back, the sample status view, and green, amber and red credit lights |
| Backend.TradesApi.GetClientTrades | test_claude/trades_api.py:325-349 | the filter loop, sort and slice compute `RecentTrades` of the table |
| Queries.RecentTradesCorrect | test_claude/trades_api.py:325-349 | fails exactly when no trade has the client id; otherwise returns min(5, matches) of the client's trades, latest trade date first, equal dates in table order, and for every date later than the last one returned, every client trade with that date is returned, duplicates included |
| Queries.UnparsableTradesLast | test_claude/trades_api.py:340 | among the returned trades, one whose date does not parse comes after every one whose date parses to something later than 01/01/0001 |
| Queries.SampleTradesScenario | test_claude/trades_api.py:130-159 | on the sample data the sample client gets both trades, 06/07/2025 first and 05/07/2025 second |
| Queries.TradesOfClientMembers | test_claude/trades_api.py:332 | the filter keeps exactly the trades with the client id |
| Backend.FindFirst | test_claude/trades_api.py:358-362 | the scan with `break` returns the first record with the client id, or nothing |
| Queries.FirstWithIdCorrect | test_claude/trades_api.py:358-362 | nothing is found exactly when no record has the id; otherwise the found record has the id and no earlier record does |
| Backend.TradesApi.GetClientStatus | test_claude/trades_api.py:351-396 | the lookup and view compute `StatusReport` of the table |
| Queries.StatusReportCorrect | test_claude/trades_api.py:351-396 | the view is the first status row of the client, or the placeholder when there is none; each light classifies its own field; the status line carries the five lights in order |
| Queries.UnknownStatusView | test_claude/trades_api.py:364-375 | the placeholder has the requested client id, "Unknown" name and statuses, and five white lights |
| Backend.TradesApi.GetClientCreditLines | test_claude/trades_api.py:398-453 | the lookup and view compute `CreditReport` of the table |
| Queries.CreditReportCorrect | test_claude/trades_api.py:398-453 | the view is the first credit line of the client, or the placeholder when there is none; each light classifies its own percentage; the credit line is built from the three percentages |
| Queries.CreditLineOfFindsFirst | test_claude/trades_api.py:405-426 | the row shown has the requested client id; it is the first credit line of the client when there is one, and the placeholder exactly when there is none |
| Queries.UnknownCreditView | test_claude/trades_api.py:411-426 | the placeholder has "Unknown" name, all amounts and percentages "0", and three green lights |
| Queries.SampleStatusScenario | test_claude/trades_api.py:206-216 | on the sample data the sample client's status view is the sample row's: KYC and CCG green, Onboarding and Client amber, Contract red |
| Queries.SampleCreditScenario | test_claude/trades_api.py:268-287 | on the sample data the sample client's Spot, Fwd and Derivados lights are green, amber and red |
| Backend.TradesApi.GetStats | test_claude/trades_api.py:508-549 | the counting loops compute `StatsOf` of the tables |
| Backend.CountStatusFields | test_claude/trades_api.py:541-547 | the per-field loop computes the status breakdown: none without rows, else one tally per status field in order |
| Stats.StatsCorrect | test_claude/trades_api.py:508-549 | "no data" exactly when there are neither trades nor statuses; otherwise the three sizes; the distinct clients with trades (zero exactly when there are none); the average per client (at least one); the "most trades" list exactly when there are trades; and the status breakdown |
| Stats.AverageOf | test_claude/trades_api.py:537 | zero without clients; otherwise the average times the number of clients is the number of trades, and is at least one |
| Stats.TopClientsCorrect | test_claude/trades_api.py:530-538 | min(5, clients) entries, each a client with its number of trades, by count descending, equal counts in first-appearance order, and no client left out has more trades than the last one listed |
| Stats.OccurrencesAreClientTrades | test_claude/trades_api.py:532-534 | the count of a client id is the number of trades the trades query filters for that client |
| Stats.BreakdownCorrect | test_claude/trades_api.py:541-547 | empty exactly without status rows; otherwise the five fields in order, each listing every value of the field once with its number of rows, in first-appearance order, the counts summing to the number of rows |
| Counting.CountValues | test_claude/trades_api.py:531-534 | the `counts[v] = counts.get(v, 0) + 1` loop followed by `items()` yields the tally of the values |
| Counting.CountInto | test_claude/trades_api.py:531-534 | the counting loop leaves the keys in first-appearance order, each with its number of occurrences |
| Counting.TallyCorrect | test_claude/trades_api.py:543-546 | one entry per distinct value, in first-appearance order, each with its number of occurrences (at least one), counts summing to the number of values |
| StableSort.SortDescCorrect | test_claude/trades_api.py:340 | the sort is ordered by key descending, is a permutation, and keeps the input order among equal keys |
| StableSort.TopByKey | test_claude/trades_api.py:538 | the first n of the sorted list: at most n items from the input, ordered, the first items of each key in input order, and for every key larger than the last kept, every item with that key is kept, duplicates included |
| Documents.GetTradeDocument | test_claude/trades_api.py:455-489 | the scan over the extensions computes `DocumentFor` |
| Documents.DocumentForCorrect | test_claude/trades_api.py:455-489 | a missing directory is reported first; otherwise the answer is the trade number with the first of .pdf, .doc, .docx, .txt, .xlsx, .csv whose file exists, and "no document" exactly when none of the six exists |

## Left out

- HTTP is not modelled: routing, status codes, the JSON encoding, CORS and the uvicorn server. The 404 answers are the error values `NoTradesFound`, `DirectoryMissing` and `NoDocument`.
- The `/` and `/health` endpoints are not modelled. They only report the table sizes and, for `/health`, the current clock time.
- Console output (`print`) is not modelled. It has no effect on the tables or the answers.
- `test_claude/test_claude.py` is a separate FastAPI server with its own `/ask`, `/` and `/health` endpoints. `/ask` forwards a question to a third-party text-completion API. It shares no data with these tables and is not part of this model.
- File I/O is abstracted. A CSV file is `Loading.Source`: missing, failing to open or read (at any point), or the rows `csv.DictReader` produced. CSV parsing and encoding are not modelled.
- The per-row `except Exception` branches in the loaders are not modelled. Building a record from strings cannot raise, so they are never taken.
- `Documents.GetTradeDocument`: the file system is two parameters, whether the directory exists and which names exist in it. Returning the file's contents (`FileResponse`) is not modelled; the result is the file name.
- `Classify.ParseFloat` (Python's `float()`): it skips its own whitespace set at the ends (`Classify.FloatSpace`), which leaves out U+001C to U+001F. Values are exact reals, not binary64. A percentage very close to 80 or 100 that binary64 would round across the threshold is classified by its exact value. Underscore digit separators and non-ASCII digits, both accepted by `float()`, are rejected by the model.
- `Dates.ParseDate` (`strptime`): only ASCII digits are accepted. Python's `\d` also matches other Unicode decimal digits.
- `Text.Lower`: only ASCII letters are lowered. A status written with non-ASCII capitals that `str.lower()` would map onto "ok", "en curso" or "nok" is not recognised.
- `Stats.AverageOf`: does not model `round(..., 2)`. The average is the exact ratio, stated by its product with the number of clients.
- `Backend.TradesApi.GetClientTrades`: the `try`/`except` around the sort is not modelled. `parse_date` catches every error, so the sort cannot raise.
