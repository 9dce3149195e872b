# pi-commander core in Dafny

A functional model of the calculation core of pi-commander's small
Streamlit tools, together with proofs about it:

- **Dividend summariser** (`Dividends`, `dividends.dfy`). `process_dividends` converts each
  entry to EUR at a user-supplied USD→EUR rate and applies the entry's
  withholding-tax percentage. It groups the entries by country and sums the EUR
  and after-tax columns. It then fills a USD column, but only for countries whose
  reference-table default currency is USD. The two copies of the summariser
  (the shared utility and the one inlined into the tax app) compute the same
  values. They differ in two ways. The tax app's copy reads a module-level
  country table rather than a parameter. Its after-tax column is named
  "After Tax Dividends (EUR)" rather than "After Tax (EUR)", which is the
  name the tax page's drop of the derived columns uses. Column names are not
  part of the model, so both copies are one function that takes the country
  table as a parameter.
- **Entry collection and form defaults**:
  - `EntryForm` (`entry_form.dfy`) holds what the two dividend pages share:
    the currency and source lists, the country-lookup defaults, the form and
    the append-only entry table;
  - `TaxApp` (`tax_app.dfy`) is the standalone tax helper page, with its own
    country table;
  - `DividendsView` (`dividends_view.dfy`) is the 2024 dividend page.
- **ESPP report helpers** (`Espp`, `espp.dfy`):
  - dollar-string cleaning and parsing;
  - the plain-text summary table;
  - the three-stage row filter applied to the uploaded purchase sheet;
  - the portfolio gain arithmetic.
- **Travel planner** (`TravelPlanner`, `travel.dfy`): skeleton itinerary
  generation, the default configuration, and the `", "` join/split used to
  edit the configured lists.

`Text` (`text.dfy`) models Python's `str.join` and `str.split` with a
literal separator, including the round trip. `Wrappers` (`wrappers.dfy`)
holds an `Option` type.

Modelling choices:

- **Numbers.** Amounts are `real`, so arithmetic is exact. Dates are integer
  day numbers.
- **Tables.** A data frame of dividend entries is a sequence of `Row`s. Each
  row carries the entry and, once the summariser has run, its two derived
  columns. The summary is a map from country to `Totals`, because the row
  order of a pandas group-by does not matter to any consumer.
- **Failures.** Where the source raises, or produces a value a later step
  rejects, the model returns `None`.
- **Rate 0.** The rate inputs have no minimum, so a rate of 0 can reach the
  summariser. Its rows are Python objects and the division is a Python float
  division, so a `"USD"` entry at rate 0 raises `ZeroDivisionError`; the
  summarisers return `None` exactly then, and the pages show the entries
  without a summary. A table without `"USD"` entries is summarised normally at
  rate 0.

Two details of the code that the model keeps as written:

- Only `"USD"` entries are divided by the rate. Every other currency is passed
  through unchanged.
- The USD column is gated by the country's *default* currency in the static
  table, not by the currencies of the entries actually present. A USD entry
  for France therefore contributes nothing to France's USD column.
  `Dividends.Summarise` and `Dividends.AddEntryOwn` state this gating.

## Model

| member | source | states |
|---|---|---|
| Dividends.Lookup | docker/streamlit_app/utils/data_processing.py:25 | the lookup yields the first table entry with the given name, and nothing exactly when no entry has that name |
| Dividends.ToEur | docker/streamlit_app/utils/data_processing.py:7-10 | a USD amount is divided by the rate (result times rate gives the amount back); any other currency is kept unchanged; only a USD entry needs a non-zero rate |
| Dividends.ConvertibleSnoc | docker/streamlit_app/utils/data_processing.py:7-10 | appending an entry keeps the table convertible exactly when the new entry is convertible at the rate |
| Dividends.AfterTax | docker/streamlit_app/utils/data_processing.py:11-14 | the amount withheld is exactly eur·tax/100; a 0 % rate withholds nothing; for a non-negative amount and a rate in [0,100] the result lies between 0 and the amount; a rate above 100 % makes a positive amount negative |
| Dividends.OfCountry | docker/streamlit_app/utils/data_processing.py:27 | the per-country selection keeps only entries of that country, is empty for a country with no entries, and keeps a USD-free table USD-free |
| Dividends.OfCountryKeepsAll | docker/streamlit_app/utils/data_processing.py:27 | the per-country selection holds every entry of that country as often as the table does, and nothing else |
| Dividends.GroupSums | docker/streamlit_app/utils/data_processing.py:17-20 | the group-by has one key per distinct country, and each group holds the EUR and after-tax sums of exactly that country's entries |
| Dividends.Summarise | docker/streamlit_app/utils/data_processing.py:17-31 | one summary row per distinct country; EUR and after-tax columns are the sums over that country's entries; the USD column is the sum of that country's USD entries when the table's default currency for it is USD, and 0 otherwise |
| Dividends.Entries | docker/streamlit_app/utils/data_processing.py:7-14 | projecting a table to its entries keeps its length and every entry in place |
| Dividends.Annotate | docker/streamlit_app/utils/data_processing.py:7-14 | adding the derived columns leaves every entry unchanged and sets each row's columns to its EUR value and after-tax value |
| Dividends.ProcessDividends | docker/streamlit_app/utils/data_processing.py:5-31 | processing fails exactly when the rate is 0 and some entry is in USD (the division raises before any column is written); otherwise the table is left with its entries unchanged and each row's EUR and after-tax columns written, and the summary has exactly the countries of the entries and equals the summary of the entries |
| Dividends.ProcessTwice | docker/streamlit_app/utils/data_processing.py:7-14 | when processing succeeds, processing the table it leaves behind again gives the same table and summary, since the derived columns are overwritten and not read |
| Dividends.SummaryLossless | docker/streamlit_app/utils/data_processing.py:17-20 | summing the EUR (or after-tax) column over all summary rows gives the total of that column over all entries |
| Dividends.SumByCountryLossless | docker/streamlit_app/utils/data_processing.py:17-20 | partitioning the entries by a duplicate-free list of countries covering them loses no amount |
| Dividends.AddEntryOthers | docker/streamlit_app/utils/data_processing.py:17-30 | adding one entry adds its country to the summary and leaves every other country's row unchanged |
| Dividends.AddEntryOwn | docker/streamlit_app/utils/data_processing.py:17-30 | adding one entry raises its country's EUR and after-tax sums by the entry's converted and taxed amounts, and the USD sum by the raw amount only when it is a USD entry of a USD-default country |
| EntryForm.CurrencyIndex | divvy_tax/app.py:72 | the index into ["EUR","USD"] exists exactly when the currency is listed, and points at it |
| EntryForm.CurrencyDefault | divvy_app/views/dividends.py:31 | a country in the table defaults to its table currency and an unknown country to EUR; when every table currency is listed the default is one of the selectable currencies |
| EntryForm.FractionDefault | divvy_tax/app.py:58-59 | the default tax fraction is the listed country's table rate, and 0.15 for a name the table does not list |
| EntryForm.PercentDefault | divvy_app/views/dividends.py:29-30 | the default tax percentage is the listed country's table rate times 100, and 15 for a name the table does not list |
| EntryForm.ShownTaxAgrees | divvy_app/views/dividends.py:29-32 | the percentage shown in the tax field is the table's fraction times 100 (15 % on the fallback path), and is non-negative for a table of non-negative rates |
| EntryForm.SelectedIsListed | divvy_tax/app.py:55-60 | any country offered by the selectbox is found by the lookup, so the fallback defaults only apply to names outside the table |
| EntryForm.EntryOf | divvy_tax/app.py:63-85 | a submitted entry carries the form's country, dividends and tax percentage and the chosen currency and source, all listed, with non-negative dividends and tax percentage |
| EntryForm.AddDividend | divvy_tax/app.py:78-86 | the new entry is appended after all existing rows, which are unchanged; it carries no derived columns; a table of valid entries stays valid |
| EntryForm.DropDerived | divvy_tax/app.py:92 | dropping the derived columns keeps every entry and leaves no row with derived values |
| TaxApp.ShownTax | divvy_tax/app.py:58-63 | the tax field defaults to 15 for France, 10 for the United States and 15 for any other name, never below the field's minimum 0 |
| TaxApp.DefaultCurrency | divvy_tax/app.py:58-72 | the currency defaults to USD for the United States and EUR otherwise, and is always a valid selectbox index |
| TaxApp.ProcessDividends | divvy_tax/app.py:11-36 | the inlined summariser fails exactly when the rate is 0 and some entry is in USD; otherwise it writes the two derived columns into the table, equals the shared summariser under this page's country table, has one row per country, shows 0 USD for France and the USD-entry total for the United States |
| TaxApp.AccentedNamesUnlisted | divvy_tax/app.py:5-8 | under this page's unaccented table, an entry under the accented US name used by the other page gets a USD column of 0 |
| TaxApp.Render | divvy_tax/app.py:88-99 | entries are shown exactly when the table is non-empty, without derived columns; the summary is missing exactly when the summariser raises (rate 0 with a USD entry) and otherwise is the summary of the entries; the stored table gets the derived columns exactly when the summary is produced and is untouched otherwise |
| TaxApp.AddThenRender | divvy_tax/app.py:78-97 | after adding any entry the page shows the entries; any summary it shows has a row for that entry's country, and at a non-zero rate a summary is always shown |
| DividendsView.DefaultTax | divvy_app/views/dividends.py:29-32 | the tax field defaults to 25 for France, 15 for the United States and 15 for any other name, never below 0 |
| DividendsView.DefaultCurrency | divvy_app/views/dividends.py:29-36 | the currency defaults to USD for the United States and EUR otherwise, and is always a valid selectbox index |
| DividendsView.Render | divvy_app/views/dividends.py:49-58 | entries are shown exactly when the table is non-empty, as stored, before this run's summary; the summary is missing exactly when the summariser raises and otherwise is the summary of the entries, with one row per country and 0 USD for France; the stored table gets the derived columns at this run's rate exactly when the summary is produced and is untouched otherwise |
| DividendsView.RenderTwice | divvy_app/views/dividends.py:49-54 | when a summary was shown, re-rendering the table as left by the summariser shows the same summary |
| DividendsView.ShowsPreviousRun | divvy_app/views/dividends.py:39-54 | after a run at one rate, the next run, at any rate, shows the earlier rows with the EUR and after-tax values of the earlier rate and a row added in between with those values empty |
| DividendsView.Scenario | divvy_app/views/dividends.py:8-11 | 100 EUR for France at 25 % and 50 USD for the United States at 15 %, at rate 1.08, summarise to France (100, 75, 0) and United States (50/1.08, 0.85·50/1.08, 50) |
| DividendsView.PairGroups | docker/streamlit_app/utils/data_processing.py:17-27 | two entries of different countries form exactly two groups of one entry each |
| Espp.Remove | divvy_app/views/espp_report.py:8 | no occurrence of the removed character is left, and exactly the other characters of the input occur in the result (their counts: Espp.RemoveCounts) |
| Espp.RemoveCounts | divvy_app/views/espp_report.py:8 | removing a character keeps every other character as often as it occurred and drops all copies of the removed one |
| Espp.StripLeft | divvy_app/views/espp_report.py:8 | left-stripping removes exactly the leading whitespace run and keeps the rest as a suffix |
| Espp.StripRight | divvy_app/views/espp_report.py:8 | right-stripping removes exactly the trailing whitespace run and keeps the rest as a prefix |
| Espp.Cleaned | divvy_app/views/espp_report.py:8 | the cleaned text has no dollar signs or commas and neither starts nor ends with whitespace (that it is the stripped slice: Espp.CleanedIsStripped) |
| Espp.CleanedIsStripped | divvy_app/views/espp_report.py:8 | the cleaned text is the slice of the symbol-free text left after cutting a whitespace prefix and a whitespace suffix |
| Espp.ParseUnsignedAccepts | divvy_app/views/espp_report.py:9 | an unsigned decimal parses exactly when it is digits with at most one point and at least one digit |
| Espp.ParseNumberAccepts | divvy_app/views/espp_report.py:9-11 | a number parses exactly when it is an optional sign followed by such an unsigned decimal |
| Espp.CleanDollarValue | divvy_app/views/espp_report.py:6-11 | an empty cleaned value gives no number, and a number is returned exactly when the cleaned text is well formed |
| Espp.CleanFormatted | divvy_app/views/espp_report.py:115-119 | cleaning a value formatted with thousands separators and two decimals, padded with dollar signs or blanks, gives back the amount in dollars |
| Espp.NonNumeric | divvy_app/views/espp_report.py:9-11 | any cleaned character that is not a digit, point or sign makes the value unparseable |
| Espp.OnlySymbols | divvy_app/views/espp_report.py:8-9 | a value made only of dollar signs and blanks gives no number |
| Espp.GroupRemove | divvy_app/views/espp_report.py:115-119 | removing the thousands separators from a grouped digit string gives the digits back |
| Espp.ShowNatValue | divvy_app/views/espp_report.py:115-119 | the decimal rendering of a whole number reads back as that number |
| Espp.PadRight | divvy_app/views/espp_report.py:23-27 | left-justified padding keeps the text as a prefix, fills with spaces and never truncates |
| Espp.ColumnWidth | divvy_app/views/espp_report.py:19-22 | a column's width is the maximum of its header's and cells' lengths: at least each of them and equal to one of them |
| Espp.Widths | divvy_app/views/espp_report.py:19-22 | each column's width is the largest of its header's and cells' lengths: every header and cell fits, and the width equals the header's or some cell's length |
| Espp.TextTable | divvy_app/views/espp_report.py:13-30 | the table fails only for headers with no rows; otherwise it is "SUMMARY", a blank line, header, separator and one line per row, and header, separator and row lines all have length sum of widths plus two per gap (the content of each line: Espp.TableAligned) |
| Espp.TableAligned | divvy_app/views/espp_report.py:19-28 | in the header, separator and every row line, column j starts at its offset and holds the header or cell left-justified and blank-padded to the column's width (on the separator line, that many rule glyphs); two blanks separate adjacent columns and the last column ends the line, so every position of each line is fixed |
| Espp.LineLayout | divvy_app/views/espp_report.py:23-28 | in a header or row line, column j holds its cell padded to the column's width, followed by the two-blank gap or, for the last column, by the end of the line |
| Espp.SeparatorLayout | divvy_app/views/espp_report.py:24 | in the separator line, column j is that many rule glyphs, followed by the two-blank gap or, for the last column, by the end of the line |
| Espp.TableTextLines | divvy_app/views/espp_report.py:29 | splitting the newline-joined table gives back its lines when no header or cell holds a newline |
| Espp.FilterTwice | divvy_app/views/espp_report.py:58-60 | filtering twice equals filtering once by the conjunction |
| Espp.CleanUpIsOnePass | divvy_app/views/espp_report.py:58-60 | the three staged filters keep exactly the rows with no unwanted text, not starting with "Total" and having a purchase date |
| Espp.CleanUp | divvy_app/views/espp_report.py:53-60 | the staged clean-up fails exactly when there is no "Purchase Date" column and otherwise keeps at most the input rows (which rows: Espp.CleanUpIsOnePass) |
| Espp.FilterWithIndex | divvy_app/views/espp_report.py:58-60 | the kept rows are the input rows at strictly increasing indices, and an index is kept exactly when its row passes |
| Espp.CleanRows | divvy_app/views/espp_report.py:53-60 | the clean-up fails exactly when there is no "Purchase Date" column; otherwise the kept rows are the original rows, in order, that pass all three filters, and only those |
| Espp.GainPerLot | divvy_app/views/espp_report.py:102-107 | the total gain is the sum of per-lot gains, and the portfolio value is total shares times the latest price |
| Espp.NoLoss | divvy_app/views/espp_report.py:102-107 | when every lot was bought at or below the latest price, the gain is non-negative |
| Espp.Report | divvy_app/views/espp_report.py:102-120 | the portfolio summary shows the latest price, the value as total shares times price, the gain as the sum of per-lot gains, and EUR figures at the fixed 0.92 rate |
| Text.FindFrom | docker/streamlit_app/views/travel_planner.py:81 | the search returns the leftmost occurrence of the separator at or after the start, or none when there is none |
| Text.SplitJoin | docker/streamlit_app/views/travel_planner.py:81-84 | splitting a joined non-empty list gives it back when the separator overlaps itself nowhere and occurs in no item |
| Text.JoinSplit | docker/streamlit_app/views/travel_planner.py:81-84 | joining the parts of a split gives back the original text |
| Text.SplitPartsFree | docker/streamlit_app/views/travel_planner.py:81-84 | no part of a split contains the separator |
| TravelPlanner.DayCount | docker/streamlit_app/views/travel_planner.py:42-46 | there is no day count only when neither a count nor an end date is given; an end date overrides the count and gives end − start + 1 |
| TravelPlanner.GenerateTravelPlan | docker/streamlit_app/views/travel_planner.py:41-61 | the plan is empty without a duration; otherwise it has the requested number of days (none for a non-positive count), numbered from 1 on consecutive dates from the start date, with every editable field empty, and ends on the end date when one is given |
| TravelPlanner.DayCountMatchesEndDate | docker/streamlit_app/views/travel_planner.py:45-48 | asking for n days and asking for an end date n − 1 days after the start give the same plan |
| TravelPlanner.DefaultConfig | docker/streamlit_app/views/travel_planner.py:7-16 | the defaults start today with the day-count option and 10 days; their end date implies the same 10 days; every option list is non-empty |
| TravelPlanner.PlanFor | docker/streamlit_app/views/travel_planner.py:95-98 | "Generate Plan" gives as many days as the day count (none for a non-positive count) under the day-count option, and the days from start to end date inclusive under the end-date option, numbered from 1 on consecutive dates |
| TravelPlanner.PlanIgnoresOtherField | docker/streamlit_app/views/travel_planner.py:95-97 | the field the duration option does not select has no effect on the plan |
| TravelPlanner.DefaultConfigConsistent | docker/streamlit_app/views/travel_planner.py:7-11 | the default configuration's ten days and its end date nine days later describe the same ten-day plan |
| TravelPlanner.EditList | docker/streamlit_app/views/travel_planner.py:81 | an edited list has at least one item and no item contains ", " |
| TravelPlanner.EditListRoundTrip | docker/streamlit_app/views/travel_planner.py:81-84 | a non-empty list whose items contain no ", " survives the text-area round trip unchanged |
| TravelPlanner.EditListEmpty | docker/streamlit_app/views/travel_planner.py:81 | an empty list comes back as a single empty item |
| TravelPlanner.EditListSplitsItem | docker/streamlit_app/views/travel_planner.py:81 | an item containing ", " is split into two items by the round trip |
| TravelPlanner.EditListIdempotent | docker/streamlit_app/views/travel_planner.py:81-84 | a second round trip changes nothing |
| TravelPlanner.DefaultListsSurvive | docker/streamlit_app/views/travel_planner.py:12-15 | all four default lists survive the round trip unchanged |

## Left out

- The Streamlit user interface is not modelled: widgets, layout, session state, tabs, charts and messages. The pages are reduced to the state they hold and what they pass to the core.
- Excel upload and parsing, and reading and writing `config.json`, are file I/O and are left out. The `load_config` and `save_config` date conversions go with them.
- The yfinance price history, the merge with purchase dates and the Altair chart are left out. They need the network. The latest price is a parameter of `Espp.Report`.
- Floating-point arithmetic is not modelled. Amounts are exact reals, so float rounding, NaN and infinity do not arise.
- Dividends.Summarise: missing (NaN) countries, which pandas' group-by drops, are not modelled. Every entry in the model has a country string.
- Dividends.Summarise: the row order of the group-by result is not modelled. The summary is a map keyed by country.
- Espp.CleanDollarValue: `str()` of non-string cell values is not modelled. The input is already text.
- Espp.CleanDollarValue: the grammar is sign, digits and at most one decimal point. Python `float` also accepts exponents, underscores, `inf` and `nan`.
- Espp.CleanDollarValue: `strip` is modelled for the ASCII characters it removes (blank, tab, line and page breaks, and 0x1C-0x1F). The non-ASCII whitespace Python also strips is not modelled.
- Espp.CleanFormatted: `FormatMoney` formats a whole number of cents. The rounding of an arbitrary float to two decimals is not modelled.
- Espp.TextTable: the source fails on a table with columns but no rows. The model returns `None` for it rather than an error value.
- Espp.TextTable: for a table with neither columns nor rows, the source text ends with one extra newline after the empty separator line. The model's four lines do not carry it.
- Espp.TextTable: cells are taken as already-rendered strings. The source measures widths with `astype(str)` but renders cells taken from `iterrows`, which can render a number differently (5 against 5.0 in a frame mixing integer and float columns), so for such frames its lines need not have equal length. The summary table it is called with holds only strings.
- Espp.TextTable: the separator glyph in the source file is stored as the three mis-decoded characters of a UTF-8 "─". The model uses the single "─" character, so that the separator line is as wide as the header.
- Espp.CleanUpIsOnePass: the unwanted texts are joined into a regular expression in the source. Their `.` characters act as wildcards there, which the model does not reproduce: it matches them literally.
- Espp.CleanUpIsOnePass: the case-insensitive match folds ASCII letters only, not full Unicode case folding.
- Espp.CleanRows: the source's `.str` accessor raises when the first column holds no strings at all. The model treats such a column as having no "Total" rows.
- Espp.Report: the `astype(float)` conversion of shares and prices, including its failures, is left out. Lots hold numbers already.
- TravelPlanner.GenerateTravelPlan: dates are day numbers. The `%d/%m %a` rendering and the weekday list are left out.
- TravelPlanner.GenerateTravelPlan: the difference between an empty data frame and a zero-row frame with columns is not modelled. Both are an empty plan.
- TravelPlanner.DefaultConfig: the current date is a parameter rather than a clock read.
