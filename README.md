# Delivery cadence analysis, in Dafny

A model of the two halves of `src/main.py`: reading fuel-delivery logs, and
analysing each customer's delivery cadence.

**Ingestion.** Every delivery log is a CSV export named after its day, such as
`NOV25.xlsx - NOV 29.csv`. The model sees it as a *unit*: a file name plus a
grid of cells already rendered as text. Each cell is pandas' `str()` of the
value `read_csv` parsed for it. An empty cell, and a cell holding one of
pandas' default missing-value tokens (`N/A`, `NA`, `NULL`, `null`, `#N/A`,
`NaN`, `n/a`, `nan`, `None` and a few more), therefore reads `nan`. A number
reads the way pandas renders it. For each unit:

- the date is read from the name: the last hyphen-separated part, its first
  `LETTERS digits` token, and the first month key (in dictionary order) that
  the word starts with;
- the year is fixed at 2025, and a day that does not exist drops the file;
- the header row is the first row whose lower-cased, space-joined cells
  mention both `customer name` and `product`;
- the column names are stripped and title-cased, giving the first `Customer`
  column, the first `Product` column and the first column mentioning `Gallons`
  or `Qty`;
- each later row is cleaned into a record, or skipped:
  - customer and product are stripped and upper-cased;
  - totals, blanks and `nan` are rejected;
  - commas are removed from the quantity, which is read the way Python's
    `float` reads it;
  - only positive quantities are kept;
  - the product is canonicalised by the first key of the ordered product map
    that occurs in it.

**Analysis.** Records are grouped by (customer, product) in sorted key order.
For each group, the model computes:

- the sorted distinct delivery days;
- the number of deliveries, the last day and the total gallons;
- from two days on: the mean gap, its frequency band (Weekly 5–9,
  Bi-Weekly 12–16, Monthly 25–35, otherwise `Custom (n days)` with `n`
  truncated), and a forecast of the last day plus the truncated mean;
- from three days on: the modal weekday.

Dates are day numbers of 2025, with 1 January as 0. A weekday is the day
number modulo 7, with day 0 a Wednesday.

Modules:

| module | covers |
|---|---|
| `Text` | the string functions |
| `Dates` | the calendar |
| `Numbers` | `float` and `str` of numbers |
| `FilenameDate` | the filename date |
| `Table` | the header row and the columns |
| `Normalize` | one row |
| `Ingest` | the file loop |
| `Ordering` | sorted distinct sequences and the key order |
| `Analysis` | the group loop |
| `Wrappers` | `Option` |

The two loops of the source, over files and over groups, and the loops inside
them (the header search, the row loop and the weekday pick) are methods. The
file loop, the header search and the row loop are each proved equal to a
specification function. The weekday pick is proved to return a modal weekday
(`Analysis.Modal`), since the source leaves the choice among tied weekdays
open. The group loop is proved to build a sequence in the relation
`Analysis.Reported` to the sorted keys: each summary is its group's summary
for a modal weekday of that group. The properties are proved as lemmas about
these functions and this relation.

Where the code and its documentation disagree, the model follows the code:

- **Truncation.** The custom label and the forecast use `int()`, which
  truncates; they are not rounded.
- **`NONE`.** It is not on the customer reject list. A cell that is exactly
  `None` is a missing value to pandas, so it reads `nan` and is rejected as
  `NAN`. Other spellings, such as `NONE`, `none` or ` None `, are kept as the
  customer `NONE`.
- **Quantity column.** It is the first column mentioning either keyword, so a
  `Qty` column before a `Gallons` column wins.
- **Date source.** The date comes from the file name only; file contents are
  never scanned for dates.
- **LD shadowing.** The key `LD` is tried before the dyed keys, so every product
  containing `LD-DYED` or `LD - DYED` becomes `LD`, and canonicalisation is not
  idempotent. (`RED DIESEL`, which does not contain `LD`, still becomes
  `LD-Dyed`.)
- **Blank product.** An empty product cell reads `nan` and gives the product
  `NAN`; a cell of whitespace only gives the empty product name. Neither is
  rejected.

## Model

| member | source | states |
|---|---|---|
| Text.StripSpec | src/main.py:106 | `strip()` returns a contiguous slice of its input that neither starts nor ends with whitespace |
| Text.StripAt | src/main.py:43 | text surrounded only by whitespace strips to exactly that text |
| Text.ContainsIff | src/main.py:82 | the `in` test holds exactly when the pattern occurs at some position |
| Text.ContainsPrefix | src/main.py:125 | a string containing a key also contains every prefix of that key |
| Text.AfterLastSpec | src/main.py:42-43 | the last part of a split on a separator is the longest suffix of the input without the separator |
| Text.RemoveCharSpec | src/main.py:116 | removing a character leaves none of it and keeps every other character with its multiplicity |
| Text.RemoveCharConcat | src/main.py:116 | removing a character distributes over concatenation |
| Dates.DaysInMonth | src/main.py:53 | every month of 2025 has 28 to 31 days, and only February has 28 (2025 is not a leap year) |
| Dates.WeekdayNames | src/main.py:184-185 | day 0 is named `Wednesday`, and distinct weekdays have distinct names |
| Dates.FromDayNumber | src/main.py:153 | every day number of the year is the day number of a valid date |
| Dates.DayNumberRoundTrip | src/main.py:153 | a valid date converted to its day number and back is unchanged |
| Dates.DayNumberOrder | src/main.py:153 | day numbers order dates exactly as the calendar does (month, then day) |
| Dates.WeekdayOf | src/main.py:184 | day 0 (1 January 2025) and every seventh day after it is a Wednesday; day 5 and every seventh day after it is a Monday |
| Dates.WeekdayPeriodic | src/main.py:184 | the weekday repeats every seven days |
| Dates.WeekdayNext | src/main.py:184 | consecutive days fall on consecutive weekdays, which with day 0 a Wednesday fixes the weekday of every day |
| Numbers.NatTextRoundTrip | src/main.py:176 | `str` of a non-negative integer reads back as that integer |
| Numbers.ValueOf | src/main.py:117-121 | a parsed number is positive exactly when it has no minus sign and a non-zero mantissa |
| Numbers.ParseFloatDigits | src/main.py:117 | a run of decimal digits is read as its integer value |
| Numbers.ParseFloatNeedsDigit | src/main.py:117-119 | text without a digit is not a number, so `float` raises and the row is skipped |
| Numbers.ParseFloatStrips | src/main.py:117 | surrounding whitespace does not change what `float` reads |
| FilenameDate.FirstMonthKeySpec | src/main.py:34-51 | the month key chosen is the first, in dictionary order, that the word starts with; with none, the search fails |
| FilenameDate.MatchAtFound | src/main.py:46 | a match at a position is a maximal run of capital letters, optional whitespace, and one or two digits (two when two follow) |
| FilenameDate.MatchAtNone | src/main.py:46 | there is no match exactly when no capital letter starts there or no digit follows the letters and whitespace |
| FilenameDate.SearchFromSpec | src/main.py:46 | the search returns the leftmost match; with none, no position matches |
| FilenameDate.ParseDateFromFilename | src/main.py:25-57 | a parsed date is a valid date of 2025 |
| FilenameDate.ParseDateMeans | src/main.py:46-53 | a parsed date's day is the matched digits, and its month is that of the first key the matched word starts with |
| FilenameDate.ParseDateRejects | src/main.py:50-57 | the name gives no date when the word starts with no month key, or when the day does not exist in the month |
| FilenameDate.ParseDateComplete | src/main.py:46-57 | when the token's word starts with a month key and with no earlier key, the name is dated that month and the token's day if that day exists, and gives no date otherwise |
| FilenameDate.DayPartPlain | src/main.py:29-43 | a plain upper-case name without `/`, `-`, `.` or edge whitespace is its own day part |
| FilenameDate.DayPartExample | src/main.py:27-43 | the day part of `NOV25.xlsx - NOV 29.csv` is `NOV 29` |
| FilenameDate.ParseExampleName | src/main.py:27 | `NOV25.xlsx - NOV 29.csv` is dated 29 November |
| FilenameDate.TokenSeptParses | src/main.py:37 | a token `SEPT 5` means 5 September, through the earlier key `SEP` |
| FilenameDate.ParseSeptember | src/main.py:37 | the name `SEPT 5` is dated 5 September |
| FilenameDate.TokenFeb29Rejected | src/main.py:53-56 | a token `FEB 29` gives no date (2025 has no 29 February) |
| FilenameDate.ParseNoLeapDay | src/main.py:53-56 | the name `FEB 29` gives no date |
| FilenameDate.TokenNovDayRejected | src/main.py:53-56 | a token naming day 0, 00 or 31 of November gives no date |
| FilenameDate.ParseUnknownMonth | src/main.py:46-57 | in `WEEK 3 NOV 4` the search stops at `WEEK`, which starts with no month key, so the name gives no date |
| Table.FirstFromSpec | src/main.py:79-84 | the search returns the first element satisfying the test, and `-1` exactly when none does |
| Table.HeaderFromSpec | src/main.py:79-84 | the header index is the first header row, and `-1` exactly when no row is a header |
| Table.FindHeader | src/main.py:79-87 | the header loop stops at the first header row, and returns `-1` exactly when there is none |
| Table.CellInJoin | src/main.py:81 | a phrase in the lower-cased text of one cell is in the lower-cased joined row |
| Table.HeaderFromCells | src/main.py:81-82 | a row with one cell mentioning `customer name` and one mentioning `product`, in any case, is a header |
| Table.ColumnNames | src/main.py:93 | one stripped, title-cased name per header cell, in order |
| Table.MentionsAnyIff | src/main.py:99 | a name mentions a keyword list exactly when some keyword of the list occurs in it |
| Table.FirstColumnWithSpec | src/main.py:96-100 | the lookup returns the first column mentioning a keyword, and none exactly when no column does |
| Table.ResolveColumnsSpec | src/main.py:96-103 | the three columns are the first mentioning `Customer`, the first mentioning `Product`, and the first mentioning `Gallons` or `Qty`; resolution fails exactly when some keyword is in no column |
| Table.QtyBeforeGallons | src/main.py:99-100 | a `Qty` column before any `Gallons` column is the quantity column |
| Normalize.FirstProductKeySpec | src/main.py:124-127 | the product key chosen is the first in map order that occurs in the product; with none, the search fails |
| Normalize.CanonicalizeSpec | src/main.py:123-127 | the canonical name is the value of the first map key occurring in the product, or the product unchanged when no key occurs |
| Normalize.ContainsLDIsLD | src/main.py:15 | every product containing `LD` becomes `LD` |
| Normalize.DyedKeysShadowed | src/main.py:14-17 | the dyed keys are never selected, because each contains the earlier key `LD` |
| Normalize.BlankProductKept | src/main.py:112-127 | an empty product cell (read as `nan`) gives the product `NAN`, and a whitespace-only cell gives the empty product name |
| Normalize.RedDieselBulk | src/main.py:20-21 | `RED DIESEL BULK`, which contains no earlier key, becomes `LD-Dyed` |
| Normalize.CanonicalNamesFixed | src/main.py:15-19 | `LD`, `UR` and `LP` map to themselves |
| Normalize.DyedNameNotFixed | src/main.py:15-16 | `LD-Dyed`, read again as a product, becomes `LD`, so canonicalisation is not idempotent |
| Normalize.QuantityIgnoresComma | src/main.py:116 | a comma anywhere in a quantity cell does not change the value read |
| Normalize.ThousandsSeparator | src/main.py:114-117 | `1,250` reads as 1250 |
| Normalize.NormalizeRowSpec | src/main.py:105-135 | a row gives a record exactly when its customer is not rejected and its quantity reads as a positive number; the record carries the unit's date and name, the cleaned customer, the canonical product and the quantity |
| Normalize.NormalizeRowWellFormed | src/main.py:106-121 | every record has a positive quantity and a non-empty upper-case customer off the reject list |
| Normalize.CustomerCaseInsensitive | src/main.py:106-109 | rows whose customers agree after strip and upper-case give the same result |
| Normalize.NegativeQuantitySkipped | src/main.py:121 | a quantity with a leading minus never gives a record |
| Normalize.UnreadableQuantitySkipped | src/main.py:115-119 | a quantity without a digit never gives a record |
| Ingest.ProcessFiles | src/main.py:69-141 | the file loop returns the records of all units, unit after unit |
| Ingest.ReadUnit | src/main.py:70-103 | one unit gives no records without a date, a header or a column, and otherwise the records of the rows after the header |
| Ingest.ReadRows | src/main.py:105-135 | the row loop keeps, in row order, the record of each row that gives one |
| Ingest.RowsRecordsMembers | src/main.py:105-135 | a record is kept exactly when some row gives it |
| Ingest.ConcatMapAppend | src/main.py:69 | processing a concatenation of lists concatenates the results |
| Ingest.AllRecordsAppend | src/main.py:69 | units are processed independently: the records of `us + vs` are those of `us` followed by those of `vs` |
| Ingest.UnitRecordsNeedHeader | src/main.py:70-87 | a unit contributes records only if its name gives a date and some row is a header |
| Ingest.UnitRecordsSpec | src/main.py:90-135 | each record of a unit comes from a row after the header, read with the resolved columns, the unit's day number and its base name |
| Ingest.NoHeaderNoRecords | src/main.py:86-87 | a grid without a header row contributes nothing |
| Ingest.NoQuantityColumnNoRecords | src/main.py:99-103 | a header without a `Gallons` or `Qty` column contributes nothing |
| Ingest.AllRecordsWellFormed | src/main.py:105-135 | every record of every unit is well formed |
| Ingest.AllRecordsInYear | src/main.py:53 | every record's date is a day of 2025 |
| Ingest.ExampleUnit | src/main.py:69-135 | the unit `NOV 29` with header `Customer Name, Product, Gallons` and row `acme `, `ur`, `1,250` gives the single record for 29 November, customer `ACME`, product `UR`, 1250 gallons |
| Ordering.SortedDistinctSpec | src/main.py:150-153 | sorting without duplicates gives a strictly ascending sequence holding exactly the input's elements |
| Ordering.SortedUnique | src/main.py:150-153 | two strictly ascending sequences with the same elements are equal |
| Ordering.KeyLessOrder | src/main.py:150 | the order of (customer, product) pairs is a strict total order |
| Analysis.KeysSpec | src/main.py:150 | the group keys ascend without repeats and are exactly the records' keys |
| Analysis.GroupMembers | src/main.py:150-152 | a group holds exactly the records with its key |
| Analysis.GroupDatesSpec | src/main.py:153 | a group's dates ascend without repeats and are exactly its records' dates |
| Analysis.PickModalWeekday | src/main.py:184-185 | the chosen weekday occurs among the dates, and no weekday occurs more often |
| Analysis.SummarizeGroup | src/main.py:152-197 | one key's summary is its group's summary, with a pattern day from three dates on that is modal |
| Analysis.ReportedStep | src/main.py:152-197 | appending one key's summary extends the group loop's result by that key |
| Analysis.ReportedAt | src/main.py:152-197 | each element of the group loop's result is its key's group summary |
| Analysis.AnalyzePatterns | src/main.py:143-199 | the group loop builds one summary per key, in key order |
| Analysis.ReportSpec | src/main.py:144-199 | the summaries are one per distinct (customer, product) pair, in ascending order, each its group's summary; none for no records; their gallons add up to all the records' gallons |
| Analysis.GroupsPartitionGallons | src/main.py:155 | grouping by distinct keys that cover all records loses no gallons and counts none twice |
| Analysis.GallonsConserved | src/main.py:155 | the summaries' totals add up to the gallons of all records |
| Analysis.Telescope | src/main.py:165 | the gaps between consecutive dates add up to the span from first to last |
| Analysis.MeanGapIsSpan | src/main.py:165-166 | the mean gap is the span divided by one less than the number of dates |
| Analysis.Trunc | src/main.py:176 | `int()` of a float truncates toward zero |
| Analysis.TruncQuotient | src/main.py:176-179 | `int()` of a non-negative quotient is the integer quotient |
| Analysis.CustomLabel | src/main.py:176 | the custom label is `Custom (`, the mean's integer text, then ` days)`, and the text reads back as that integer |
| Analysis.ClassifySpan | src/main.py:169-176 | the bands, inclusive at both ends, are tried in order, and outside them the label carries the integer quotient |
| Analysis.ClassifyBoundaries | src/main.py:169-176 | values at and just past each band's edges fall where the inclusive bounds put them |
| Analysis.SummaryOfSpec | src/main.py:153-197 | a single date is a one-off with no mean, forecast or pattern day; from two dates on, the band and the forecast follow from the span, and the pattern day is present only from three dates |
| Analysis.TwoDeliveries | src/main.py:179-183 | with two deliveries the forecast repeats the one gap, and there is no pattern day |
| Analysis.SummaryForSpec | src/main.py:153-156 | the count is the number of distinct delivery days; the last delivery is the latest date of the group; the total covers all of the group's records, same-day repeats included |
| Analysis.GroupDatesLast | src/main.py:153-156 | the last of a group's distinct dates is some record's date and the latest of them all |
| Analysis.GroupGallonsPositive | src/main.py:121-155 | a group with a record has a positive total |
| Analysis.WeeklyScenario | src/main.py:163-185 | deliveries on 1, 8 and 15 January are weekly, with mean 7, last day 14 and forecast day 21; Wednesday is their only modal weekday, so it is the only pattern day any summary of them can carry |
| Analysis.SingleDelivery | src/main.py:158-161 | a single delivery is a one-off with no pattern day and no forecast |

## Left out

- File discovery (`glob`), reading files (`pd.read_csv`) and printing are not modelled. A unit is a name plus a grid of the cells as text. The reload with `header=header_idx` is modelled as the rows after the header row; pandas' handling of blank lines, quoting and ragged rows is not, and a missing cell reads as `nan`.
- Duplicate or mangled column names that pandas produces (`Product.1`) are not modelled; column names are the header cells.
- pandas' type inference on the reload is not modelled. A unit's cells are given already as pandas would render them (`1250.0` for a float column, `nan` for a missing value); how pandas infers a column's type is not computed here.
- Normalize.Cell: the missing-value tokens are not recognised by the model itself. A grid cell is taken to be pandas' text for the cell already, so a cell that read `N/A`, `NA`, `NULL`, `null`, `#N/A`, `NaN`, `n/a`, `None` or was empty in the file is `nan` in the unit.
- The `except Exception` around each file (src/main.py:137-139) is not modelled: the model has no I/O to fail.
- The other paths to the date parser's `except` are not modelled either, because the model raises no exception there; the invalid day that `datetime` rejects is modelled as no date.
- The Excel export and console summary of `main` (src/main.py:201-223) are output only and are not part of this model.
- Numbers.ParseFloat: `inf`, `nan` and `infinity`, which Python's `float` accepts, are read as unreadable here. Values are exact reals, with no binary rounding.
- FilenameDate.MatchAt and Numbers.ParseFloat: digits are ASCII `0`-`9` only. Python's `\d`, `int()` and `float()` also accept the other Unicode decimal digits (such as Arabic-Indic `٢٩`). A file name whose day is written in such digits gets no date here, and a quantity written in them is unreadable, so its row is skipped.
- Text.Upper: upper- and lower-casing covers ASCII letters only; characters outside ASCII are left unchanged. The same holds for the title-casing of column names (Text.Title), where a non-ASCII letter also counts as a word break. So `éCustomer` stays `éCustomer` and still resolves as a `Customer` column, where Python gives `Écustomer`, and `galónes` becomes `GalóNes`, where Python gives `Galónes`.
- Analysis.Summary: dates are kept as day numbers, not as `strftime` text. A forecast day of 365 or more is a date in 2026, and the model does not render it.
- Analysis.Summary: `round(avg_days, 1)` (src/main.py:191) is not modelled; the summary holds the exact mean.
- Analysis.PickModalWeekday: `max` over `set(days_of_week)` breaks a tie by the set's iteration order, which depends on string hashing. The model proves only that the chosen weekday is modal; it does not say which of several equally frequent weekdays is picked.
- Analysis.SummarizeGroup: the summary carries the weekday value, not its `strftime('%A')` name. Dates.WeekdayNames proves the names distinct and day 0's name `Wednesday`, so counting names as the source does counts weekdays.
