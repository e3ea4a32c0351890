# Expense tracker core in Dafny

This project models the logic of a single-page expense tracker, `script.js`.
The tracker keeps two collections: one-off **transactions** (date, type,
category, amount) and **recurring items** (name, type, amount). The model
covers five parts of it:

- the **filter** that chooses which transactions the list and the totals
  show (`getFilteredTransactions`);
- the **summary totals** (`updateSummary`);
- the **record store**: the form-submit appends, edit/save/cancel by index,
  splice-deletes, and the `findIndex` lookup the transaction list uses;
- the **CSV export** (`exportToCSV`);
- the **CSV import** (`importFromCSV`): the BOM strip, blank-line filter and
  header check, the row split and field cleaning, per-kind acceptance, and
  the merge through a JS `Map` keyed by a record's key string.

Modules follow the structure of the script:

- Basics:
  - `Wrappers` holds `Option`.
  - `Seqs` holds `Map`/`FilterMap`/`SumOf` over sequences.
  - `Text` holds `trim`, `split('\n')`, the BOM, quote stripping and quote
    doubling.
  - `Numbers` holds number-to-string and the `parseFloat` prefix parse.
  - `Calendar` holds date-only `Date` values, day numbers and `getDay()`.
- Records and views:
  - `Records` holds the two record kinds, their dedup keys and `findIndex`.
  - `Filter` holds the filter modes.
  - `Summary` holds the totals.
- CSV:
  - `Csv` holds encoding and decoding as functions, plus the import's row
    loop.
  - `RoundTrip` holds what decoding an export gives back.
- Import merge and state:
  - `Merge` holds the `Map`-based deduplication.
  - `Store` holds the script's module-level state as the class
    `RecordStore`, with one method per handler that changes it.

Amounts are integers. `parseFloat`/`parseInt` is a prefix parse of an
optional sign and digits, and `None` stands for `NaN`. A number prints as
its decimal digits. Dates are `YYYY-MM-DD` strings read as proleptic
Gregorian dates. A `Date` object is a `Calendar.Moment`: a day plus the
milliseconds since its midnight, read in UTC. A date string reads as
midnight of its day. The clock's reading `new Date()`, the date picker's
value and the year box's value are parameters. The user's answer to `confirm()` is a boolean parameter.

In four places the code does something other than what a reader of the
user interface might expect, and the model does what the code does:

- **No `""` unescaping on import.** The import does not turn `""` back into
  `"`. A name or category holding a quote comes back with that quote
  doubled: `QuotesComeBackDoubled`, `QuoteBreaksRoundTrip`.
- **`daily` with an empty date picker** shows every transaction, not none
  (script.js:55), as `UnfilteredModes` states. The picker is empty only when
  the user has cleared it: `updateFilterUI` fills an empty picker with
  today's date whenever `daily`, `weekly` or `monthly` is chosen and at
  start-up (script.js:224-226, 375-376, 417), as `FillFilterInputs` states.
  This bullet and the next two describe that cleared picker.
- **`weekly`/`monthly` with an empty date picker** use the clock's reading
  (script.js:50, 60, 72), not an empty result. Only a date the picker cannot
  parse makes them show nothing: `InvalidDateShowsNothing`.
- **`weekly` with an empty date picker hides this week's Sunday.** The clock's
  reading keeps its time of day through `setDate` (script.js:61-64), so the
  window opens on Sunday at that time of day. A record's date reads as
  midnight (script.js:66-67), so whenever the clock is past midnight the view
  runs from Monday to Saturday. A date picked from the picker is midnight and
  gives the full Sunday-to-Saturday week: `WeeklyKeepsThatWeek`,
  `WeeklyHidesSundayAfterMidnight`. So does the picker `updateFilterUI`
  fills, which holds today's date and reads as today at midnight:
  `FilledWeekIsWholeWeek`.

## Model

| member | source | states |
|---|---|---|
| Text.Trim | script.js:313-315 | `trim()` result neither starts nor ends with whitespace; it is empty exactly when the input is all whitespace |
| Text.TrimInfix | script.js:313-315 | `trim()` returns a contiguous slice of the input with only whitespace before it and only whitespace after it |
| Text.TrimOfTrimmed | script.js:315 | trimming a text without surrounding whitespace changes nothing (so trim is idempotent) |
| Text.StripBom | script.js:312 | a leading U+FEFF is removed and nothing else; text without one is unchanged |
| Text.SplitLines | script.js:313 | `split('\n')` yields at least one piece, no piece holds a newline, and joining the pieces with newlines gives the text back |
| Text.SplitLinesCons | script.js:313 | a newline-free line followed by a newline splits off as the first piece |
| Text.OddQuotesCounts | script.js:315 | the quote-parity used by the split agrees with the number of `"` characters being odd |
| Text.EscapeQuotes | script.js:288-292 | `replace(/"/g, '""')`; stated by the `Escape` lemmas below |
| Text.EscapeCounts | script.js:288-292 | `replace(/"/g, '""')` doubles the number of quotes and keeps the count of every other character |
| Text.EscapeQuoteFree | script.js:288-292 | a text without quotes is not changed by the quote doubling |
| Text.EscapeChanges | script.js:288-292 | a text holding a quote is always changed by the quote doubling |
| Text.EscapedQuotesEven | script.js:288-292 | a quote-doubled text holds an even number of quotes |
| Text.EscapeKeeps | script.js:288-292 | every non-quote character is in the doubled text exactly when it is in the original |
| Text.StripQuotes | script.js:315 | the quote-strip `replace` of `parseCSVRow`: one quote removed at each end where there is one; see `StripQuotesOfQuoted` |
| Text.StripQuotesOfQuoted | script.js:315 | the quote strip of the row parser removes exactly the wrapping quotes the export adds |
| Numbers.ParseLeadingInt | script.js:322 | `parseFloat`/`parseInt` on integers: leading whitespace, an optional sign and the longest run of digits, with `NaN` when there is no digit; stated by the three lemmas below |
| Numbers.ParseOfIntToString | script.js:322-325 | parsing an exported amount gives the amount back |
| Numbers.ParseOfDigitPrefix | script.js:322-325 | `parseFloat` reads the leading digits and ignores what follows them |
| Numbers.ParseWithoutDigits | script.js:322-326 | a text with no digit parses to `NaN`, so its row is refused |
| Records.TransactionKey | script.js:331 | `${t.date}-${t.category}-${t.amount}`; see `KeysCanCollide` |
| Records.RecurringKey | script.js:332 | `${r.name}-${r.amount}`; see `KeysCanCollide` |
| Records.KeysCanCollide | script.js:331-332 | two records that differ in date/category, or in name/amount, can share a dedup key, because keys are `-`-joined strings |
| Records.FindIndex | script.js:127 | the index of the first record with the same date, category and amount, or -1 exactly when there is none |
| Records.FindIndexOfMember | script.js:127 | a record taken from the store is always found at a valid index |
| Records.FindIndexShadowsDuplicates | script.js:127 | of two records agreeing on date, category and amount, the later one resolves to the earlier one's index or before it |
| Calendar.ParseIsoDate | script.js:60-85 | a date string that is accepted is a valid calendar date |
| Calendar.ParseIsoDateExactly | script.js:60-85 | a string reads as date `d` exactly when `d` is a valid date with a four-digit year and the string is `d` written as `YYYY-MM-DD` |
| Calendar.ParseOfFormatted | script.js:60-85 | every valid date with a four-digit year, written as `YYYY-MM-DD`, reads back as itself |
| Calendar.DayNumber | script.js:61-67 | the day count behind `Date` comparison and `setDate`; stated by `YearLength`, `MonthLength`, `DayNumberOfNextDay` and `EpochIsThursday` |
| Calendar.Weekday | script.js:62 | `getDay()` lies in 0..6 |
| Calendar.YearLength | script.js:62 | day numbering gives leap years 366 days and other years 365 |
| Calendar.MonthLength | script.js:62 | day numbering gives every month but February the length the calendar gives it (February is `YearLength`) |
| Calendar.DayNumberOfNextDay | script.js:61-64 | consecutive calendar days have consecutive day numbers, so `setDate` arithmetic moves by whole days |
| Calendar.EpochIsThursday | script.js:62 | day 0 is 1970-01-01 and a Thursday, matching `getDay()` |
| Filter.FilteredTransactions | script.js:47-91 | `getFilteredTransactions()`: the store's transactions passed through the criterion the mode reads; what each mode keeps is stated by `UnfilteredModes`, `DailyKeepsThatDate`, `WeeklyKeepsThatWeek`, `InvalidDateShowsNothing` and `MonthlyAndYearly` |
| Filter.CriterionFor | script.js:51-90 | the `switch`: the reference date or year each mode reads, with an empty picker falling back to the clock for `weekly`/`monthly`; stated by the same mode lemmas |
| Filter.Keeps | script.js:52-90 | each `filter` callback: `daily` compares date strings, and the other modes compare the record's date read as midnight; stated by the same mode lemmas |
| Filter.FilterBy | script.js:56-87 | `filtered.filter(...)`; its counts are `FilterByCounts` and its order is `FilterIsSubsequence` |
| Filter.FillFilterInputs | script.js:212-233 | `updateFilterUI` fills only the input the mode shows, and only when it is empty: the picker becomes non-empty for `daily`/`weekly`/`monthly`, the year box for `yearly`, and a non-empty value is kept |
| Filter.FilledInputsReadBack | script.js:216-232 | the filled picker reads back as today at midnight, and the filled year box as the current year |
| Filter.FilledWeekIsWholeWeek | script.js:59-67 | with the picker `updateFilterUI` filled, `weekly` keeps every record of today's Sunday-to-Saturday week as often as the store holds it, and nothing else |
| Filter.FilterByCounts | script.js:56-87 | every record passing the criterion is in the result as often as in the input, and nothing else is |
| Filter.FilterIsSubsequence | script.js:48-92 | the filtered view is an order-preserving subsequence of `transactions` |
| Filter.UnfilteredModes | script.js:49-90 | `all`, `daily` with an empty picker and `yearly` with an unparsable year return the whole list |
| Filter.DailyKeepsThatDate | script.js:52-58 | `daily` keeps exactly the records whose date string equals the picked one |
| Filter.WeekWindow | script.js:59-64 | the weekly window opens on the reference moment's Sunday and closes six days later, both at the reference time of day, and contains the reference moment |
| Filter.MidnightInWindow | script.js:66-67 | a midnight lies in a window opened at some time of a Sunday exactly when it falls from that Sunday (the Monday after, when the window opened past midnight) to the Saturday |
| Filter.WeekKeeps | script.js:59-67 | the weekly criterion keeps a record exactly when its date parses and falls from the window's first midnight to its Saturday |
| Filter.WeeklyKeepsThatWeek | script.js:59-70 | a record is kept by `weekly`, as often as it occurs, exactly when its date falls from the week's Sunday (Monday when the reference is the clock past midnight) to its Saturday; a picked date always gives the full week; otherwise the record is not kept at all |
| Filter.WeeklyHidesSundayAfterMidnight | script.js:59-67 | with an empty picker and the clock past midnight, a record dated this week's Sunday is not shown |
| Filter.FilterByCount | script.js:56-87 | one record's count in the view is its count in the store if it passes and zero otherwise, and it is in the view exactly when it is in the store and passes |
| Filter.MonthlyKeepsThatMonth | script.js:71-79 | with a reference date, a record is in the `monthly` view exactly when it is in the store and dated in that date's year and month |
| Filter.YearlyKeepsThatYear | script.js:81-89 | with a year that parses, a record is in the `yearly` view exactly when it is in the store and dated in that year |
| Filter.FilterPush | script.js:48-92 | the view of a store with a record pushed is the old view followed by that record when the filter keeps it |
| Filter.FilterReplace | script.js:48-92 | the view of a store with record `i` replaced is the view of the records before `i`, the new record if kept, then the view of the records after `i` |
| Filter.FilterRemove | script.js:48-92 | the view of a store with record `i` removed is the view of the records before `i` followed by the view of the records after it |
| Filter.InvalidDateShowsNothing | script.js:59-80 | an unparsable picked date makes `weekly` and `monthly` show nothing |
| Filter.MonthlyAndYearly | script.js:71-90 | `monthly` keeps exactly the records in the reference year and month; `yearly` keeps exactly those in the parsed year |
| Summary.Summarize | script.js:95-106 | the balance shown is total income minus total expense |
| Summary.BalanceIsSignedSum | script.js:100-106 | the balance is the sum of every counted amount, signed by its type, recurring items included |
| Summary.SummarizeAppend | script.js:95-106 | one more shown transaction moves income by its income amount and expense by its expense amount |
| Summary.SummarizeReplace | script.js:95-106 | replacing a shown transaction swaps its contribution for the new one's |
| Summary.SummarizeRemove | script.js:95-106 | removing a shown transaction takes away its contribution |
| Summary.PushTotals | script.js:350 | after `transactions.push(t)` the shown totals move by `t`'s amount when the filter keeps `t`, and stay put otherwise |
| Summary.ReplaceTotals | script.js:249 | after `transactions[i] = t` the shown totals lose the old record's amount if it was kept and gain `t`'s if `t` is kept |
| Summary.RemoveSum | script.js:398 | any per-record sum over the view loses the removed record's share after `splice(i, 1)` inside the list |
| Summary.RemoveTotals | script.js:398 | after `transactions.splice(i, 1)` at a position inside the list (what `SpliceOne` does there) the shown totals lose that record's amount if it was kept |
| Summary.SummarizeAddRecurring | script.js:365 | a new recurring item moves the totals by its amount, whatever the filter |
| Summary.SalaryAndRent | script.js:95-106 | a salary of 1000 and a recurring rent of 300 give 1000 / 300 / 700 |
| Csv.SplitRow | script.js:315 | the row split returns at least one piece, and joining the pieces with commas gives the row back |
| Csv.SplitRowCuts | script.js:315 | the first piece runs up to the first splitting comma (one followed by an even number of quotes), or is the whole row when there is none; the remaining pieces are the split of the rest after that comma |
| Csv.NextSeparator | script.js:315 | the first comma at or after a position that is followed by an even number of quotes, or none |
| Csv.RecurringOfFields | script.js:320-323 | a `Recurring` row is accepted exactly when it has a non-empty name and an amount that parses; the item has columns 2, 4, 5 |
| Csv.TransactionOfFields | script.js:324-326 | a `Transaction` row is accepted exactly when date and category are non-empty and the amount parses; the record has columns 1, 4, 3, 5 |
| Csv.NonBlank | script.js:313 | the filtered lines have no blank line, and they are empty exactly when every line was blank |
| Csv.NonBlankExactly | script.js:313 | the filter keeps the lines in order and keeps each non-blank line exactly as often as it occurs, and no blank line |
| Csv.RecurringBranch | script.js:320-323 | a row whose first field is `Recurring` yields no transaction, and an item exactly when its name is non-empty and its amount parses |
| Csv.TransactionBranch | script.js:324-326 | a row whose first field is `Transaction` yields no item, and a transaction exactly when date and category are non-empty and its amount parses |
| Csv.LinesAppend | script.js:286-294 | writing rows one after another is writing the concatenated rows |
| Csv.Encode | script.js:284-295 | the export text: the BOM, the header row, then one row per recurring item and one per transaction, each ended by a newline; what it reads back as is `RoundTrip.DecodeEncode` |
| Csv.ParseRow | script.js:315 | `parseCSVRow`: `SplitRow`, then `CleanField` on each piece; what it gives for exported rows is `RoundTrip.ReimportRecurring` and `RoundTrip.ReimportTransaction` |
| Csv.CleanField | script.js:315 | the quote strip followed by `trim()`; for an exported field this is `RoundTrip.QuotedFieldClean` |
| Csv.Decode | script.js:311-328 | the whole reader: the two refusals are `DecodeRefusals`, the rows read are `DecodeRows`, and the round trip is `RoundTrip.DecodeEncode` |
| Csv.DecodeRefusals | script.js:312-317 | the import is refused as empty exactly when every line is blank, and as malformed exactly when the first header field is not `RecordType` |
| Csv.DecodeStep | script.js:318-328 | each data row adds at most one record, to the collection of its kind, at the end |
| Csv.DecodeRows | script.js:318-328 | the row loop pushes exactly the accepted recurring items and transactions of rows 1.., in file order |
| RoundTrip.SplitOfJoin | script.js:315 | fields without newlines, each with no splitting comma and an even number of quotes, are split back exactly as they were joined |
| RoundTrip.QuotedFieldClean | script.js:315 | a quoted, quote-doubled field is cleaned to the trimmed doubled text |
| RoundTrip.ReimportRecurring | script.js:321-323 | an exported recurring item reads back, with its kind and amount, exactly when its doubled name is not all whitespace |
| RoundTrip.ReimportTransaction | script.js:324-326 | an exported transaction reads back, with date, kind and amount, exactly when its date is non-empty and its doubled category is not all whitespace |
| RoundTrip.DecodeEncode | script.js:284-328 | importing an export gives every recurring item, then every transaction, in order, each as the row reader sees it; refused records are dropped |
| RoundTrip.DecodeEncodeExact | script.js:284-328 | records whose name or category is non-empty, trimmed, and free of quotes and newlines come back exactly, commas included |
| RoundTrip.QuotedNameReimport | script.js:315-323 | a name holding a quote reads back doubled, which differs from the original |
| RoundTrip.QuotesComeBackDoubled | script.js:284-328 | items whose names hold quotes come back with every quote doubled |
| RoundTrip.QuoteBreaksRoundTrip | script.js:284-328 | an export holding such an item does not read back as itself |
| Merge.IndexOfKey | script.js:331-332 | the first position holding a key, or none exactly when no entry has it |
| Merge.PutKeys | script.js:331-332 | `Map.set` leaves the key order alone for a present key and appends a new one |
| Merge.PutShape | script.js:331-332 | on unique keys, `Map.set` keeps the length for a present key and grows it by one for a new key; the entry under the new key is the new record and every other entry stays where it was |
| Merge.Put | script.js:331-332 | `Map.prototype.set`; stated by `PutKeys` and `PutShape` |
| Merge.Dedup | script.js:331-332 | `[...new Map(xs.map(x => [key(x), x])).values()]`; stated by `KeysOfDedup`, `DedupLastWins`, `DedupFirstOrder` and `DedupUniqueKeys` |
| Merge.MergeImport | script.js:329-333 | old records followed by imported ones, deduplicated; stated by `ReimportChangesNothing` and `MergeNothing` |
| Merge.KeysOfDedup | script.js:331-332 | the merged keys are the input's distinct keys in order of first appearance |
| Merge.DedupUniqueKeys | script.js:331-335 | after the merge no two records share a key |
| Merge.DedupKeys | script.js:331-332 | exactly the keys of the input survive the merge |
| Merge.DedupLastWins | script.js:331-332 | every surviving record is the last input record with its key |
| Merge.DedupFirstOrder | script.js:331-332 | survivors are ordered by the first appearance of their keys in the input |
| Merge.DedupOfUnique | script.js:331-332 | a collection with unique keys passes through the merge unchanged |
| Merge.DedupIdempotent | script.js:331-332 | deduplicating a deduplicated collection changes nothing |
| Merge.DedupOfDoubled | script.js:331-332 | putting the same records through the map twice in a row gives what putting them through once does |
| Merge.ReimportChangesNothing | script.js:329-335 | importing into a merged collection exactly the records it holds leaves it unchanged |
| Merge.MergeNothing | script.js:329-335 | merging an empty import into a merged collection leaves it unchanged |
| Store.SpliceOne | script.js:398 | `array.splice(index, 1)`; stated by `SpliceOneAt`, `SpliceOnePastEnd` and `SpliceOneFromEnd` |
| Store.SpliceOneAt | script.js:398 | deleting at a position inside the list removes exactly that record and keeps all others in order |
| Store.SpliceOnePastEnd | script.js:398 | `splice` at or past the end removes nothing |
| Store.SpliceOneFromEnd | script.js:398 | a negative `splice` index counts back from the end |
| Store.WriteRows | script.js:287-294 | each `forEach` of the export adds every item's row, followed by a newline, to the text so far |
| Store.ReadImport | script.js:312-328 | the reader refuses an empty text and a wrong header exactly as `Decode` does, otherwise returns what `Decode` reads, with the count accepted before deduplication |
| Store.RecordStore.constructor | script.js:22-27 | the store starts with the loaded collections and nothing being edited |
| Store.RecordStore.AddTransaction | script.js:350 | `push` adds the new transaction at the end; nothing else changes |
| Store.RecordStore.AddRecurring | script.js:365 | `push` adds the new recurring item at the end; nothing else changes |
| Store.RecordStore.EditTransaction | script.js:238-241 | only the edited transaction index changes |
| Store.RecordStore.SaveTransaction | script.js:242-255 | only the record at the index is replaced, and edit mode ends |
| Store.RecordStore.CancelEditTransaction | script.js:256-259 | edit mode ends and nothing else changes |
| Store.RecordStore.EditRecurring | script.js:260-263 | only the edited recurring index changes |
| Store.RecordStore.SaveRecurring | script.js:264-277 | only the item at the index is replaced, and edit mode ends |
| Store.RecordStore.CancelEditRecurring | script.js:278-281 | recurring edit mode ends and nothing else changes |
| Store.RecordStore.DeleteTransaction | script.js:396-404 | once confirmed, `splice(index, 1)` is applied to the transactions; otherwise nothing changes |
| Store.RecordStore.DeleteRecurring | script.js:405-413 | once confirmed, `splice(index, 1)` is applied to the recurring items; otherwise nothing changes |
| Store.RecordStore.ExportToCsv | script.js:284-295 | the export text is the BOM, the header row, one row per recurring item, then one per transaction, each ended by a newline |
| Store.RecordStore.ImportFromCsv | script.js:311-336 | an empty text or a wrong header changes neither collection; otherwise each collection becomes the merge of old and imported records, and the count is the number of rows accepted |
| Store.RecordStore.MergeImported | script.js:329-333 | each collection becomes its old records followed by the imported ones, deduplicated by key |

## Left out

- DOM rendering, `innerHTML` templates, CSS classes, notifications and
  `setTimeout`. They are presentation only.
- `updateFilterUI` also shows and hides the two filter inputs, which is
  presentation only. What it writes into them is modelled by
  `Filter.FillFilterInputs`. The filter itself takes the two input values
  as parameters, so every value the user or `updateFilterUI` leaves there
  is covered.
- Filter.FillFilterInputs: it requires the clock's year to lie in 0..9999.
  For other years `toISOString()` writes a sign and six digits, which
  `Calendar.FormatIsoDate` does not produce.
- `localStorage` with `JSON.parse`/`stringify` (script.js:22-23, 33-36) is
  left out. The constructor takes the loaded collections; saving is not
  modelled.
- `FileReader`, `Blob`, `URL.createObjectURL` and the download link are
  left out. The export returns its text and the import takes the file's
  text. The early return when no file is chosen (script.js:309) and the
  reset of the file input are not modelled.
- `confirm()` is a boolean parameter of the delete handlers.
- Floating-point amounts are not modelled. Amounts are integers, so
  `parseFloat` reads no fraction, exponent or `Infinity`. Number-to-string
  has no decimal point. `toFixed(2)` on the totals, and the comparison of
  the balance with zero that only colours the display, are left out.
- Only the `YYYY-MM-DD` form of JS `Date` parsing is modelled, and other
  date formats are not. Time zones are not modelled: every `Date` is read in
  UTC. So `getDay()`, `getDate()` and `getMonth()` of a parsed date give its
  own day, and a picked date is never shifted to the day before. `new Date()`
  is the `now` parameter, a day and a time of day.
- Calendar.ParseIsoDate: a day past the end of its month, such as
  `2024-02-30`, is an invalid date here. JavaScript engines differ on whether
  they reject it or roll it over into the next month.
- Regular expressions are not modelled in general. Each of the four the
  script uses is modelled by a function of its own:
  - `/^\ufeff/` (script.js:312) by `Text.StripBom`;
  - the split lookahead `/,(?=(?:(?:[^"]*"){2})*[^"]*$)/` (script.js:315) by
    `Csv.NextSeparator` and `Csv.SplitRow`;
  - `/^"|"$/g` (script.js:315) by `Text.StripQuotes`;
  - `/"/g` in the export (script.js:288, 292) by `Text.EscapeQuotes`.
- Numbers.ParseLeadingInt: `parseInt` without a radix (script.js:82) also
  reads a `0x`/`0X` prefix as hexadecimal. The model reads decimal digits
  only, so a year box holding `0x7E8` reads as 0 here, not 2024.
- The sort by date in `renderTransactions` (script.js:126) is display order
  only and is left out.
- Store.RecordStore.SaveTransaction: it requires an index inside the list.
  The script assigns `transactions[index]` unchecked. An index at or past
  the end would grow a sparse array, which a `seq` cannot hold. The list
  passes only `findIndex` results of shown records, which `FindIndexOfMember`
  shows are valid.
- Store.RecordStore.SaveRecurring: it requires an index inside the list, for
  the same reason. The recurring list passes the item's own position.
- Store.RecordStore.AddTransaction and Store.RecordStore.AddRecurring take
  the new record as a value. The form fields are read outside the model, and
  a `NaN` amount from the form is not representable.
