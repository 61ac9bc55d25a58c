# Trading journal core, modelled in Dafny

The application is a trading journal. It reads closed trades from a published
Google Sheet, shows them on a calendar with one event per trading day, and
attaches screenshots taken during the trades. This project models the data
path behind that:

- **Sheet parser** (`SheetParser`, imports `Results`, `Digits`, `JsValues`,
  `Sequences`, `Trades`).
  - It finds the sheet id in the sheet's URL and builds the export URL.
  - It strips the Google Visualization callback wrapper from the response.
  - It turns the decoded table into `Trade` records. Each row is kept, skipped
    or throws, and the kept rows are numbered 0, 1, 2, ...
  - `TransformToTrades` is the row loop itself, proved equal to the reference
    function `Normalise`. The properties of the normaliser are proved about
    `Normalise`.
- **Daily aggregation** (`Calendar`). This is the part of the calendar page
  that groups trades by day and builds one record per day.
  - Each record holds the day's trades, the invested total, the net total and
    the profit percentage.
  - Each record becomes one calendar event.
  - `GroupByDay` is the accumulator loop (the `reduce` that fills an object),
    proved against `DistinctDays` and `TradesOn`.
- **Images route** (`ImagesRoute`). The directory listing is filtered by the
  case-insensitive, end-anchored extension pattern.
- **Image lookup** (`ImageUtils`). These are the listed names that start with the
  trade's `dd-MM-yyyy` day token and its symbol. A failed fetch, a non-2xx
  response or a body that is not a list gives no images; a date that cannot be
  formatted is outside the model (see "## Left out").
- **Shared modules.**
  - `Trades`: the trade record, `Trades.Trade`, field for field as declared in
    `src/app/Trade.ts:1-23`; `date`, `timeOfEntry` and `timeOfExit` are `Day` and
    `Stamp` values rather than `Date` objects, and `symbol` and the three
    free-text fields hold the raw cell, which the code assigns whatever its type
    although the record declares `string`.
  - `JsValues`: cell values and the JavaScript operations applied to them, such
    as truthiness, `Number(...)`, `+`, `indexOf`, and reading past the end of an
    array.
  - `Digits`: digit strings and zero padding.
  - `Sequences`: order-preserving filtering, with the positions of the kept
    elements as an independent description.
  - `Results`: `Option` and `Result`.

Behaviour of the code worth knowing, each stated as a lemma:

- **A row must pass three checks to be kept.** Its Date cell must be truthy.
  The Date cell must match the 3-number `Date(...)` pattern. Both time cells
  must match the 6-number pattern. A row that fails any check is skipped.
- **A non-string cell that reaches `.match` throws.** All three `.match` calls
  run before any result is checked. So a truthy Date cell next to a null or
  numeric time cell raises a TypeError, and the whole batch fails with "Failed
  to fetch trading data". The row is not skipped (`NonStringCellFailsBatch`).
- **An unrecognised sheet URL does not abort the fetch.** The fetch still goes
  ahead, to an export URL that contains the text `null` (`IdText`,
  `ExportUrlCarriesId`).
- **Days with no invested money get an infinite or NaN percentage.** There is
  no guard: the percentage is plus or minus Infinity when the net is not 0,
  and NaN when it is (`PercentOf`).
- **Both timestamps take the Date cell's day.** Only the clock time is taken
  from the time cells (`RenderedRowIsKept`).
- **A blank numeric cell is 0, a missing one is NaN.** `Number(null)` is 0, and
  a cell without a value is mapped to null first, so a blank cell gives 0
  (`BlankNumberIsZero`). Only a column that is not in the header, or a row too
  short to reach it, reads `undefined` and gives NaN (`MissingNumberIsNaN`).
- **`onWork` needs the text "TRUE".** A checked checkbox (the boolean `true`)
  or the text "true" gives false (`OptionalFields`).

JavaScript numbers are modelled as exact reals or NaN (`Number`).
A calendar day is the `(year, zero-based month, day)` triple that the Date cell
carries (`Day`).

## Model

| member | source | states |
|---|---|---|
| SheetParser.ExtractSheetId | src/app/utils/sheetParser.ts:32-36 | null exactly when no position holds `/spreadsheets/d/` followed by an id character; otherwise a non-empty id that is the maximal `[a-zA-Z0-9-_]` run after the first such marker |
| SheetParser.FirstHit | src/app/utils/sheetParser.ts:34 | the leftmost position from i where the marker is followed by an id character, with no such position before it; none if there is no such position |
| SheetParser.IdRunEnd | src/app/utils/sheetParser.ts:34 | the greedy `+` quantifier: every character up to the end is an id character and the next one is not |
| SheetParser.MaximalIdIsRunEnd | src/app/utils/sheetParser.ts:34 | a maximal id run ends where the greedy scan stops |
| SheetParser.ExtractFromSheetUrl | src/app/utils/sheetParser.ts:32-36 | a URL made of a prefix without `/s`, the marker, an id and a non-id character (or the end) yields exactly that id |
| SheetParser.ExportUrlCarriesId | src/app/utils/sheetParser.ts:15 | the id read back from the export URL is the sheet URL's id, or `null` when it had none |
| SheetParser.IdText | src/app/utils/sheetParser.ts:15 | the text `${sheetId}` interpolates: the id, or `null` when none was found |
| SheetParser.ExportUrl | src/app/utils/sheetParser.ts:15 | the export URL: the docs.google.com host, the marker, the id text, the gviz query and the sheet selector |
| SheetParser.StripEnvelope | src/app/utils/sheetParser.ts:21 | `substring(47).slice(0, -2)` has length max(0, n - 49) and is the text between the first 47 and the last 2 characters |
| SheetParser.StripWrapped | src/app/utils/sheetParser.ts:21 | a body between a 47-character header and a 2-character trailer is recovered exactly |
| SheetParser.FieldsOf | src/app/utils/sheetParser.ts:57-63 | the `(\d+),...,(\d+)\)` tail of a date pattern captures exactly n numbers |
| SheetParser.FirstPatternAt | src/app/utils/sheetParser.ts:57-63 | the leftmost position from i at which the n-number `Date(...)` pattern matches, with no match before it; none if it matches nowhere |
| SheetParser.MatchDate | src/app/utils/sheetParser.ts:57-63 | `.match` of the n-number pattern: null iff the pattern matches at no position; otherwise the n numbers captured at the leftmost match |
| SheetParser.FieldsOfRendered | src/app/utils/sheetParser.ts:57-63 | numbers written as digits joined by commas and closed by `)` read back as those numbers iff there are exactly n of them |
| SheetParser.MatchDateCellText | src/app/utils/sheetParser.ts:56-63 | a `Date(f1,...,fk)` cell matches the n-number pattern iff k = n, and then captures f1..fk |
| SheetParser.Captured | src/app/utils/sheetParser.ts:79-81 | the destructured captures of a cell always have the pattern's arity |
| SheetParser.RowData | src/app/utils/sheetParser.ts:43 | `row.c.map(cell => cell?.v ?? null)`: each cell's value, a cell without one read as null |
| SheetParser.Field | src/app/utils/sheetParser.ts:46-48 | `rowData[headers.indexOf(column)]`: the cell under the column's first header, `undefined` when the column is absent or the row is too short |
| SheetParser.Classify | src/app/utils/sheetParser.ts:50-76 | what the row callback does: return early for a falsy Date cell; throw when any of the three cells reaching `.match` is not a string; return early when the Date or either time pattern fails; else push a trade |
| SheetParser.NormaliseRow | src/app/utils/sheetParser.ts:100-126 | the built trade carries the id it is given |
| SheetParser.TransformToTrades | src/app/utils/sheetParser.ts:38-132 | the row loop returns TypeError when some row throws, and otherwise the kept rows' trades in feed order, the k-th with id k |
| SheetParser.Normalise | src/app/utils/sheetParser.ts:38-132 | the reference result of the row loop: TypeError if any row throws, else the kept rows normalised in order with ids 0, 1, 2, ... |
| SheetParser.NormalisedTrades | src/app/utils/sheetParser.ts:38-132 | without a throwing row the result is the kept rows at increasing positions, a row being used iff it is kept, with ids 0..k-1 |
| SheetParser.SkippedRowIsTransparent | src/app/utils/sheetParser.ts:50-76 | inserting a skipped row anywhere changes nothing in the outcome, including the ids |
| SheetParser.FalsyDateRowIsSkipped | src/app/utils/sheetParser.ts:50-53 | a row with a falsy Date cell is skipped and contributes nothing |
| SheetParser.ThrowingRowFailsBatch | src/app/utils/sheetParser.ts:57-63 | one throwing row anywhere fails the whole batch |
| SheetParser.NonStringCellFailsBatch | src/app/utils/sheetParser.ts:46-63 | a row with a truthy Date cell and any non-string (null, missing, number, boolean) among its Date and time cells fails the whole batch rather than being skipped |
| SheetParser.KeptPlusSkipped | src/app/utils/sheetParser.ts:42-129 | without a throwing row, trades plus skipped rows account for every row |
| SheetParser.RenderedRowIsKept | src/app/utils/sheetParser.ts:79-98 | a row with well-formed Date and time cells is kept; its date and both timestamps carry the Date cell's year, month and day, and each timestamp carries its own cell's hour, minute and second |
| SheetParser.WrongArityCellSkipsRow | src/app/utils/sheetParser.ts:57-76 | a Date cell with other than 3 numbers, or a "Time of entry" or "Time of exit" cell with other than 6, skips the row |
| SheetParser.OptionalFields | src/app/utils/sheetParser.ts:120-125 | a free-text field is never null or undefined; a null, undefined, "", 0 or false cell gives ""; a non-empty string, non-zero number or `true` is kept unchanged; onWork is true only for the string "TRUE", so false for the boolean `true` and for "true" |
| SheetParser.MissingNumberIsNaN | src/app/utils/sheetParser.ts:106-119 | a numeric field whose column is absent from the header, or beyond the end of the row, is NaN |
| SheetParser.BlankNumberIsZero | src/app/utils/sheetParser.ts:43 | a numeric field whose cell is null or has no value is 0, not NaN |
| SheetParser.DecodedTable | src/app/utils/sheetParser.ts:18-22 | the table decoded from the unwrapped response to the export URL; none when the request or the JSON decoding fails |
| SheetParser.FetchTradesFromSheet | src/app/utils/sheetParser.ts:4-30 | every failure after the URL is built ends in "Failed to fetch trading data"; success iff the unwrapped response decodes to a table with no throwing row, and then the trades are that table's normalisation |
| JsValues.IndexOf | src/app/utils/sheetParser.ts:46 | `indexOf`: -1 iff the label is absent, otherwise the first position holding it |
| JsValues.Truthy | src/app/utils/sheetParser.ts:51 | JavaScript truthiness of a cell: false for undefined, null, "", 0 and false |
| JsValues.OrEmpty | src/app/utils/sheetParser.ts:121-124 | a cell or-ed with the empty string: the cell when truthy, else "" |
| JsValues.StringToNumber | src/app/utils/sheetParser.ts:82 | `Number(s)` on a string: white space trimmed, empty gives 0, optional sign, digits with an optional fraction, anything else NaN |
| JsValues.ToNumber | src/app/utils/sheetParser.ts:106-119 | `Number(c)`: undefined gives NaN, null 0, a boolean 1 or 0, a number itself, a string by `StringToNumber` |
| JsValues.NumberOfDigits | src/app/utils/sheetParser.ts:82 | `Number` of any non-empty run of decimal digits, leading zeros included, is its decimal value, which is the value `FieldsOf` reads for each capture |
| Digits.DigitRunEnd | src/app/utils/sheetParser.ts:57 | the greedy `\d+`: digits up to the end of the run, and a non-digit or the end after it |
| Digits.ZeroPadded | src/app/utils/imageUtils.ts:5 | a digit string of at least the requested width whose value is the number |
| Calendar.DistinctDays | src/app/page.tsx:54-61 | the accumulator's keys: pairwise distinct, and a day is a key iff some trade falls on it |
| Calendar.FirstIndexOf | src/app/page.tsx:56-58 | the position of the trade that creates a day's key: the first trade on that day |
| Calendar.NoTradesOn | src/app/page.tsx:56-58 | a day that is not a key has no trades |
| Calendar.GroupByDay | src/app/page.tsx:54-61 | the reduce loop leaves keys = the distinct days in first-seen order, and each key's list = that day's trades in feed order |
| Calendar.TotalIsNaN | src/app/page.tsx:65-72 | a reduced sum is NaN iff some summed amount is NaN |
| Calendar.Total | src/app/page.tsx:65-72 | `reduce((sum, t) => sum + amount(t), 0)`: the left-to-right sum from 0 |
| Calendar.PercentOf | src/app/page.tsx:73 | `(net / invested) * 100`: a finite ratio r with r * invested = 100 * net iff both are finite and invested is not 0; +Infinity / -Infinity iff invested is 0 and net is positive / negative; NaN otherwise |
| Calendar.Performance | src/app/page.tsx:64-82 | one day's record: the day, its trades, the invested and net totals and the percentage |
| Calendar.PerformancesFor | src/app/page.tsx:64-82 | one record per listed day, in order, holding that day's trades and totals |
| Calendar.CalculateDailyPerformance | src/app/page.tsx:52-83 | the method's records are the reference `DailyPerformances` of the trades |
| Calendar.DailyPerformanceShape | src/app/page.tsx:52-83 | one record per distinct day in first-seen order, each non-empty, dates pairwise distinct, totals the sums of the record's own trades |
| Calendar.TradeInItsDay | src/app/page.tsx:54-61 | every trade is in the record of its own day, and a record holds only trades of its day |
| Calendar.DayKeepsFeedOrder | src/app/page.tsx:59 | a day's group is the feed at increasing positions, taking every trade of that day and no other |
| Calendar.FirstSeenOrder | src/app/page.tsx:64 | the days come in the order of their first trades |
| Calendar.FirstOfGroup | src/app/page.tsx:56-59 | a day's group starts with the day's first trade in the feed |
| Calendar.GroupsPartition | src/app/page.tsx:54-61 | the groups together hold every trade exactly once |
| Calendar.GroupTotalsAddUp | src/app/page.tsx:65-72 | the daily totals add up to the total over all trades |
| Calendar.DailyTotalsConserved | src/app/page.tsx:52-83 | the records hold every trade exactly once, and their invested and net figures add up to the totals over all trades |
| Calendar.PerformanceToEvents | src/app/page.tsx:86-98 | one event per record, in order, starting and ending on the record's date, carrying the record and its first trade (none for an empty record) |
| Calendar.EventTitle | src/app/page.tsx:90-92 | `Daily P&L: <percent>% ($<net>)`, with the number renderings given |
| Calendar.EventsOfTrades | src/app/page.tsx:86-98 | the events of the aggregated trades: one per distinct day, on that day, with the day's first trade in the feed and the day's trades |
| ImagesRoute.IsImageFile | src/app/api/images/route.ts:11 | the name ends with .png, .jpg or .jpeg up to ASCII case |
| ImagesRoute.IsImageFileIsRegexTest | src/app/api/images/route.ts:11 | the suffix test agrees with the regex read as a search: a match at any position must run to the end |
| ImagesRoute.CaseInsensitive | src/app/api/images/route.ts:11 | names that agree up to ASCII case are both kept or both dropped |
| ImagesRoute.AnchoredAtEnd | src/app/api/images/route.ts:11 | a name whose last character is not a `g` in either case is dropped |
| ImagesRoute.UpperCaseExamples | src/app/api/images/route.ts:11 | "X.PNG" and "y.JpEg" are kept |
| ImagesRoute.DroppedExamples | src/app/api/images/route.ts:11 | "a.png.bak" and "b.gif" are dropped |
| ImagesRoute.ImageFiles | src/app/api/images/route.ts:11 | a name is in the result iff it is listed and ends with .png, .jpg or .jpeg up to case |
| ImagesRoute.ImageFilesKeepOrder | src/app/api/images/route.ts:11 | the result is the listing at increasing positions, a position used iff its name is an image |
| ImagesRoute.Get | src/app/api/images/route.ts:5-21 | a readable directory gives status 200 and its image names; an unreadable one gives status 500 and the "Failed to read images directory" error |
| ImageUtils.DayToken | src/app/utils/imageUtils.ts:5 | `format(date, "dd-MM-yyyy")`: day, one-based month and year, zero-padded to 2, 2 and 4 digits, joined by dashes |
| ImageUtils.DayTokenShape | src/app/utils/imageUtils.ts:5 | for a day below 100, a one-based month below 100 and a year below 10000, the token is 10 characters `dd-MM-yyyy` whose fields read as the day, the one-based month and the year |
| ImageUtils.DayTokenRoundTrip | src/app/utils/imageUtils.ts:5 | the token of any day reads back as that day |
| ImageUtils.DayTokenInjective | src/app/utils/imageUtils.ts:5 | different days have different tokens |
| ImageUtils.ImagePrefix | src/app/utils/imageUtils.ts:19 | `${dateStr} - ${symbol} -`: the day token, " - ", the symbol as the template renders it, " -" |
| ImageUtils.FindTradeImages | src/app/utils/imageUtils.ts:4-25 | [] unless the fetch returns a 2xx response with a list of names; then a name is found iff it is listed and starts with `<dd-MM-yyyy> - <symbol> -` |
| ImageUtils.FoundImagesKeepOrder | src/app/utils/imageUtils.ts:18-20 | the found names are the listing at increasing positions, a position used iff its name has the prefix |
| ImageUtils.SymbolIsDelimited | src/app/utils/imageUtils.ts:19 | no name starts with the prefixes of two different symbols on the same day, provided neither symbol contains " -" ("AB" does not pick up "ABC"'s images) |
| ImageUtils.DayIsDelimited | src/app/utils/imageUtils.ts:19 | no name belongs to two trades on different ordinary days |
| ImageUtils.FoundImagesComeFromDirectory | src/app/utils/imageUtils.ts:10-20 | against the images route, the found names are the directory's image files that carry the trade's prefix, and none when the directory cannot be read |

## Left out

- **Network, file system and JSON decoding.** `fetch` with `response.text()`,
  `JSON.parse(...).table`, `fs.readdirSync`, and `response.json()` on the
  client are parameters or inputs: `fetchText`, `parseTable`, `listing` and
  `Fetched`. An error thrown by any of them is modelled as a value
  (`None`/`Thrown`). `console` logging is not modelled.
- **JavaScript `Date` arithmetic.** A day is the raw `(year, month0, day)`
  triple from the Date cell. These parts of `Date` are not modelled:
  - rollover of out-of-range parts (day 31 of a 30-day month becomes the
    next month's 1st);
  - the mapping of years 0-99 to 1900-1999;
  - the local time zone;
  - the `toDateString()` / `new Date(dateStr)` round trip. The model assumes
    it yields the same calendar day, so days are compared as triples.
- **The accumulator's key order.** `Object.entries` returns keys in insertion
  order. This holds for `toDateString()` keys because they are never
  integer-like strings.
- **Floating-point rounding.** Sums and the percentage are exact on reals.
  Signed zero, and Infinity read from a cell, are not represented.
- StringToNumber: `Number(...)` of exponent, hexadecimal, binary, octal and
  `Infinity` strings is NaN in the model rather than the number it denotes.
  Only plain decimals (optional sign, digits, optional fraction, surrounding
  white space) are read.
- **Number formatting is a parameter.** `toFixed(2)` on the percentage, the
  rendering of the net profit in the event title, and the rendering of a
  numeric symbol cell inside the image prefix are supplied by the caller
  (`percentText`, `amountText`, `numberText`).
- SheetParser.NormaliseRow: a row that is not kept gets zero captures. That
  value is never part of any result, because only kept rows are normalised.
- **The calendar page's UI.** Dialogs, the theme, and
  the other views and statistics on the page are not part of this model.
- **The trades saved in the browser.** The page saves the fetched trades with
  `localStorage.setItem("trades", JSON.stringify(...))` (`src/app/page.tsx:262`)
  and reads them back on load (`src/app/page.tsx:234-249`), rebuilding only
  `date` as a `Date`. That round trip is not modelled: the aggregator is given
  the trades the parser built. After a reload the timestamps stay strings, and
  a NaN amount comes back as `null`, which `sum + null` adds as 0. So after a
  reload a day total is finite where `Calendar.TotalIsNaN` says NaN.
- **Where the sheet URL comes from.** The page reads it from the
  `NEXT_PUBLIC_GOOGLE_SHEET_URL` environment variable (`src/app/page.tsx:255`);
  here it is a parameter.
- **The call site of `fetchTradesFromSheet`.** The page passes only the URL.
  The sheet selector is therefore the text `undefined`. The model takes the
  selector as a string parameter of `ExportUrl` and `FetchTradesFromSheet`.
- ImageUtils.DayTokenShape: stated only for days, months and years that fit
  their field widths. Wider numbers still round-trip (`DayTokenRoundTrip`),
  but they make the token longer.
- ImageUtils.SymbolIsDelimited: stated for symbols without the separator
  " -". A symbol that contains it can share names with a shorter symbol, which
  is how the source behaves.
- **String length units.** A Dafny string counts Unicode scalar values;
  `substring(47)` and `slice(0, -2)` count UTF-16 code units.
  `SheetParser.StripEnvelope` agrees with the code only when no surrogate pair
  falls in the first 47 or the last 2 code units, as holds for the ASCII
  callback wrapper.
- **Invalid dates.** A year beyond the range of JavaScript's `Date` (for
  example `Date(300000,0,1)`), or a captured numeral so long that `Number`
  gives Infinity, yields an Invalid Date. The model keeps the raw triple. In
  the code all such trades share the day key "Invalid Date" (`toDateString`,
  `src/app/page.tsx:55`), and `format` in `findTradeImages` throws before the `try`,
  so the promise rejects instead of resolving to `[]`. `FindTradeImages` and
  the `Calendar` grouping do not capture this.
- **Non-string entries in the directory listing.** Such an entry would make
  `startsWith` throw. A listing is a sequence of strings here.
