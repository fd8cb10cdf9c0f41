# Thailand earthquake visualizer: a verified model of its data pipeline

This project models in Dafny the part of the Thailand earthquake visualizer
that turns the Thai Meteorological Department's (TMD) earthquake listing
page into earthquake records, and proves properties of that model.

It covers two programs.

- **The batch scraper** (`scripts/fetch-earthquake-data.js`):
  - `parseTimeString` reads the observatory's date-time cells as Bangkok
    wall-clock time;
  - `parseHtmlTableData` picks the data table, maps its header cells to
    columns, decodes every row (magnitude, coordinates, depth, detail link
    and time), keeps the valid rows and sorts them newest first;
  - `convertToCSV` writes the CSV file.
- **The page script** (`script.js`):
  - its own `parseHtmlTableData`, which reads fixed cell positions as a
    `dd/mm/yyyy` date and an `hh:mm:ss` time in UTC, shifted by seven hours;
  - the attempt chain of `fetchEarthquakeData`: direct fetch, then two CORS
    proxies, then the embedded sample table;
  - the recent-events filter with its cut-off of 2025-03-28T12:00:00Z;
  - the magnitude colour and the magnitude class;
  - `getText` with its language fallback and placeholder substitution;
  - `cleanDescription`.

## How the model is built

- **Modules.** Each module follows one part of the programs:
  - `JsString`: the JavaScript string operations both programs use: `\s`,
    `trim`, `includes`, `indexOf`, `split`, `toLowerCase`, and leftmost
    regular-expression matches written as "the first position where the
    expression matches".
  - `JsNumber`: `parseFloat` and `Number` on strings.
  - `Calendar`: the proleptic Gregorian calendar and ECMAScript's
    `Date.UTC`, `MakeDay`, `MakeTime` and `TimeClip`.
  - `TimeString`: the scraper's `parseTimeString` and its Thai-time cell
    clean-up.
  - `TableLocator`: table choice and the column map.
  - `CellFields`: the field readers.
  - `TableDecoder`: row decoding and the scraper's `parseHtmlTableData`.
  - `Events`: the stable newest-first sort.
  - `CsvWriter`: the CSV file and a reader for its quoted fields.
  - `ChartTable`: the page script's table parser.
  - `FetchChain`: the page script's attempt chain.
  - `TimeFilter`: the recent-events filter.
  - `Palette`: colours and classes.
  - `Translate`: `getText`.
  - `Description`: `cleanDescription`.
- **Numbers.** A JavaScript number is `Num`: a finite real, an infinity or
  NaN. `parseFloat` is exact on decimals.
- **Dates.** An instant is an integer count of milliseconds since the
  epoch. `None` stands for an Invalid Date or `null`.
- **Imperative code.** Code that the source writes as state changing
  stays imperative:
  - the table scans (`dataTable`/`mostRows`);
  - the `columnMap` object, which is a class whose fields are assigned in
    place;
  - the row loop that pushes onto `earthquakes`;
  - the CSV loop appending to `csvContent`;
  - the placeholder loop of `getText`;
  - the nested `try` blocks of `fetchEarthquakeData`.

  Each of these methods is proved equal to a function of its inputs, and
  the properties are proved about that function.
- **Parameters.** What lies outside the programs is a parameter:
  - the browser's or jsdom's HTML parser: a document is given as its list
    of tables (and, for the scraper, the tables a re-parse of the body
    would find);
  - the network: `fetch` maps each source to an outcome;
  - JavaScript's `new Date(string)`: the fallback `native`;
  - number-to-string conversion and `toISOString`: `number` and `iso`
    in the CSV writer.

## Model

| member | source | states |
|---|---|---|
| TimeString.ParseTimeString | scripts/fetch-earthquake-data.js:13-52 | a date part holding a `yyyy-MM-dd` or `dd/MM/yyyy` date but not exactly 19 characters long gives null; a success on an ISO-dated part is the Bangkok instant of a valid wall clock |
| TimeString.ReadLayout | scripts/fetch-earthquake-data.js:31-36 | a fixed Luxon layout reads a wall clock exactly when the text is 19 characters that match the layout slot by slot |
| TimeString.FromLayout | scripts/fetch-earthquake-data.js:32-45 | a layout parse succeeds only with a valid wall clock, read in Asia/Bangkok (UTC+7) |
| TimeString.DateTimePart | scripts/fetch-earthquake-data.js:16-22 | the date part has no white space at either end, its only white space is single plain spaces, and it holds no `UTC` or `GMT` |
| TimeString.DateTimePartOfCollapse | scripts/fetch-earthquake-data.js:16 | a text has the date part and the parsed time of its collapsed form: a run of spaces, tabs or line breaks reads as one space |
| TimeString.FirstUtcOrGmt | scripts/fetch-earthquake-data.js:20-21 | the split point is the leftmost `UTC` or `GMT`, and none occurs before it |
| TimeString.ReadIsoText | scripts/fetch-earthquake-data.js:32 | reading `yyyy-MM-dd HH:mm:ss` back from the rendered text of a wall clock gives that wall clock |
| TimeString.ParseIsoText | scripts/fetch-earthquake-data.js:13-52 | for every valid wall clock, its ISO text parses to the wall clock's instant at UTC+7 |
| TimeString.ParseIgnoresFromMarker | scripts/fetch-earthquake-data.js:20-22 | for any text whose collapsed form holds no `UTC`/`GMT`, appending a marker and anything after it (`…05:38:57UTC`, `… GMT+7`) does not change the parsed time |
| TimeString.DateTimePartSuffix | scripts/fetch-earthquake-data.js:16-22 | for any text whose collapsed form holds no `UTC`/`GMT`, the text followed by a marker and anything after it has the text's own date part |
| TimeString.CleanedWithoutMarker | scripts/fetch-earthquake-data.js:16-22 | when the collapsed text holds no marker, the date part is the whole collapsed text, trimmed |
| JsString.CollapseIsCollapsed | scripts/fetch-earthquake-data.js:16 | after `replace(/\s+/g, ' ')` every white-space character is a plain space and no two are adjacent, so collapsing twice is collapsing once |
| TimeString.ThaiDateTime | scripts/fetch-earthquake-data.js:209-223 | the Thai-time part of a date cell is trimmed and never longer than the cell |
| TimeString.ThaiDateTimeOfPair | scripts/fetch-earthquake-data.js:209-223 | in a cell `<local> <UTC> UTC` with two ISO timestamps, the first (local) timestamp is kept |
| TimeString.ExampleCellTime | scripts/fetch-earthquake-data.js:209-259 | the cell `2025-03-29 05:38:57 2025-03-28 22:38:57 UTC` keeps `2025-03-29 05:38:57`, which parses to 1743201537000 ms (2025-03-28T22:38:57Z) |
| Calendar.BangkokInstant | scripts/fetch-earthquake-data.js:32 | a Bangkok wall clock is 7 hours ahead of its UTC instant |
| Calendar.BangkokTimeOfDay | scripts/fetch-earthquake-data.js:32 | the instant of a Bangkok wall clock, shifted by 7 hours, falls at that wall clock's time of day |
| Calendar.DayNumberNextMonth | scripts/fetch-earthquake-data.js:32 | day numbers run on without a gap from the last day of a month to the first of the next, and across the year end |
| Calendar.TimeClip | script.js:374-377 | a `Date` holds an instant exactly when it lies within 8.64e15 ms of the epoch |
| Calendar.DateUtc | script.js:374 | `Date.UTC` gives a value only when all six fields are finite numbers |
| TableLocator.TablesToScan | scripts/fetch-earthquake-data.js:63-82 | the document's tables are scanned, or the re-parsed body's tables when there are none; no tables at all is the error "No tables found" |
| TableLocator.PreferredTable | scripts/fetch-earthquake-data.js:84-110 | no table is chosen exactly when no table looks like data; otherwise the chosen table looks like data, no such table has more rows, and earlier ones have fewer |
| TableLocator.LargestTable | scripts/fetch-earthquake-data.js:112-122 | the fallback picks the first table with the most rows, and none when every table is empty |
| TableLocator.SelectTable | scripts/fetch-earthquake-data.js:84-127 | a data-looking table wins; failing that the largest non-empty table; failing that the error "No suitable table found" |
| TableLocator.ScanStep | scripts/fetch-earthquake-data.js:88-110 | each step of the scan keeps its candidate the first largest acceptable table so far |
| TableLocator.LooksLikeDataByCoordinates | scripts/fetch-earthquake-data.js:95-104 | the magnitude test adds nothing to the coordinate test: a table looks like data exactly when its second row has five cells and one of them passes the coordinate test |
| TableLocator.MagnitudeShapeHasDecimal | scripts/fetch-earthquake-data.js:97-102 | every cell that passes the magnitude test also passes the coordinate test |
| TableLocator.Classify | scripts/fetch-earthquake-data.js:150-166 | a header names the date column exactly when it holds `วัน`, `origin time` or `date`; a header classified as any other column holds neither `date` nor `origin time` |
| TableLocator.ClassifyFirstNamed | scripts/fetch-earthquake-data.js:152-166 | a header is classified as a field exactly when it holds one of that field's keywords and none of an earlier field in the chain (date, magnitude, latitude, longitude, depth, phases, region); it is classified as nothing exactly when it holds no keyword |
| TableLocator.LastHeader | scripts/fetch-earthquake-data.js:149-167 | a column's index is the last header classified as it; no later header is |
| TableLocator.ColumnMap.Set | scripts/fetch-earthquake-data.js:153-165 | assigning one column of the map changes only that column |
| TableLocator.ColumnMap.FillDefaults | scripts/fetch-earthquake-data.js:170-176 | every column still at -1 takes its default position (0 to 6); the others keep theirs |
| TableLocator.BuildColumnMap | scripts/fetch-earthquake-data.js:138-176 | the built map holds, for every column, the last matching header or else its default index |
| TableLocator.ColumnIndexIs | scripts/fetch-earthquake-data.js:149-167 | the last header classified as a column is that column's index |
| TableLocator.ColumnIndexDefault | scripts/fetch-earthquake-data.js:170-176 | a column no header names gets its default index |
| TableLocator.StandardHeadersIdentity | scripts/fetch-earthquake-data.js:138-176 | the observatory's own headers (`Origin Time` … `Region`) map every column to its default position |
| CellFields.Magnitude | scripts/fetch-earthquake-data.js:225-234 | the magnitude read from a cell is NaN or a finite number that is never negative |
| CellFields.MagnitudeStrong | scripts/fetch-earthquake-data.js:227-229 | a number in `<strong>…</strong>` is the magnitude, even when another decimal comes first |
| CellFields.MagnitudeDecimal | scripts/fetch-earthquake-data.js:231-233 | in a cell with no `<` (so no `<strong>` group) whose first digit starts `digits.digits`, followed by anything but a digit, that decimal is the magnitude |
| CellFields.MagnitudeInteger | scripts/fetch-earthquake-data.js:233 | a cell of bare digits reaches the last fallback and reads as its integer |
| CellFields.Coordinate | scripts/fetch-earthquake-data.js:236-241 | a coordinate is NaN or a non-negative number, and NaN when the cell holds no digit or full stop |
| CellFields.CoordinateOf | scripts/fetch-earthquake-data.js:237-241 | `digits.digits` followed by anything that is not a digit or a full stop reads as that decimal |
| CellFields.CoordinateIgnoresHemisphere | scripts/fetch-earthquake-data.js:237-241 | `°S` reads as `°N` and `°W` reads as `°E`: southern and western positions are not negated |
| CellFields.ExampleLatitude | scripts/fetch-earthquake-data.js:237-238 | `18.856°N` reads as 18.856 |
| CellFields.Depth | scripts/fetch-earthquake-data.js:243-245 | a depth is NaN exactly when the cell holds no digit, and is never negative |
| CellFields.DepthInteger | scripts/fetch-earthquake-data.js:244-245 | a depth cell of digits followed by units reads as that integer |
| CellFields.DetailLink | scripts/fetch-earthquake-data.js:247-256 | a link that is not empty is the site prefix followed by characters other than `'` |
| CellFields.DetailLinkOf | scripts/fetch-earthquake-data.js:249-255 | `window.open('p')` gives the site prefix followed by `p` |
| TableDecoder.DecodeRow | scripts/fetch-earthquake-data.js:183-281 | a row gives an earthquake exactly when it is accepted: at least five cells, finite latitude, longitude and magnitude, and a parsed time. Title and description are the region cell; the link, time, latitude, longitude, magnitude and depth are those read from the row's cells |
| TableDecoder.ReadRow | scripts/fetch-earthquake-data.js:184-281 | reading a row through the column map gives the decoded row |
| TableDecoder.Kept | scripts/fetch-earthquake-data.js:180-273 | every kept earthquake is the decoding of one of the rows |
| TableDecoder.KeptComplete | scripts/fetch-earthquake-data.js:262-273 | every row that decodes is kept |
| TableDecoder.DecodeDataRows | scripts/fetch-earthquake-data.js:180-285 | the row loop pushes exactly the decodings of the rows after the header, in row order |
| TableDecoder.ParseHtmlTableData | scripts/fetch-earthquake-data.js:56-296 | no tables and no suitable table give their errors; otherwise the result is the decoding of the selected table |
| TableDecoder.KeptSorted | scripts/fetch-earthquake-data.js:287-291 | nothing is kept exactly when no row decodes; the sorted result is non-empty, newest first, a permutation of the kept rows, and made only of decoded rows |
| TableDecoder.TableResult | scripts/fetch-earthquake-data.js:183-291 | a table fails with "No valid earthquake data" exactly when no data row is accepted; otherwise the result is non-empty, newest first, a permutation of the accepted rows, each the decoding of one data row |
| TableDecoder.NoneDecodedIff | scripts/fetch-earthquake-data.js:262-289 | no data row decodes exactly when no data row is accepted |
| Events.Insert | scripts/fetch-earthquake-data.js:291 | inserting one earthquake adds exactly it to the collection |
| Events.SortNewestFirst | scripts/fetch-earthquake-data.js:291 | sorting keeps exactly the same earthquakes |
| Events.InsertNewestFirst | scripts/fetch-earthquake-data.js:291 | insertion keeps a newest-first list newest first |
| Events.SortIsNewestFirst | scripts/fetch-earthquake-data.js:291 | the comparator `b.time - a.time` orders the list newest first |
| Events.InsertStable | scripts/fetch-earthquake-data.js:291 | insertion keeps earthquakes of equal time in their order |
| Events.SortStable | scripts/fetch-earthquake-data.js:291 | earthquakes with equal times keep their input order, as in the stable `Array.prototype.sort` |
| Events.SortKeepsSorted | scripts/fetch-earthquake-data.js:291 | a list that is already newest first is left as it is |
| CsvWriter.Escape | scripts/fetch-earthquake-data.js:324-325 | escaping never shortens a text and leaves a text without `"` unchanged |
| CsvWriter.Quote | scripts/fetch-earthquake-data.js:324-325 | a quoted field starts and ends with `"` |
| CsvWriter.ReadEscaped | scripts/fetch-earthquake-data.js:324-325 | a reader of quoted fields reads back the text from its doubled-quote escaping |
| CsvWriter.QuoteRoundTrip | scripts/fetch-earthquake-data.js:324-325 | reading a quoted field gives back the original title or description, whatever follows it |
| CsvWriter.RowTitle | scripts/fetch-earthquake-data.js:324-338 | each row starts with the earthquake's title, which reads back exactly |
| CsvWriter.RowDescription | scripts/fetch-earthquake-data.js:325-338 | each row ends with the quoted description and a newline |
| CsvWriter.FormatRow | scripts/fetch-earthquake-data.js:321-338 | a row is its eight fields joined by commas with a newline |
| CsvWriter.ConvertToCsv | scripts/fetch-earthquake-data.js:299-342 | no earthquakes is the error "No earthquake data"; otherwise the text is the header line followed by one row per earthquake, in order |
| CsvWriter.RowsAppend | scripts/fetch-earthquake-data.js:320-339 | the rows of two lists, one after the other, are the rows of the joined list |
| ChartTable.ReadRow | script.js:359-387 | a row parses exactly when it has at least seven cells; its date is 25,200,000 ms after its UTC date; the location is the seventh cell, trimmed |
| ChartTable.ReadRows | script.js:359-388 | the rows parse exactly when each has seven cells, and then each gives its reading, in order |
| ChartTable.ParseChartTable | script.js:353-389 | the parse fails (throws) exactly when the page has no table or a row after the first has fewer than seven cells; otherwise each row after the first gives, in order, the reading `ReadRow` gives it |
| ChartTable.ThaiDate | script.js:377 | the Thai date is the UTC date plus seven hours, and exists whenever that sum is a valid time value |
| ChartTable.DateOfDigits | script.js:370-374 | `dd/mm/yyyy` and `hh:mm:ss` in digits give the UTC instant of that wall clock, for years 100 to 9999 |
| ChartTable.NoSlashNoDate | script.js:370-377 | a date cell without `/` gives an invalid date and an invalid UTC date |
| ChartTable.BatchLayoutCellHasNoDate | script.js:457-466 | the sample table's date cells (`yyyy-MM-dd HH:mm:ss yyyy-MM-dd HH:mm:ss UTC`) are read with invalid dates, and the magnitude is taken from the sixth cell |
| FetchChain.Chain | script.js:252-290 | on GitHub Pages the chain leaves out the direct fetch; elsewhere it has it; the backup proxy is always the last source |
| FetchChain.FetchEarthquakeData | script.js:245-350 | the sources asked and the result are those of the attempt chain |
| FetchChain.AttemptedShape | script.js:255-335 | the sources asked are a prefix of the chain; all but the last failed; the last is the first ok answer unless the chain ran out; the text kept is its body |
| FetchChain.FirstBodyIsFirstAnswer | script.js:255-335 | no text is kept exactly when every source fails |
| FetchChain.PagesSkipDirect | script.js:252-290 | on GitHub Pages the direct fetch is never tried; elsewhere it is tried first |
| FetchChain.AllFailedUsesSample | script.js:277-332 | when every source fails, all of them were asked and the sample is parsed |
| FetchChain.EmptyAnswerUsesSample | script.js:338-348 | an ok answer with an empty body stops the chain and the sample is parsed |
| FetchChain.AnswerUsed | script.js:338-343 | a non-empty answer that parses is the result |
| FetchChain.ResolvesWithSample | script.js:338-348 | the call rejects exactly when the sample does not parse and the answer is missing, empty or does not parse |
| TimeFilter.Filtered | script.js:202-209 | with the filter `all`, or with no data, the data is returned; otherwise the recent events are |
| TimeFilter.Recent | script.js:208 | the recent events are data records whose time is after 2025-03-28T12:00:00Z |
| TimeFilter.RecentComplete | script.js:208 | every record after the cut-off is kept |
| TimeFilter.RecentAppend | script.js:208 | filtering keeps the order of the records |
| TimeFilter.FilterKeepsExactlyRecent | script.js:202-208 | under the recent filter, a record is shown exactly when its time is after the cut-off |
| TimeFilter.NoTimeNoneRecent | script.js:208 | records without a `time` field, as the page's own parser builds them, are all filtered out |
| Palette.ColorByMagnitude | script.js:787-793 | one of the five colours; NaN is minor green |
| Palette.ColorBands | script.js:787-793 | red exactly from 7, orange on [5, 7), yellow on [4, 5), light green on [3, 4), green below 3 |
| Palette.ColorsDistinct | script.js:788-792 | the five bands have five different colours |
| Palette.MagnitudeClass | script.js:799-800 | one of the three classes |
| Palette.ClassBands | script.js:799-800 | high exactly from 6, medium on [5, 6), low below 5 and for NaN |
| Translate.Lookup | script.js:191 | no text exactly when the current language is missing, or has no entry and English is missing; a non-empty key never gives an empty text |
| Translate.FallbackChain | script.js:191 | the current language's text, else the English text, else the key itself |
| Translate.ReplaceFirst | script.js:195 | `String.prototype.replace` with a string pattern replaces the first occurrence only, and leaves a text without it unchanged |
| Translate.ReplaceFirstAt | script.js:195 | the first occurrence is replaced in place, with the text around it kept |
| Translate.SecondOccurrenceKept | script.js:194-196 | a second occurrence of a placeholder stays in the text |
| Translate.GetText | script.js:190-199 | the looked-up text with each parameter substituted in turn, or nothing when the lookup fails |
| Description.StripCdata | script.js:435 | removing the CDATA markers never lengthens the text and leaves a text without `<` or `]` unchanged |
| Description.BreaksToSpaces | script.js:436 | replacing `<br>` never lengthens the text and leaves a text without `<` unchanged |
| Description.CleanDescription | script.js:431-438 | the result has no white space at either end, and a missing or empty description gives `''` |
| Description.NoBreakLeft | script.js:436 | after the `<br>` pass no `<br>` remains |
| Description.CleanedHasNoBreak | script.js:431-438 | a cleaned description never holds `<br>` |
| Description.PlainTextUnchanged | script.js:431-438 | a trimmed text without `<` and `]` is its own clean description |
| Description.SinglePassLeavesMarker | script.js:435 | one left-to-right pass can leave a marker: `]<![CDATA[]>` becomes `]]>` |
| JsNumber.ParseFloat | scripts/fetch-earthquake-data.js:229-245 | `parseFloat` is NaN exactly when the text, after leading white space, does not begin a number |
| JsNumber.ParseFloatDecimal | scripts/fetch-earthquake-data.js:229-245 | `parseFloat` of `digits.digits` followed by a non-digit is that decimal |
| JsNumber.DecimalPrefixInteger | scripts/fetch-earthquake-data.js:233-245 | a run of digits reads as its integer and is consumed whole |
| JsNumber.StringToNumber | script.js:370-371 | `Number` of blank text is 0, and of text that neither starts a number nor starts with `0` (a radix prefix) is NaN |
| JsNumber.StringToNumberDigits | script.js:370-371 | `Number` of digits is their integer |

## Left out

- HTML parsing (jsdom, `DOMParser`, `querySelectorAll`, `textContent`) is
  not modelled. A document is given as its tables, each table as its rows,
  each row as its `th` and `td` texts and its `onclick` attribute. The
  body re-parse of the scraper is a second list of tables.
- The network is not modelled. `fetch`, `node-fetch`, response status and
  `.text()` are one outcome per source: failed, or ok with a body. A
  `.text()` that throws counts as failed, since it lands in the same
  `catch`.
- The browser's HTML parser is the parameter `dom`. The embedded sample
  is a parameter string.
- Console logging, `await` and promise scheduling are not modelled.
- File writes, `JSON.stringify` and `process.exit` in the scraper's main
  function are I/O and are not modelled.
- D3 rendering is not modelled: `renderTimeline`, `initializeTimeline`,
  zoom and tooltips. Nor are the DOM
  language switch, button state and `localStorage`; the current language
  and the current filter are parameters.
- TimeString.ParseTimeString: the last fallback, JavaScript's
  `new Date(string)`, is the parameter `native`; its parsing rules are not
  modelled.
- Luxon is not modelled beyond the two fixed layouts and calendar validity.
  Asia/Bangkok is a fixed UTC+7, so the local mean time Bangkok used before
  1920 is not modelled.
- Number-to-string conversion and `toISOString` in `convertToCSV` are the
  parameters `number` and `iso`. The CSV text is exact up to those
  renderings.
- JsNumber.ParseFloat: IEEE-754 rounding is not modelled; decimals are
  exact reals. A literal `Infinity` is read, but a decimal too large for a
  double is not turned into infinity. The same holds for
  JsNumber.StringToNumber.
- Translate.GetText: `$` patterns in replacement values
  (`$&`, `$1`, …) are not modelled; the value is inserted literally.
  Object prototype keys and `params` of other shapes are not modelled.
- `null` and `undefined` inputs are modelled for `cleanDescription`, which
  takes an optional text, and for missing cells, which are absent texts.
- TimeFilter.Filtered: the `!allEarthquakeData` test at line 203 of
  `script.js` is not modelled; the data is always a list, so a `null` data
  set (returned as it is) is not covered.
- CsvWriter.ConvertToCsv: the `!earthquakes` test at line 300 of
  `scripts/fetch-earthquake-data.js` is modelled for the empty list only;
  a `null` or `undefined` argument is not covered.
- The scraper's own `getSampleEarthquakeData` text, the browser
  `parseTimeString` (never called) and `formatDate`,
  `showEarthquakeDetails` and `updateLastUpdateTime` (rendering) are not
  modelled.

## Behaviour of note

- **Two timestamps in one cell.** The date cell is split only at white
  space before a second date (line 222 of
  `scripts/fetch-earthquake-data.js`). With a space between them, the
  first timestamp is kept (TimeString.ThaiDateTimeOfPair). Without one, no
  split happens; the part is then longer than 19 characters, so the time
  is null (the first ensures of TimeString.ParseTimeString).
- **Empty answers.** An ok response with an empty body ends the attempt
  chain, and the sample table is parsed at once
  (FetchChain.EmptyAnswerUsesSample).
- **Exhausted chain.** When every source fails, the sample table is
  parsed, and if it does not parse the call rejects
  (FetchChain.ResolvesWithSample).
- **The sample and the page parser.** The page script's embedded sample
  has the observatory's layout: a two-timestamp date cell and the
  magnitude in the second column. The page's own parser expects a
  `dd/mm/yyyy` date, an `hh:mm:ss` time and the magnitude in the sixth
  column. So every sample reading has an invalid date, and its magnitude
  is the phase count (ChartTable.BatchLayoutCellHasNoDate).
- **The recent filter.** The page parser's records have `date` but no
  `time`, so the recent filter drops all of them
  (TimeFilter.NoTimeNoneRecent).
