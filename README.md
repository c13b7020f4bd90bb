# Community dashboard: CSV normaliser and sidebar highlighting

The dashboard shows four community programmes (a movie screening, a health
screening, an art event and a house-numbering drive). Each programme's
figures come from a spreadsheet published as CSV. This project models, in
Dafny, two parts of the dashboard:

- **The CSV normaliser** (`src/utils/csvUtils.ts`). Each parser takes the
  text of an export and turns it into a record. The steps are:
  - trim the text and split it into lines;
  - split the header line and the value lines on commas;
  - trim each cell and strip its double quotes;
  - coerce each cell by its header's rule: a base-10 `parseInt`,
    `parseFloat` with a text fallback, or `parseInt` defaulting to 0;
  - return a fallback record when there are fewer than two lines.

  The movie, health and house parsers read one value line. Their result is
  the untyped object built by the `headers.forEach` loop, cast to the
  report's interface without any check. The art parser reads every value
  line: the first gives the main event and the rest give the sub-events.
  Each of their fields gets a `|| default`.
- **The active-route rule of the sidebar**
  (`src/components/AppSidebar.tsx`): `isActive` and `getNavCls`, which
  decide which menu entry is highlighted for the current location.

The model has four modules:

- `JsString` (`js_string.dfy`) models the string built-ins the code uses:
  `trim`, `replace(/"/g, '')`, `split` on a single character and
  `startsWith`. `Join` is the inverse of `split` and is used only in the
  proofs.
- `JsNumber` (`js_number.dfy`) models `parseInt` with and without a radix
  (the ECMAScript algorithm, including the `0x` prefix when no radix is
  given), `parseFloat`, and `String(n)` for integers. A JavaScript number is
  `Val(real)` or `NaN`.
- `CsvUtils` (`csv_utils.dfy`) models cell cleaning, the coercion rules of
  each report, the `headers.forEach` loop and the art event's loop over
  lines as methods with loop invariants, and the four parsers with the text
  of the export as their input.
- `AppSidebar` (`app_sidebar.dfy`) models the menu URLs, `isActive` and
  `getNavCls`.

A single-row record is a `map<string, Cell>`, where a cell is a number or a
text. A field whose header does not appear in the export is absent. The
art parser returns typed records (`ArtEvent`, `ArtSubEvent`).

A single-row parser stores only the headers present in the export, so a
parsed record can lack fields its interface declares
(`CsvUtils.ParsedRecordCanLackFields`). Only the art parser strips double
quotes from header cells; the other parsers only trim them
(`CsvUtils.QuotedHeader`).

## Model

| member | source | states |
|---|---|---|
| JsString.Trim | src/utils/csvUtils.ts:62 | the trimmed cell starts and ends with a non-white character (or is empty) and is no longer than the cell |
| JsString.TrimStartShape | src/utils/csvUtils.ts:62 | `trim` removes only white space at the start: what it drops there is a white prefix and the text after it is kept unchanged |
| JsString.TrimEndShape | src/utils/csvUtils.ts:62 | `trim` removes only white space at the end: what it drops there is a white suffix |
| JsString.TrimOfPadded | src/utils/csvUtils.ts:62 | `trim` of white space, a trimmed core and white space is exactly that core, so the trimmed cell is determined uniquely |
| JsString.TrimIdempotent | src/utils/csvUtils.ts:62 | trimming a trimmed cell changes nothing |
| JsString.RemoveQuotes | src/utils/csvUtils.ts:62 | after `replace(/"/g, '')` no double quote is left and the text is no longer |
| JsString.RemoveQuotesKeepsOthers | src/utils/csvUtils.ts:62 | every character other than the double quote is kept exactly as many times as it occurs |
| JsString.RemoveQuotesConcat | src/utils/csvUtils.ts:62 | quote removal works piece by piece: removing from a concatenation is concatenating the removals |
| JsString.RemoveQuotesUnquoted | src/utils/csvUtils.ts:62 | a text without double quotes is left unchanged |
| JsString.Split | src/utils/csvUtils.ts:83 | `split` gives at least one piece and no piece holds the separator; `JsString.JoinSplit` and `JsString.SplitJoin` make it the inverse of `Join` |
| JsString.JoinSplit | src/utils/csvUtils.ts:83 | joining the pieces of `split` with the separator gives the text back |
| JsString.SplitJoin | src/utils/csvUtils.ts:96 | splitting a join of separator-free pieces gives back the pieces |
| JsString.SplitCount | src/utils/csvUtils.ts:96 | `split` gives one more piece than there are separators |
| JsString.SplitSingle | src/utils/csvUtils.ts:83-84 | the text splits into a single piece exactly when it holds no separator |
| JsString.StartsWith | src/components/AppSidebar.tsx:41 | `startsWith` holds exactly when the argument is a prefix of the text |
| JsNumber.ParseInt | src/utils/csvUtils.ts:66 | `parseInt` returns a whole number or NaN; in base 10 it returns NaN exactly when no digit follows the leading white space and the sign |
| JsNumber.ParseFloat | src/utils/csvUtils.ts:68 | `parseFloat` returns NaN exactly when no decimal literal (a digit, or a point and a digit) follows the leading white space and the sign |
| JsNumber.ParseIntDecimalPrefix | src/utils/csvUtils.ts:66 | `parseInt(String(n) + rest, 10)` is `n` whenever `rest` does not start with a digit |
| JsNumber.ParseIntNoRadixPrefix | src/utils/csvUtils.ts:75 | without a radix the same holds, unless `n` is 0 and `rest` starts with `x` |
| JsNumber.ParseSignedDigits | src/utils/csvUtils.ts:66-68 | white space, an optional `+` or `-` and decimal digits followed by a non-digit are read as the signed value of the digits by base-10 `parseInt`; radix-less `parseInt` reads the same unless the digits are a lone `0` followed by `x`; `parseFloat` reads the same unless a point or an exponent follows |
| JsNumber.DigitsValueLeadingZeros | src/utils/csvUtils.ts:66 | leading zeros do not change the value of the digits, so `007` and `7` are read alike |
| JsNumber.ParseIntHexPrefix | src/utils/csvUtils.ts:75 | without a radix, `"0x"` followed by hexadecimal digits is read in base 16 |
| JsNumber.ParseFloatIntegerPrefix | src/utils/csvUtils.ts:68 | `parseFloat(String(n) + rest)` is `n` whenever `rest` cannot continue a decimal literal |
| CsvUtils.Clean | src/utils/csvUtils.ts:62 | no contract; the cleaning step `value.trim().replace(/"/g, '')`, described by `JsString.Trim`, `JsString.RemoveQuotes` and `CsvUtils.QuotedDocument` |
| CsvUtils.ParseNumericValue | src/utils/csvUtils.ts:61-72 | with `isInt` the result is NaN or a whole number |
| CsvUtils.ParseIntegerValue | src/utils/csvUtils.ts:74-77 | the result is NaN only when the default is NaN, and otherwise a whole number or the default |
| CsvUtils.ParseCellIntegerPrefix | src/utils/csvUtils.ts:61-77 | a cleaned cell that starts with the integer `n` is read as `n` by `parseNumericValue`, and also by `parseIntegerValue` unless it is `0x…` |
| CsvUtils.ParseCellSignedDigits | src/utils/csvUtils.ts:61-77 | a cleaned cell that starts with white space, a sign and digits, such as `007`, `+5` or `-007`, is read as the signed value of its digits by `parseNumericValue`, and also by `parseIntegerValue` unless the digits are a lone `0` followed by `x` |
| CsvUtils.ParseCellQuotedSignedDigits | src/utils/csvUtils.ts:61-77 | a quoted cell with white space inside the quotes, such as `" 42"`, is read as its number by both helpers, since cleaning trims outside the quotes and the parsers skip the remaining white space |
| CsvUtils.ParseCellNoDigits | src/utils/csvUtils.ts:61-77 | a cell with no digit after its white space and sign gives NaN from `parseNumericValue` and the default from `parseIntegerValue` |
| CsvUtils.ParseCellRoundTrip | src/utils/csvUtils.ts:61-77 | the decimal form of an integer is read back as that integer by both helpers, and also by `parseFloat` |
| CsvUtils.Coerce | src/utils/csvUtils.ts:104-108 | a text cell is the cleaned cell itself; a header outside the integer and blood-pressure lists always gives text; an integer header always gives a number, never NaN in the art and house reports; which number is stated by `CsvUtils.IntegerColumnHelper`; the same code for the other reports is at csvUtils.ts:152-165, 208-212, 274-278 |
| CsvUtils.IntegerColumnHelper | src/utils/csvUtils.ts:104-105 | an integer column holds `parseNumericValue(value, true)` in the movie and health reports and `parseIntegerValue(value)` in the art and house reports; the same code for the other reports is at csvUtils.ts:152-153, 208-209, 274-275 |
| CsvUtils.IntegerColumnRead | src/utils/csvUtils.ts:104-105 | in every report, an integer column holding the decimal form of `n` stores the number `n`; the same code for the other reports is at csvUtils.ts:152-153, 208-209, 274-275 |
| CsvUtils.UnparsableIntegerCell | src/utils/csvUtils.ts:104-105 | an integer column holding no integer is NaN in the movie and health reports, and 0 in the art and house reports; the same code for the other reports is at csvUtils.ts:152-153, 208-209, 274-275 |
| CsvUtils.HealthMixedCell | src/utils/csvUtils.ts:154-160 | a blood-pressure field is text exactly when `parseFloat` finds no number, and is otherwise that number |
| CsvUtils.HealthMixedInteger | src/utils/csvUtils.ts:154-160 | a blood-pressure reading such as `120/80` is stored as its leading integer |
| CsvUtils.HealthMixedLabel | src/utils/csvUtils.ts:154-160 | a blood-pressure cell that starts with a letter is stored as the cleaned text |
| CsvUtils.CellsUpTo | src/utils/csvUtils.ts:101-103 | no contract; the cells stored after visiting the first `n` headers, described by `CsvUtils.CellsUpToEntry` |
| CsvUtils.Row | src/utils/csvUtils.ts:101-110 | no contract; the record of one row, described by `CsvUtils.RowEntry` and built by `CsvUtils.FillRecord` |
| CsvUtils.CellsUpToEntry | src/utils/csvUtils.ts:101-103 | after the first `n` headers, a header holds a cell exactly when it is non-empty and has a cell at its index, and it holds the cell of the last such column |
| CsvUtils.RowEntry | src/utils/csvUtils.ts:101-110 | a field of the record is set exactly for a non-empty header with a cell, and holds the coerced cell of the last column with that header |
| CsvUtils.ExtraCellsIgnored | src/utils/csvUtils.ts:101-103 | cells beyond the last header do not change the record |
| CsvUtils.FillRecord | src/utils/csvUtils.ts:99-110 | the `headers.forEach` loop builds exactly the record `Row` describes |
| CsvUtils.Lines | src/utils/csvUtils.ts:83 | the text always gives at least one line; `CsvUtils.ShortDocument` says when it gives fewer than two |
| CsvUtils.HeaderCells | src/utils/csvUtils.ts:96 | one header cell per piece of the comma split, each trimmed (no white space at either end) |
| CsvUtils.ValueCells | src/utils/csvUtils.ts:97 | one cleaned cell per piece of the comma split, none holding a double quote |
| CsvUtils.ShortDocument | src/utils/csvUtils.ts:83-84 | a text has fewer than two lines exactly when its trimmed form has no line feed; the empty text is one empty line |
| CsvUtils.CellCount | src/utils/csvUtils.ts:96-97 | a line has one cell more than it has commas, whether or not the commas are inside quotes |
| CsvUtils.QuotedCommaSplits | src/utils/csvUtils.ts:97 | the quoted cell `"a,b"` becomes the two cells `a` and `b` |
| CsvUtils.Fallback | src/utils/csvUtils.ts:84-94 | no contract; the fallback record of each single-row report, described by `CsvUtils.FallbackFields`; the same code for the other reports is at csvUtils.ts:121-142, 256-264 |
| CsvUtils.SingleRowRecord | src/utils/csvUtils.ts:83-110 | no contract; what a single-row parser returns for a text, described by `CsvUtils.ShortDocumentFallback` and `CsvUtils.SingleRowEntry` |
| CsvUtils.FallbackFields | src/utils/csvUtils.ts:84-94 | each fallback record has exactly the declared fields: NaN for the integer fields and "N/A" for the others; the same code for the other reports is at csvUtils.ts:121-142, 256-264 |
| CsvUtils.ParseSingleRow | src/utils/csvUtils.ts:83-110 | the shared parser body returns the fallback, or the record of the header line and the first value line |
| CsvUtils.FetchMovieScreeningData | src/utils/csvUtils.ts:79-114 | the movie parser returns the single-row record of the movie report |
| CsvUtils.FetchHealthScreeningData | src/utils/csvUtils.ts:116-171 | the health parser returns the single-row record of the health report |
| CsvUtils.FetchHouseNumberingData | src/utils/csvUtils.ts:249-284 | the house parser returns the single-row record of the house report |
| CsvUtils.ShortDocumentFallback | src/utils/csvUtils.ts:83-94 | a text whose trimmed form has no line feed, the empty text included, gives exactly the fallback record; the same code for the other reports is at csvUtils.ts:120-142, 255-264 |
| CsvUtils.SingleRowEntry | src/utils/csvUtils.ts:144-167 | with a header line and a value line, a field is set exactly for the non-empty headers that have a cell, and holds the coerced cell of the last column with that header |
| CsvUtils.LaterLinesIgnored | src/utils/csvUtils.ts:144-145 | two texts with the same first two lines give the same record |
| CsvUtils.PlainDocument | src/utils/csvUtils.ts:266-267 | a header line and a value line without commas or line feeds inside the cells are read as written, with the value cells cleaned |
| CsvUtils.SingleColumnDocument | src/utils/csvUtils.ts:266-280 | a one-column document gives a record with exactly that one field |
| CsvUtils.QuotedDocument | src/utils/csvUtils.ts:97 | a value line whose cells are all wrapped in double quotes is read with the quotes removed |
| CsvUtils.MovieRow | src/utils/csvUtils.ts:101-110 | the six movie columns in interface order give the four integer fields via `parseNumericValue` and the title and date as text |
| CsvUtils.MovieDocument | src/utils/csvUtils.ts:96-113 | a movie export with every cell quoted gives the full record: integers read back, texts without quotes |
| CsvUtils.ParsedRecordCanLackFields | src/utils/csvUtils.ts:99-113 | a parsed record, unlike the fallback, can lack declared fields |
| CsvUtils.QuotedHeader | src/utils/csvUtils.ts:199 | a quoted header keeps its quotes in the single-row parsers and so never names an integer column, while the art parser strips them |
| CsvUtils.NumberOr | src/utils/csvUtils.ts:222 | `data[k] \|\| 0` is never NaN, and is non-zero only when it is the stored number |
| CsvUtils.TextOr | src/utils/csvUtils.ts:225 | `data[k] \|\| default` is the default, or the stored non-empty text |
| CsvUtils.ArtFallback | src/utils/csvUtils.ts:184-197 | no contract; the art result for fewer than two lines, described by `CsvUtils.ArtShortDocument` |
| CsvUtils.ArtRows | src/utils/csvUtils.ts:202-216 | one record per value line; `CsvUtils.CollectArtRows` computes it with the loop |
| CsvUtils.Assemble | src/utils/csvUtils.ts:218-241 | no contract; row 0 as the main event and the later rows as sub-events, described by `CsvUtils.ArtEventShape` |
| CsvUtils.MainEventOf | src/utils/csvUtils.ts:221-228 | no contract; the main event's `\|\| default` fields, described by `CsvUtils.MainEventFields` |
| CsvUtils.SubEventOf | src/utils/csvUtils.ts:230-241 | no contract; a sub-event's `\|\| default` fields, described by `CsvUtils.SubEventFields` |
| CsvUtils.ArtEventOf | src/utils/csvUtils.ts:183-246 | no contract; what the art parser returns for a text, described by `CsvUtils.ArtEventShape` and `CsvUtils.ArtShortDocument` |
| CsvUtils.FetchArtEventData | src/utils/csvUtils.ts:174-247 | the art parser returns the fallback, or the assembly of the records of all value lines |
| CsvUtils.CollectArtRows | src/utils/csvUtils.ts:202-216 | the loop over the value lines pushes each line's record, in file order |
| CsvUtils.ArtRowCells | src/utils/csvUtils.ts:205-214 | in an art row a field holds a number exactly when its header is an integer column |
| CsvUtils.ArtNumericField | src/utils/csvUtils.ts:208-209 | an art numeric field is `parseIntegerValue` of the cell under its header, which is 0 when there is no such cell, and is never NaN |
| CsvUtils.ArtTextField | src/utils/csvUtils.ts:210-211 | an art text field is the cell under its header when that cell is not empty, and the field's default otherwise |
| CsvUtils.MainEventFields | src/utils/csvUtils.ts:221-228 | the main event field by field: four integers read from their cells, the date defaulting to empty, the title to "Art Creation & Exhibition" |
| CsvUtils.SubEventFields | src/utils/csvUtils.ts:230-241 | each sub-event field by field, with the defaults "N/A", "No summary available", "Tidak ada kendala" and "Tidak ada solusi" |
| CsvUtils.ArtEventShape | src/utils/csvUtils.ts:218-219 | the main event comes from the first value line and there is one sub-event per later line, in file order |
| CsvUtils.ArtNumbersDefined | src/utils/csvUtils.ts:222-236 | once there is a value line, no number of the main event or of any sub-event is NaN |
| CsvUtils.ArtShortDocument | src/utils/csvUtils.ts:183-197 | a text whose trimmed form has no line feed gives NaN numbers, "N/A" texts and no sub-events |
| AppSidebar.NavClass | src/components/AppSidebar.tsx:45-48 | the gradient class is returned exactly for an active entry, and the hover class exactly for an inactive one |
| AppSidebar.RootActive | src/components/AppSidebar.tsx:40 | the root entry is active exactly at the location `/` |
| AppSidebar.PrefixActive | src/components/AppSidebar.tsx:41 | any other entry is active exactly at the locations its URL is a prefix of, sub-pages included |
| AppSidebar.RootInactiveElsewhere | src/components/AppSidebar.tsx:39-43 | at any location other than `/` the root entry gets the inactive class |
| AppSidebar.MenuUrlsUnrelated | src/components/AppSidebar.tsx:23-28 | no menu URL other than the root is a prefix of another one |
| AppSidebar.AtMostOneActive | src/components/AppSidebar.tsx:23-43 | at most one menu entry is active at any location |
| AppSidebar.OwnPageActive | src/components/AppSidebar.tsx:23-43 | on an entry's page, or on any page below it, that entry is active and no other is |

## Left out

- The `fetch` of the export and `response.text()` are not modelled: every parser takes the text as its argument. Network errors are not modelled either, because the code does not catch them.
- `console.log` and `console.error` are not modelled: they do not affect the result.
- JavaScript numbers are modelled as exact reals. Rounding to binary64 is not modelled, nor the precision loss of integers beyond 2^53, nor `-0`, nor `parseFloat("Infinity")`.
- Strings are sequences of characters. UTF-16 surrogate pairs are not modelled.
- An object key such as `__proto__` behaves specially in JavaScript; here it is an ordinary key.
- CsvUtils.NumberOr: together with CsvUtils.TextOr, models `x || d` only for the cell kinds an art row can hold (`CsvUtils.ArtRowCells`). They do not model a text cell under a numeric field or a number under a text field, because neither can occur.
- The `|| {}` on the main event row is not modelled separately. It only applies when there is no row, and after the two-line check there always is one.
- AppSidebar.IsActive: has no contract of its own; `AppSidebar.RootActive` and `AppSidebar.PrefixActive` state it.
- The rest of the application is outside this model: the React components and pages, the router (the current location is a parameter), date formatting, the photo and video galleries, the refresh timers and the map.
