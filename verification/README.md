# Playwright report and test-data helpers in Dafny

This project models the pure core of a Playwright UI-automation suite for
an insurance policy application. The suite's pure parts fall into three groups.

- **Report construction.** There are three reporter variants:
  - the pdfmake `PDFReporter` (`src/Utility/PdfReporter.js`). Its compiled
    copy `dist/Utility/pdfReporter.js` has the same code: `onBegin` is at
    lines 64-79 there and 73-90 in the src copy; `onTestEnd` is at 80-157
    there and 91-182 in the src copy. Both copies are modelled by the one
    module `PdfMakeReporter`;
  - the pdfkit `PdfReporter` (`src/Utility/pdfReporter.ts`), modelled by
    `PdfKitReporter`;
  - the `generatePdfReport` helper (`src/Utility/report-utils.ts`), modelled
    by `ReportUtils`.

  A document is a sequence of `Block`s, which are text, table and image.
  A pdfkit drawing is a sequence of drawing operations (`Op`). Directory
  listings, image dimensions, file existence and timestamps are inputs.
- **Test-data normalisers** (`src/testdata/testData.ts`):
  - the state-name lookup;
  - the five MSB lookup tables;
  - `convertExpiryDate` with JavaScript's `parseInt`;
  - `formatToMMDDYYYY`;
  - the screenshot naming of `captureAndAttach` with its module counter.
- **Small collection algorithms:**
  - the multiset comparison `arraysHaveSameContent` and the wording parse
    of `assertUWIssue` (`src/pages/RiskAnalysisPage.ts`);
  - the dynamic column and row layout of `writeTestResultsToExcel`
    (`src/Utility/excel-utils.ts`).

Modules:

| module | contents |
|---|---|
| `Results` | `Option` and `Result` |
| `JsStrings` | the JavaScript string operations the code uses: `split`, `trim`, `padStart`, `toUpperCase`, `String(n)`, global regex replacement of character runs |
| `JsNumbers` | `?? 0` versus `\|\| 0` on durations, `(ms / 1000).toFixed(2)` and `Math.round(400 * h / w)`, in exact integer arithmetic |
| `Paths`, `ReportDoc` | `path.join`/`path.basename`, the shared block vocabulary, and the sanitisers |
| `DirectoryTree` | the run-start cleanup over an abstract file tree |
| `PdfMakeReporter`, `PdfKitReporter`, `ReportUtils` | the three reporters |
| `Capture` | the screenshot counter and the `<counter>_<rest>` names |
| `JsObjects`, `TestData` | object-literal property reads and the test-data helpers |
| `RiskAnalysis` | the underwriting-issue comparison |
| `ExcelLayout` | the results sheet |

Strings are `seq<char>`. A Dafny `char` is one Unicode scalar value, not a
UTF-16 code unit as in JavaScript; see "Left out".
Durations and image sizes are natural numbers. The counter is a class with
one `nat` field.

## Model

| member | source | states |
|---|---|---|
| Paths.JoinPath | src/Utility/PdfReporter.js:175 | the joined path is the directory, then one `/`, then the file name; this is `path.join` for a normalised non-empty directory and a non-empty name (see "Left out") |
| Paths.Basename | src/Utility/pdfReporter.ts:117 | the base name contains no `/` and is a suffix of the path |
| Paths.BasenameOfJoin | src/Utility/pdfReporter.ts:117 | the base name of `dir/name` is `name` whenever the name has no `/` |
| ReportDoc.StatusLabel | src/Utility/PdfReporter.js:110 | the label is "❌ Failed" exactly when the step has an error and "✔ Passed" exactly when it has none |
| ReportDoc.HeaderBlocks | src/Utility/PdfReporter.js:98-103 | exactly four text blocks: the report title in the header style, then `Base URL: …` plain, `Test Case: …` as a subheader, `Overall Status: …` plain |
| ReportDoc.HeaderBlocksCounts | src/Utility/PdfReporter.js:98-103 | the header holds no image and no table |
| ReportDoc.ScreenshotBlocks | src/Utility/PdfReporter.js:132-152 | the blocks exist iff every file's image size can be decoded; then there are 2 per file, a caption `Screenshot: <file>` followed by an image 400 wide and `round(400·h/w)` high, in listing order |
| ReportDoc.ScreenshotBlockCounts | src/Utility/PdfReporter.js:141-151 | the screenshot blocks hold one image per file and no table |
| ReportDoc.SafeTitle | src/Utility/PdfReporter.js:121 | the safe title has only `[A-Za-z0-9_-]`, is no longer than the title, and is empty only for an empty title |
| ReportDoc.SafeTitleCollapsesRuns | src/Utility/PdfReporter.js:121 | a maximal run of characters outside `[A-Za-z0-9_-]` becomes exactly one `_`, and the text on either side is sanitised on its own |
| ReportDoc.SafeTitleIdempotent | src/Utility/PdfReporter.js:121 | sanitising a safe title changes nothing more |
| ReportDoc.SafeTitleKeepsSafeTitles | src/Utility/PdfReporter.js:121 | a title made only of `[A-Za-z0-9_-]` is its own safe title |
| ReportDoc.SafeTitleCollision | src/Utility/PdfReporter.js:121-122 | two different titles ("A/B" and "A.B") share one screenshot directory |
| ReportDoc.SanitizeTimestamp | src/Utility/PdfReporter.js:172-174 | the sanitised timestamp contains no `/`, `:`, `,` or space and is no longer than the input |
| ReportDoc.SanitizeTimestampCollapsesRuns | src/Utility/PdfReporter.js:172-174 | a maximal run of `/`, `:`, `,` and spaces becomes exactly one `_` |
| ReportDoc.Underscored | src/Utility/report-utils.ts:107 | the result of replacing white-space runs by `_` contains no white space and is no longer than the input |
| ReportDoc.UnderscoredCollapsesRuns | src/Utility/report-utils.ts:107 | a maximal run of white space becomes exactly one `_` |
| ReportDoc.UnderscoredBetweenWords | src/Utility/report-utils.ts:107 | `x y z` with single spaces between non-space characters becomes `x_y_z` |
| ReportDoc.SanitizersKeepOtherCharacters | src/Utility/PdfReporter.js:121-174 | each of the three sanitisers keeps every character outside its class except `_`, in order; how each run becomes one `_` is stated by the three `…CollapsesRuns` lemmas |
| JsNumbers.DefaultNullish | src/Utility/PdfReporter.js:111 | `d ?? 0` is 0 for a missing duration, NaN for NaN, otherwise the duration |
| JsNumbers.DefaultFalsy | src/Utility/pdfReporter.ts:43 | `d \|\| 0` is always a whole number, 0 for missing and NaN |
| JsNumbers.DefaultsAgreeExceptNaN | src/Utility/pdfReporter.ts:43 | the two defaults differ exactly on a NaN duration |
| JsNumbers.SecondsFixed2 | src/Utility/PdfReporter.js:111-114 | NaN prints "NaN"; a whole number prints with a point three places from the end |
| JsNumbers.SecondsFixed2RoundTrip | src/Utility/PdfReporter.js:111 | the printed seconds parse back to the hundredths nearest to the milliseconds, within half a hundredth |
| JsNumbers.SecondsFixed2Examples | src/Utility/PdfReporter.js:111-114 | 1230 ms gives "1.23", a missing duration gives "0.00", and NaN gives "NaN" under `??` but "0.00" under `\|\|` |
| JsNumbers.ScaledHeight | src/Utility/PdfReporter.js:138-140 | the height is the rounded `400·h/w` (within half a pixel) |
| JsNumbers.ScaledHeightPreservesAspect | src/Utility/PdfReporter.js:138-140 | the height keeps the aspect ratio within half a pixel and is exact when `400·h` is a multiple of `w` |
| JsNumbers.ScaledHeightExamples | src/Utility/PdfReporter.js:138-140 | 800×600 scales to 300, 1280×720 to 225, 3×1 to 133 |
| JsStrings.NatToStringRoundTrip | src/Utility/report-utils.ts:34 | `String(n)` reads back as `n` |
| JsStrings.NatToStringInjective | src/Utility/report-utils.ts:119 | different numbers print differently |
| JsStrings.NumeralPrefixInjective | src/Utility/report-utils.ts:119 | a numeral followed by a non-digit separator can be read back off the front of a name |
| JsStrings.Split | src/pages/RiskAnalysisPage.ts:358-360 | `split` yields at least one piece, none containing the separator |
| JsStrings.SplitCount | src/pages/RiskAnalysisPage.ts:358-360 | a string with k separators splits into k+1 pieces |
| JsStrings.JoinSplit | src/pages/RiskAnalysisPage.ts:358-360 | joining the pieces with the separator gives the string back |
| JsStrings.SplitJoin | src/pages/RiskAnalysisPage.ts:358-360 | splitting a join of separator-free pieces gives the pieces back |
| JsStrings.Trim | src/pages/RiskAnalysisPage.ts:359 | the input is its leading white space, then the trimmed string, then a tail of white space; the trimmed string neither starts nor ends with white space |
| JsStrings.LeadingSpaces | src/pages/RiskAnalysisPage.ts:359 | the count covers only white space and stops at the first other character |
| JsStrings.TrimOfClean | src/pages/RiskAnalysisPage.ts:359 | a string with no white space at either end is its own trim |
| JsStrings.TrimOfAllSpace | src/pages/RiskAnalysisPage.ts:359 | an all-blank string trims to "" |
| JsStrings.TrimIdempotent | src/pages/RiskAnalysisPage.ts:359 | trimming twice is trimming once |
| JsStrings.TrimStart | src/testdata/testData.ts:106 | the leading white space `parseInt` skips is removed and nothing else |
| JsStrings.ReplaceChar | src/testdata/testData.ts:174 | every `-` becomes `/` and every other character stays |
| JsStrings.PadStart2 | src/testdata/testData.ts:179 | `padStart(2, '0')` leaves two or more characters alone and left-fills shorter ones with zeros to length 2 |
| JsStrings.UpperCase | src/testdata/testData.ts:74 | the upper-cased string has no lower-case ASCII letter; for an ASCII input it has the same length and each character is the input's up to ASCII case |
| JsStrings.UpperCaseIgnoresAsciiCase | src/testdata/testData.ts:74 | strings that differ only in ASCII case upper-case identically |
| JsStrings.ReplaceRuns | src/Utility/PdfReporter.js:121 | replacing each run of a class by a character outside it leaves no character of the class, never lengthens the string, and empties only "" |
| JsStrings.ReplaceRunsAppend | src/Utility/PdfReporter.js:121 | replacing runs distributes over a concatenation whose seam is not inside a run |
| JsStrings.ReplaceRunsOfRun | src/Utility/PdfReporter.js:121 | a non-empty run of the class becomes exactly one replacement character |
| JsStrings.ReplaceRunsCollapse | src/Utility/PdfReporter.js:121 | in `a + run + b` with the run maximal, the run becomes one replacement character and `a` and `b` are replaced on their own |
| JsStrings.ReplaceRunsIdentity | src/Utility/PdfReporter.js:121 | a string with no character of the class is unchanged |
| JsStrings.ReplaceRunsIdempotent | src/Utility/PdfReporter.js:121 | replacing runs twice is replacing once |
| JsStrings.ReplaceRunsKeepsOthers | src/Utility/PdfReporter.js:121 | the characters outside the class, other than the replacement character, survive in order |
| DirectoryTree.AncestorIsDirectory | dist/Utility/pdfReporter.js:71-75 | in a well-formed tree every ancestor of an entry is a directory |
| DirectoryTree.RemoveEntry | dist/Utility/pdfReporter.js:71-75 | the entry is gone and nothing is added or changed; a directory takes everything under it along, a file takes only itself, and every entry outside it stays |
| DirectoryTree.RemoveEntrySweeps | dist/Utility/pdfReporter.js:69-76 | removing one listed entry (file unlinked, or directory removed recursively) sweeps it and everything under it and keeps the rest |
| DirectoryTree.ListedCoverBelow | dist/Utility/pdfReporter.js:68 | every entry strictly inside the base lies under one of the base's listed children |
| DirectoryTree.ClearDirectory | dist/Utility/pdfReporter.js:67-78 | a missing base changes nothing; a base that is a file fails on `readdirSync`; a directory base is kept but left with no entries, and everything outside it is unchanged, so the result is exactly the tree less every entry strictly inside the base |
| DirectoryTree.EmptiedIdempotent | dist/Utility/pdfReporter.js:67-78 | running the sweep on its own result changes nothing, and sweeping a base with nothing inside it leaves the tree as it was |
| PdfMakeReporter.BaseUrlOf | dist/Utility/pdfReporter.js:65 | the base URL is the first project's `use.baseURL`, `''` when either is missing, and an error when there is no project |
| PdfMakeReporter.OnBegin | dist/Utility/pdfReporter.js:64-79 | `onBegin` records the base URL; with a project and a missing or directory base the sweep succeeds and leaves the tree less everything inside the base; a base that is a file makes it fail; no project fails before the sweep |
| PdfMakeReporter.IsPngByName | src/Utility/PdfReporter.js:126 | a file is kept exactly when its name ends in `.`, `p`, `n`, `g` in either case |
| PdfMakeReporter.ScreenshotDirIsChild | src/Utility/PdfReporter.js:121-122 | a test's screenshot directory is the base, one `/`, and a last component that is the test's safe title |
| PdfMakeReporter.StepTable | src/Utility/PdfReporter.js:104-120 | the table has steps+2 rows and three `*` widths: the header, one row per step in order with its title, status and `((d ?? 0)/1000).toFixed(2)`, then the total row |
| PdfMakeReporter.StepTableDurations | src/Utility/PdfReporter.js:111 | a missing step duration prints "0.00", and a present one parses back to its hundredths |
| PdfMakeReporter.PdfFileName | src/Utility/PdfReporter.js:172-175 | the PDF name is the safe title, `_`, the sanitised timestamp and `.pdf`, so it contains no `/`, `:`, `,` or space |
| PdfMakeReporter.PdfFileNameSameFor | src/Utility/PdfReporter.js:172-175 | within one timestamp two tests write the same PDF name exactly when their safe titles agree |
| PdfMakeReporter.PdfPathIsInOutputDir | src/Utility/PdfReporter.js:175 | the report is written directly inside the output directory under its PDF name |
| PdfMakeReporter.OnTestEnd | src/Utility/PdfReporter.js:91-156 | the four header blocks, then the table, then the PNG screenshot blocks; a missing directory gives only those five blocks and a warning; the report fails iff a PNG's size cannot be decoded |
| PdfMakeReporter.OnTestEndImages | src/Utility/PdfReporter.js:123-152 | the document has 5+2n blocks for n PNG files (case-insensitive), one table, n images each 400 wide, and caption k names file k |
| PdfKitReporter.SecondsLabel | src/Utility/pdfReporter.ts:59 | the label ends in ` s` and the number before it parses back to the hundredths of the duration, 0 for missing or NaN |
| PdfKitReporter.CollectSteps | src/Utility/pdfReporter.ts:39-44 | missing steps give `[]`; otherwise one row per step in order, Failed iff an error, time `toFixed(2) + ' s'` under `\|\| 0` |
| PdfKitReporter.CollectShots | src/Utility/pdfReporter.ts:47-54 | a missing directory gives `[]`; otherwise the joined paths of exactly the names containing the safe title and ending in `.png` (case-insensitive), in listing order |
| PdfKitReporter.CollectShotsNamesMatch | src/Utility/pdfReporter.ts:50-53 | every collected path's base name is a listed file that contains the safe title and ends in `.png` |
| PdfKitReporter.OnTestEnd | src/Utility/pdfReporter.ts:56-62 | exactly one record is appended and earlier records are kept; its status is the upper-cased status and its duration the seconds label |
| PdfKitReporter.OnTestEndKeepsOrder | src/Utility/pdfReporter.ts:56-62 | two calls leave their records in call order after the earlier ones |
| PdfKitReporter.CellsFrom | src/Utility/pdfReporter.ts:93-104 | cell i starts at x plus the sum of the first i widths, with its text inset by 5 and 8 and 10 narrower than the cell |
| PdfKitReporter.DrawRow | src/Utility/pdfReporter.ts:88-105 | a row is three 25-high cells at x = 50, 300, 400 of widths 250, 100, 120, with "Step", "Status", "Time" for the header |
| PdfKitReporter.DrawTable | src/Utility/pdfReporter.ts:107-108 | one row more than there are steps: the header row at the table top, step i's row at `top + 25·(i+1)` |
| PdfKitReporter.TableRowsStacked | src/Utility/pdfReporter.ts:84-108 | each row lies exactly one row height (25) below the previous one, its cells in the same columns with the same widths, so rows never overlap |
| PdfKitReporter.TableHasNoPageBreaks | src/Utility/pdfReporter.ts:107-108 | the table draws only cells and so makes no explicit `addPage` call |
| PdfKitReporter.OnEnd | src/Utility/pdfReporter.ts:73-74 | the drawing opens with the centred 18-point title and a 1.5-line gap, then the first record's heading, and never ends on a new page |
| PdfKitReporter.ShotOp | src/Utility/pdfReporter.ts:113-123 | a missing file draws nothing; an existing one draws a new page and the `Screenshot: <basename>` caption, then the 400-wide image exactly when it can be embedded, and never ends on a new page |
| PdfKitReporter.ShotOps | src/Utility/pdfReporter.ts:113-124 | no screenshots draw nothing; every image drawn is one of the record's paths that exists and can be embedded; the drawing never ends on a new page |
| PdfKitReporter.ShotOpMarks | src/Utility/pdfReporter.ts:114-121 | one screenshot draws its own image exactly when its file exists and can be embedded, otherwise no image, and underlines nothing |
| PdfKitReporter.ShotOpsMarks | src/Utility/pdfReporter.ts:113-124 | the images drawn are exactly the record's screenshots that exist and can be embedded, in the record's order (`Embedded`), and nothing is underlined |
| PdfKitReporter.CaseOps | src/Utility/pdfReporter.ts:76-126 | a record draws its underlined 14-point `Test Case:` line, `Overall Status:`, `Total Duration:` and a half-line gap. The step table (`DrawTable`) fills the next 3·(steps+1) operations, then come a 2-line gap and the record's screenshot operations (`ShotOps`). The length is exactly these plus one, and the last operation is a new page exactly when the record is not the last |
| PdfKitReporter.TableLength | src/Utility/pdfReporter.ts:107-108 | the step table is three operations per row for the header row and one row per step |
| PdfKitReporter.TableHasNoMarks | src/Utility/pdfReporter.ts:97-108 | the step table draws no image and underlines nothing |
| PdfKitReporter.CaseOpsMarks | src/Utility/pdfReporter.ts:77-124 | a record underlines exactly one line, its own `Test Case:` line, and draws exactly its screenshots that exist and can be embedded, in order |
| PdfKitReporter.CasesFrom | src/Utility/pdfReporter.ts:76-127 | the records from k on draw nothing exactly when none are left, start with record k's heading, and never end on a new page |
| PdfKitReporter.CasesFromMarks | src/Utility/pdfReporter.ts:76-127 | the records from k on underline exactly their `Test Case:` lines, one per record in record order, and draw exactly their embeddable existing screenshots, record after record |
| PdfKitReporter.OnEndMarks | src/Utility/pdfReporter.ts:73-127 | the whole report underlines one `Test Case:` line per record in record order and draws every existing, embeddable screenshot of every record, in record order; the title is not underlined |
| PdfKitReporter.CasesFromIsFlatten | src/Utility/pdfReporter.ts:76-127 | the records from k on are exactly each record's operations (`CaseOps`), concatenated in record order |
| PdfKitReporter.OnEndIsFlatten | src/Utility/pdfReporter.ts:73-127 | the report is exactly the title and its 1.5-line gap, then each record's whole operations in record order, with nothing between or after them |
| PdfKitReporter.ShotOpPageBreaks | src/Utility/pdfReporter.ts:113-124 | an existing screenshot makes exactly one explicit `addPage` call, whether or not it can be embedded; a missing one makes none |
| PdfKitReporter.ShotOpsPageBreaks | src/Utility/pdfReporter.ts:113-124 | a record's screenshots make as many explicit `addPage` calls as there are existing files |
| PdfKitReporter.CaseOpsPageBreaks | src/Utility/pdfReporter.ts:76-126 | one record makes an explicit `addPage` call per existing screenshot plus one trailing call unless it is the last |
| PdfKitReporter.CasesFromPageBreaks | src/Utility/pdfReporter.ts:76-127 | the records from k on make `n-1-k` trailing explicit `addPage` calls plus one per existing screenshot |
| PdfKitReporter.OnEndPageBreaks | src/Utility/pdfReporter.ts:126 | with n records the drawing makes n-1 trailing explicit `addPage` calls plus one per existing screenshot, and none for no records |
| Capture.CounterName | src/Utility/report-utils.ts:119 | the name is the counter's decimal numeral, one `_`, then the rest |
| Capture.CounterNameInjective | src/Utility/report-utils.ts:119 | two names are equal iff their counters and their rests are |
| Capture.SuccessiveNames | src/Utility/report-utils.ts:97-119 | successive calls name their screenshots with counters start+1, start+2, …, all different |
| Capture.NameAll | src/Utility/report-utils.ts:97-100 | calling the helper once per step advances the counter by the number of calls and yields the successive names |
| ReportUtils.StepTable | src/Utility/report-utils.ts:32-36 | steps+2 rows: the header with "Time Taken (ms)", one row per step in order whose third cell reads back as its milliseconds, then the total |
| ReportUtils.ReportShotNames | src/Utility/report-utils.ts:50-52 | a name starting with "Step" or ending in `.png` is selected, and a selected name that does not start with "Step" ends in `g` in either case |
| ReportUtils.SelectShots | src/Utility/report-utils.ts:47-52 | a missing directory gives `[]`; otherwise exactly the files starting with "Step" or ending in `.png`, `.jpg`, `.jpeg` (case-insensitive) |
| ReportUtils.SelectShotsKeepsOrder | src/Utility/report-utils.ts:50-52 | the selection keeps listing order: selecting from a concatenation concatenates the selections |
| ReportUtils.PdfFileName | src/Utility/report-utils.ts:92 | the file name is the title with its white-space runs replaced by `_`, then `.pdf`, so it has no white space |
| ReportUtils.PdfFileNameSameFor | src/Utility/report-utils.ts:92 | two titles give the same PDF name exactly when they agree after their white-space runs are replaced |
| ReportUtils.GeneratePdfReport | src/Utility/report-utils.ts:19-92 | the report exists iff every selected file has a decodable size; then it is the header, the table and 2 blocks per selected file, written under the output directory |
| ReportUtils.GeneratePdfReportCounts | src/Utility/report-utils.ts:54-76 | the document holds one image per selected file and exactly one table |
| ReportUtils.ScreenshotFileName | src/Utility/report-utils.ts:107-119 | the screenshot name is the counter's numeral, `_`, the underscored step name and `.png`, so it has no white space |
| ReportUtils.ScreenshotFileNamesDistinct | src/Utility/report-utils.ts:119 | names made with different counters differ |
| ReportUtils.AttachmentName | src/Utility/report-utils.ts:126 | the attachment is named `Step: <step> - ` followed by the sanitised timestamp |
| ReportUtils.CaptureAndAttach | src/Utility/report-utils.ts:99-130 | each call increments the counter by one and names the file with the new value |
| JsObjects.PropertyRead | src/testdata/testData.ts:122 | reading a key of an object literal yields its own string when it has one, an inherited `Object.prototype` member for a prototype name, and `undefined` otherwise |
| JsObjects.OwnValue | src/testdata/testData.ts:111-120 | a table's own value for a key exists exactly for its listed keys |
| JsObjects.OrElse | src/testdata/testData.ts:122 | `v \|\| fallback` keeps a truthy value and otherwise yields the fallback |
| JsObjects.OrElseAgreement | src/testdata/testData.ts:74 | for a key that is not a prototype member, the read-then-fallback equals the own-value-or-fallback; for a prototype member it yields the inherited member |
| TestData.StateFor | src/testdata/testData.ts:20-71 | only a two-letter upper-case key is in the state table, and every name is non-empty |
| TestData.GetFullStateName | src/testdata/testData.ts:73-75 | a listed abbreviation in any case gives the state name; any other input comes back unchanged, not upper-cased |
| TestData.StateLookupNeverReachesPrototype | src/testdata/testData.ts:74 | an upper-cased key is never an `Object.prototype` member, so the object-literal read agrees with the own-value lookup |
| TestData.GetFullStateNameIgnoresCase | src/testdata/testData.ts:74 | inputs that differ only in ASCII case give the same state name |
| TestData.UpperCaseOfPair | src/testdata/testData.ts:74 | a two-letter key upper-cases letter by letter |
| TestData.GetFullStateNameExamples | src/testdata/testData.ts:73-75 | "ny" and "NY" give "New York"; "Texas" comes back as "Texas" |
| TestData.MsbTableShape | src/testdata/testData.ts:111-168 | every MSB key starts with an upper-case letter and every MSB value is non-empty, so `\|\|` never falls back on a listed key |
| TestData.MsbKeyNotPrototype | src/testdata/testData.ts:111-168 | no MSB key is an `Object.prototype` member |
| TestData.MsbAsWritten | src/testdata/testData.ts:121-171 | `map[key] \|\| key` gives a listed key's wording, the inherited member for an unlisted `Object.prototype` name, and the key itself for any other |
| TestData.MsbAsWrittenAgreement | src/testdata/testData.ts:121-171 | the lookups as written return a string equal to the own-property lookup exactly for keys that are not `Object.prototype` members |
| TestData.MsbAsWrittenCounterexample | src/testdata/testData.ts:121-123 | `getRoofCoveringMSB("toString")` yields the inherited function, not a string |
| TestData.MsbLookup | src/testdata/testData.ts:121-171 | a listed key gives its non-empty mapped value and any other key gives itself |
| TestData.MsbLookupExamples | src/testdata/testData.ts:111-168 | "Tile" gives "Tile, Clay", heating "Other" gives "Heating, Electric", "Pier and Post/Stilts" gives "Piers" |
| TestData.DigitPrefix | src/testdata/testData.ts:106 | the longest run of leading digits `parseInt` reads |
| TestData.ParseIntDecimal | src/testdata/testData.ts:106 | `parseInt(s, 10)` is a number exactly when a digit follows the leading blanks and sign, and is negative only after `-` |
| TestData.ParseIntOfDigits | src/testdata/testData.ts:106 | an all-digit string parses to its decimal value |
| TestData.MonthOf | src/testdata/testData.ts:91-106 | the month exists exactly for parsed indexes 0..12 and is that entry of the month table |
| TestData.ConvertExpiryDate | src/testdata/testData.ts:86-109 | the month comes from the piece before the first `/`; the year is "20" plus the second piece, or "20undefined" when there is no `/` |
| TestData.ConvertExpiryDateOfCardDate | src/testdata/testData.ts:86-109 | `MM/YY` with MM in 01..12 gives the month's English name and "20YY"; MM above 12 gives no month |
| TestData.CardDateSplit | src/testdata/testData.ts:90 | a two-digit month, `/` and a slash-free year split into exactly those two pieces |
| TestData.ConvertExpiryDateExample | src/testdata/testData.ts:86-109 | "08/27" gives August, 2027 |
| TestData.ConvertExpiryDateWithoutSlash | src/testdata/testData.ts:107 | without a `/` the year is "20undefined" |
| TestData.DateShapeMatchesPattern | src/testdata/testData.ts:175 | the executable shape check is exactly the regular expression: 1-2 digits, `/`, 1-2 digits, `/`, 2 or 4 digits |
| TestData.JoinDate | src/testdata/testData.ts:177-179 | the output has the shape `dd/dd/dddd`, with month and day zero-padded and a two-digit year prefixed by "19" |
| TestData.FormatToMMDDYYYY | src/testdata/testData.ts:173-180 | it succeeds iff the trimmed, dash-to-slash input matches the pattern, otherwise fails with "Invalid date format: " and the original input; success has the shape `dd/dd/dddd` |
| TestData.FormatAcceptsExactlyThePattern | src/testdata/testData.ts:174-176 | acceptance is exactly a match of the regular expression on the normalised input |
| TestData.FormatKeepsGroups | src/testdata/testData.ts:177-179 | on `m/d/y` in the pattern it returns the padded month and day and the completed year |
| TestData.FormatToMMDDYYYYIdempotent | src/testdata/testData.ts:173-180 | formatting an output again gives the same output |
| TestData.FormatToMMDDYYYYExample | src/testdata/testData.ts:173-180 | no range check: "99/99/99" is accepted as "99/99/1999" |
| TestData.FormatRejectsThreeDigitYear | src/testdata/testData.ts:175-176 | a three-digit year is rejected |
| TestData.Normalized | src/testdata/testData.ts:174 | the normalised input is as long as the trimmed input, has no `-`, keeps every other character of it, and has no white space at either end |
| TestData.NormalizedOfDigitsAndSlashes | src/testdata/testData.ts:174 | digits and slashes with digits at both ends pass through normalisation unchanged |
| TestData.ScreenshotFileName | src/testdata/testData.ts:191-206 | the name is the counter's numeral and `_`, then the underscored step name, `_`, the sanitised timestamp, and `.png` |
| TestData.ScreenshotFileNamesDistinct | src/testdata/testData.ts:206 | names made with different counters differ, whatever the steps and timestamps |
| TestData.CaptureAndAttach | src/testdata/testData.ts:184-214 | each call increments the counter by one before naming the file, and the attachment is `Step: <step>` |
| RiskAnalysis.CountElements | src/pages/RiskAnalysisPage.ts:376-380 | the count map holds each element's number of occurrences and no other key |
| RiskAnalysis.ArraysHaveSameContent | src/pages/RiskAnalysisPage.ts:373-389 | false whenever the lengths differ; true iff the lists are equal as multisets, so it is reflexive, symmetric and blind to order |
| RiskAnalysis.ParseExpected | src/pages/RiskAnalysisPage.ts:358-360 | "" gives `[]`; a string with k commas gives k+1 trimmed pieces, none with white space at either end |
| RiskAnalysis.ParseExpectedOfJoin | src/pages/RiskAnalysisPage.ts:358-360 | joining clean wordings with commas and parsing gives them back |
| RiskAnalysis.CleanWordingTrims | src/pages/RiskAnalysisPage.ts:359 | a wording with no white space at either end is its own trim |
| RiskAnalysis.ActualDescriptions | src/pages/RiskAnalysisPage.ts:336-352 | one trimmed text per displayed issue, "" for a missing text |
| RiskAnalysis.AssertUwIssue | src/pages/RiskAnalysisPage.ts:354-371 | the check passes iff expected and displayed wordings agree as multisets; an empty wording passes only when nothing is displayed |
| ExcelLayout.MaxDescriptionCount | src/Utility/excel-utils.ts:34 | `Math.max` is `-Infinity` exactly for no results, otherwise a bound on every result's description count that one result attains |
| ExcelLayout.ArrayLength | src/Utility/excel-utils.ts:46 | a finite maximum gives that many columns |
| ExcelLayout.UwiColumns | src/Utility/excel-utils.ts:46-50 | m columns, the i-th with header and key `UWI_{i+1}` and width 30 |
| ExcelLayout.UwiKeyInjective | src/Utility/excel-utils.ts:47-48 | different positions get different `UWI_k` keys, and none is a base key |
| ExcelLayout.AddDescriptions | src/Utility/excel-utils.ts:63-65 | the row gains exactly the keys `UWI_{i+1}..UWI_n`, each holding its description, and keeps every other value |
| ExcelLayout.RowOfContents | src/Utility/excel-utils.ts:54-65 | a row has the five base fields unchanged, and `UWI_k` is set iff `1 <= k <=` its description count, holding description k-1 |
| ExcelLayout.WriteTestResultsToExcel | src/Utility/excel-utils.ts:20-68 | the five base columns, then `UWI_1..UWI_m` for m the largest description count (0 for no results); one row per result in order |
| ExcelLayout.LayoutKeysDistinct | src/Utility/excel-utils.ts:52 | the base columns followed by any number of description columns never repeat a key |
| ExcelLayout.SheetColumnKeys | src/Utility/excel-utils.ts:37-52 | the sheet's column keys are exactly the base keys and `UWI_1..UWI_m` |
| ExcelLayout.ColumnKeysDistinct | src/Utility/excel-utils.ts:37-52 | no two columns of the sheet share a key |
| ExcelLayout.RowKeysDeclared | src/Utility/excel-utils.ts:63-65 | every key a row sets is a declared column |

## Left out

- Image decoding and PDF bytes: `image-size` is an input (`size: Option<ImageSize>`), and pdfmake, pdfkit and base64 serialisation are not modelled. Margins, fonts and the style table are not modelled either. The JPEG files `report-utils.ts` selects are still embedded under a `data:image/png` label; that label is not modelled.
- Screenshot order in the pdfmake reporter: the files are sorted by birth time (`PdfReporter.js:127-131`). The model takes the listing in the sorted order as given.
- The filesystem: `existsSync`, `readdirSync`, `mkdirSync`, `writeFileSync` and `statSync` become a directory listing, a set of existing paths, or the abstract tree of `DirectoryTree`. Symbolic links and `path.join` normalisation of `..` and duplicate separators are not modelled.
- Paths.JoinPath: the join is plain concatenation with one `/`. Node's `path.join` also drops empty segments and normalises `.` segments: `path.join('base', '')` is `base` and `path.join('./out', 'a.pdf')` is `out/a.pdf`. The model agrees only for a normalised non-empty directory and a non-empty name. In particular, a test whose title is empty has an empty safe title (`PdfReporter.js:121-122`). The reporter then reads the screenshot base directory itself, while the model looks up `base/`.
- PdfMakeReporter.OnTestEnd, PdfKitReporter.CollectShots, ReportUtils.SelectShots: `existsSync` is also true when the screenshot path is a plain file rather than a directory. `readdirSync` then throws `ENOTDIR`. So the pdfmake reporter's `onTestEnd` rejects (`PdfReporter.js:123-125`), the pdfkit reporter's `onTestEnd` throws (`pdfReporter.ts:48-49`), and `generatePdfReport` throws (`report-utils.ts:48`). The model's input is a directory listing or its absence, so it cannot express a file at that path. It never produces these errors.
- Directories: the capture helpers write to other directories than the reporters read, so the model keeps all directories as parameters and does not connect captured files to reported ones.
- Time and locale: `new Date().toLocaleString('en-GB', { timeZone: 'Asia/Kolkata' })` is an input string; only its sanitiser is modelled. `excelDateToString` (`testData.ts:77-84`) depends on the host time zone and is not modelled.
- JsNumbers.SecondsFixed2: `toFixed(2)` is modelled as round-half-up of ms/10; at the tie `ms % 10 == 5` binary floating point may round the other way, and no claim is made there.
- JsNumbers.ScaledHeight: `Math.round(400 * h / w)` is computed exactly; float rounding near a half is not claimed.
- TestData.ParseIntDecimal: precision loss for numerals beyond 2^53 is not modelled. The result `-0` collapses to 0, which indexes the same month entry.
- Capture.CounterName: the counter is unbounded; beyond 2^53 JavaScript's `++` would stop producing distinct values.
- Concurrency: parallel workers and races on the module-level counters are not modelled; every call runs sequentially.
- PdfKitReporter.TableHasNoPageBreaks, PdfKitReporter.ShotOpPageBreaks, PdfKitReporter.ShotOpsPageBreaks, PdfKitReporter.CaseOpsPageBreaks, PdfKitReporter.CasesFromPageBreaks, PdfKitReporter.OnEndPageBreaks: these count only explicit `doc.addPage()` calls. pdfkit also starts a new page by itself when text runs past the bottom margin (A4 is 841.89 points high, less the 40-point margin). Those automatic breaks are not modelled, so the real page count can be higher.
- PdfKitReporter.OnEnd: pdfkit's text cursor `doc.y` is not computed; where each record's table starts is given as the input `tops`.
- TestData.StateFor: the 50-entry state table is written as a match on the two characters; the keys and names are the source's.
- JsStrings.UpperCase: `toUpperCase` is modelled for ASCII and for the non-ASCII characters whose upper case is all ASCII (ı, ſ, ß and the Latin ligatures); other characters are kept, which cannot change whether a state key matches.
- Browser interaction: `getIssueDescriptions` reads the displayed texts through locators, and the model takes them as a list of optional strings. `expect.soft` becomes the boolean result.
- `readExcelfile`, `appendTestResultsToExcel`, the workbook write, and the `try`/`catch` that logs errors are I/O and not modelled.
- Strings and Unicode: a Dafny `char` is a Unicode scalar value, while JavaScript strings are UTF-16 code units. A character outside the Basic Multilingual Plane (an emoji, say) counts as 1 here but 2 for JavaScript's `length` and `padStart`, and the `\w` and `\s` regex classes see its two surrogates. Lengths are only claimed to agree for text inside the Basic Multilingual Plane.
- The page objects, test specs, logger, environment loading and configuration files are not part of this model.

## Findings

| source | as written | input that shows it | evidently intended | confidence | as-written member | corrected member |
|---|---|---|---|---|---|---|
| src/testdata/testData.ts:121-171 | each MSB lookup reads `map[key] \|\| key` on an object literal, so a key naming an `Object.prototype` member reads the inherited member | `getRoofCoveringMSB("toString")` returns the function `Object.prototype.toString`, not a string | an own-property lookup: the mapped wording for a listed key, the key itself otherwise | not executed | TestData.MsbAsWritten, TestData.MsbAsWrittenCounterexample | TestData.MsbLookup, TestData.MsbAsWrittenAgreement |
