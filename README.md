# Mark-sheet generator: a verified model

This project models the core of a small Next.js mark-sheet generator in Dafny. It covers three parts:

- **The form route** (`POST /api/form`). It checks the student's name, stores the request, and draws a one-page PDF. The page has:
  - a title and the student's details;
  - a two-row table header over an eight-column grid;
  - one row per subject, until the cursor falls below 120 points;
  - the grand totals, the percentage and PASS/FAIL;
  - a signature block, only when space remains.

  It returns the page as an attachment named after the student.
- **The dashboard's form state**:
  - editing a cell;
  - adding a row;
  - the totals under the table;
  - the checks before submitting, and what happens to the form after the server's answer;
  - arrow-key navigation across the grid of inputs.
- **The route guard.** Public paths pass. Any other path needs a `token` cookie that verifies. Everything else is redirected to `/`.

Modules:

- `Wrappers`: `Option`.
- `JsBuiltins`: the JavaScript built-ins the code relies on.
  - `trim`, and blank strings.
  - `toUpperCase`.
  - `x || fallback`.
  - `String(n)` and `Number(s)` for integers.
  - `Number(x) || 0`.
  - `replace(/\s+/g, "_")`.
- `Grading`: subject totals, pass status, grand totals, the percentage as printed, and the result. `Grading.Summarize` is the one definition of the derived figures; the page's totals block prints them.
- `Marksheet`: the request's student and subject records, reading the marks, the name check, and the download file name.
- `Layout`: the page as a sequence of draw instructions (`Text` and `Line`), given in closed form. Every block is at the height the route's cursor reaches it.
- `FormRoute`: the route as imperative methods. A cursor `y`, a column cursor `tx` and the two grand-total accumulators are updated in loops. Each method is proved to emit exactly the closed-form page of `Layout`, and `Post` is proved to return exactly the response described above.
- `SheetProperties`: what the page promises as a whole.
  - The cursor only moves down.
  - Every instruction starts inside the sheet.
  - At most the first 19 subjects get a row.
  - The totals count exactly the drawn rows.
  - The signature appears exactly when at most 14 subjects are listed.
- `Dashboard`: the dashboard's pure state updates and its `calculateTotals` loop.
- `Middleware`: the route guard. JWT verification is a parameter.

The grand totals count only the subjects that get a row. The route adds a subject's marks after its overflow guard, so subjects that get no row are left out of GRAND TOTAL, the percentage and RESULT. `SheetProperties.DrawnMarksArePrefix` and `SheetProperties.SkippedSubjectsLeaveNoTrace` state this behaviour.

## Model

| member | source | states |
|---|---|---|
| JsBuiltins.TrimStart | app/api/form/route.ts:10 | the result is a suffix of the input; what it drops is all whitespace; it does not start with whitespace |
| JsBuiltins.TrimEnd | app/api/form/route.ts:10 | the result is a prefix of the input; what it drops is all whitespace; it does not end with whitespace |
| JsBuiltins.BlankIffAllWhitespace | app/api/form/route.ts:10 | `!s.trim()` holds exactly when every character of `s` is whitespace |
| JsBuiltins.ToUpper | app/api/form/route.ts:48 | same length; each lower-case ASCII letter becomes its capital, 32 code points lower, so none is left; every other character is kept |
| JsBuiltins.ToUpperIdempotent | app/api/form/route.ts:108 | upper-casing twice is upper-casing once |
| JsBuiltins.OrDefault | app/api/form/route.ts:51-56 | `v || fallback` is the value when it is a non-empty string and the fallback when it is absent or empty |
| JsBuiltins.NatToString | app/api/form/route.ts:115 | `String(n)` of a natural number is non-empty decimal digits without a leading zero |
| JsBuiltins.IntToString | app/api/form/route.ts:142 | the text of an integer starts with `-` exactly when the integer is negative |
| JsBuiltins.IntToStringCanonical | app/api/form/route.ts:142 | `String(n)` is `-` for a negative integer, then the magnitude's shortest digits: never a `+`, never a leading zero |
| JsBuiltins.NatToStringValue | app/api/form/route.ts:115 | the digits printed for a natural number read back as that number |
| JsBuiltins.IntToStringRoundTrip | app/api/form/route.ts:142 | `Number(String(n)) == n` for every integer |
| JsBuiltins.IntToStringInjective | app/api/form/route.ts:142 | distinct totals print as distinct texts |
| JsBuiltins.DigitChar | app/api/form/route.ts:139 | a digit value below 10 gives the digit character of that value |
| JsBuiltins.Coerce | app/api/form/route.ts:92-97 | `Number(x) || 0` is 0 when `Number(x)` is NaN and otherwise that number; it never fails |
| JsBuiltins.CoerceReadsIntegerText | app/dashboard/page.tsx:65 | an integer typed as text, with or without surrounding whitespace, reads back as itself |
| JsBuiltins.CoerceUnparsableIsZero | app/api/form/route.ts:92-97 | a text holding any character that is not a digit, a sign or whitespace coerces to 0 |
| JsBuiltins.TrimOfPadded | app/api/form/route.ts:10 | trimming removes exactly the whitespace padding around a text |
| JsBuiltins.TrimKeeps | app/api/form/route.ts:10 | a non-whitespace character survives trimming |
| JsBuiltins.ParsedTextIsNumeric | app/api/form/route.ts:92-97 | every character of a text that `Number` reads is a digit or a sign |
| JsBuiltins.ReplaceWhitespaceRuns | app/api/form/route.ts:163 | `s.replace(/\s+/g, "_")` contains no whitespace and is no longer than `s` |
| JsBuiltins.ReplaceWhitespaceRunsKeeps | app/api/form/route.ts:163 | a string without whitespace is left unchanged |
| JsBuiltins.ReplaceWhitespaceRunsIdempotent | app/api/form/route.ts:163 | replacing whitespace runs twice is replacing them once |
| JsBuiltins.ReplaceWhitespaceRunsJoin | app/api/form/route.ts:163 | a whole run of whitespace between two parts becomes exactly one `_`, and the parts on either side are replaced on their own |
| Grading.GrandTotalsAppend | app/api/form/route.ts:102-103 | both accumulated grand totals split over a concatenation of subject lists |
| Grading.GrandTotalsPermutation | app/api/form/route.ts:102-103 | the grand totals do not depend on the order of the subjects |
| Grading.QuotientBounds | app/api/form/route.ts:139 | the quotient used for the percentage is the floor of the ratio |
| Grading.HundredthsRounds | app/api/form/route.ts:139 | the printed hundredths are 10000·\|obt\|/full rounded to the nearest integer, a tie rounding up |
| Grading.Fixed2 | app/api/form/route.ts:139 | two decimal places of a count of hundredths `h`: the shortest digits of `h / 100` (no leading zero), a point and two digits, reading back as `h` |
| Grading.PercentText | app/api/form/route.ts:139 | the percentage is "0.00" whenever the full total is not positive |
| Grading.PercentTextReadsBack | app/api/form/route.ts:139 | for a positive full total the printed percentage has a `-` exactly for a negative obtained total, and the rest is exactly `Fixed2` of the hundredths, whose digits read back as 10000·\|obt\|/full rounded to the nearest |
| Grading.Summarize | app/api/form/route.ts:139-140 | the summary holds the grand full and obtained totals of the listed marks and the percentage printed from them; RESULT is PASS exactly when the obtained grand total is at least 35, whatever the full total; a non-positive full total prints "0.00" |
| Grading.SummarizeEmpty | app/api/form/route.ts:84-85 | no subjects give totals 0 / 0, "0.00" and FAIL |
| Grading.SummarizeOneSubject | app/api/form/route.ts:139-140 | 80 obtained of 100 prints "80.00" and PASS |
| Marksheet.MarksOfAt | app/api/form/route.ts:92-97 | entry k of the read marks is subject k's six fields, each read with `Number(x) || 0` |
| Marksheet.MarksOfPrefix | app/api/form/route.ts:87-97 | the marks read from a prefix of the subjects are that prefix of the marks |
| Marksheet.Filename | app/api/form/route.ts:163 | the file name ends in `_marksheet.pdf` after a non-empty stem without whitespace |
| Marksheet.FilenameKeepsPlainName | app/api/form/route.ts:163 | a name without whitespace is used unchanged in front of `_marksheet.pdf` |
| Marksheet.FilenameJoinsWords | app/api/form/route.ts:163 | two words with any whitespace run between them are joined by one `_` in front of `_marksheet.pdf` |
| Marksheet.FilenameOfTwoWordName | app/api/form/route.ts:163 | "Asha Gurung" downloads as `Asha_Gurung_marksheet.pdf` |
| Layout.ColumnOrigins | app/api/form/route.ts:62-64 | the column origins are 45 plus the widths before them: 45, 185, …, 481, and the grid ends at 543, inside the page |
| Layout.HeaderRowsPlacement | app/api/form/route.ts:66-81 | the exact header texts and their x positions; empty captions draw nothing but still advance the column |
| Layout.DashIfZeroShows | app/api/form/route.ts:109-114 | a mark shows "-" exactly when it is 0, and otherwise text that reads back as the mark |
| Layout.MarkCellShows | app/api/form/route.ts:107-116 | a mark cell is "-" exactly for a zero mark, and otherwise reads back as the mark |
| Layout.NameAndTotalCellsShow | app/api/form/route.ts:107-116 | the name cell is the upper-cased name or "—"; the total cell always shows the obtained total, 0 included |
| Layout.CellPadCentres | app/api/form/route.ts:119-122 | a mark cell's padding is at least 5 and at most half the column, and the cell is exactly centred when its estimated width leaves 5 points on each side |
| Layout.RowColours | app/api/form/route.ts:105-129 | only the total cell can be red, and it is red exactly when the subject's obtained total is below its pass marks |
| Layout.Drawn | app/api/form/route.ts:87-135 | the number of drawn rows is at most the number of subjects and at most 19 |
| Layout.DrawnIffAboveFloor | app/api/form/route.ts:88-134 | subject k gets a row exactly when 561 − 24k is at least 120 |
| Layout.RowsAt | app/api/form/route.ts:87-135 | drawn row k holds subject k's eight cells at height 561 − 24k; the rows hold 8 texts per drawn subject |
| Layout.RowsLength | app/api/form/route.ts:118-132 | the drawn rows hold 8 texts each |
| Layout.RowsOnPrefix | app/api/form/route.ts:87-135 | the rows drawn depend only on the subjects that get a row |
| Layout.RowsOfTake | app/api/form/route.ts:87-135 | the rows of a prefix of the subjects are that prefix of the rows |
| FormRoute.DrawHeaderRow | app/api/form/route.ts:69-81 | the `tx` loop draws exactly the closed-form header row |
| FormRoute.ReadMarks | app/api/form/route.ts:92-97 | the six `Number(x) || 0` reads give the subject's marks |
| FormRoute.DrawRow | app/api/form/route.ts:99-132 | the row drawn for a subject is its closed-form row: its cells and pass colour at the cursor's height |
| FormRoute.DrawCells | app/api/form/route.ts:118-132 | the cell loop, with `tx` walking the grid, draws exactly the eight closed-form cell texts |
| FormRoute.DrawRows | app/api/form/route.ts:84-135 | the subject loop draws exactly the closed-form rows of the first `Drawn(n)` subjects, leaves the cursor below the last of them, and accumulates the grand totals of exactly those subjects |
| FormRoute.AddTotals | app/api/form/route.ts:99-103 | adding a subject's `totF` and `totO` extends the running grand totals by one subject |
| FormRoute.AppendRow | app/api/form/route.ts:118-134 | appending a subject's row extends the drawn rows by one |
| FormRoute.DrawnStep | app/api/form/route.ts:88 | while the cursor is at or above 120, every subject so far has been drawn and the next one is drawn too |
| FormRoute.SkipStep | app/api/form/route.ts:88 | once the cursor is below 120, a further subject is not drawn |
| FormRoute.DrawTotals | app/api/form/route.ts:137-144 | the totals texts are the closed-form totals block of the drawn subjects' marks |
| FormRoute.DrawTable | app/api/form/route.ts:61-145 | a non-empty list draws the closed-form table and leaves the cursor at the totals' height |
| FormRoute.DrawHeading | app/api/form/route.ts:28-57 | the title and the student block, with the cursor left at 603 |
| FormRoute.DrawSignature | app/api/form/route.ts:147-154 | the signature block is drawn exactly when the cursor is above 100 |
| FormRoute.DrawMarksheet | app/api/form/route.ts:28-154 | the cursor-driven drawing emits exactly the closed-form page |
| FormRoute.Post | app/api/form/route.ts:6-169 | unparsable JSON gives 500 with its message. A missing or blank name gives 400 before anything is stored or drawn. A failed store gives 500 with its message. Otherwise the response is the stored record, the exact page and the derived file name |
| SheetProperties.RowsDescend | app/api/form/route.ts:87-135 | drawn rows go down the page and lie between 561 and the last drawn row |
| SheetProperties.TableDescends | app/api/form/route.ts:62-144 | the table goes down the page from the header row at 603 to its totals |
| SheetProperties.StackDescends | app/api/form/route.ts:62-144 | two header rows, the rows below them and a block at the bottom come top to bottom |
| SheetProperties.PageDescends | app/api/form/route.ts:28-154 | the cursor only moves down: every instruction is at or below the ones before it, between 780 and 65 |
| SheetProperties.CellTextInColumn | app/api/form/route.ts:118-131 | every cell starts strictly inside its own column |
| SheetProperties.RowInside | app/api/form/route.ts:118-131 | every cell of a row starts between x = 45 and x = 500 |
| SheetProperties.PageOnSheet | app/api/form/route.ts:24-154 | every instruction starts between 45 and 500 across and between 65 and 780 up on the 595 × 842 page |
| SheetProperties.DrawnMarksArePrefix | app/api/form/route.ts:84-103 | the totals add up every subject when there are at most 19, and only the first 19 otherwise |
| SheetProperties.DrawnMarksIgnoreSkipped | app/api/form/route.ts:88-103 | the marks counted are the same as for the list cut to 19 subjects |
| SheetProperties.TableIgnoresSkipped | app/api/form/route.ts:87-144 | the table is the same as for the list cut to 19 subjects |
| SheetProperties.SkippedSubjectsLeaveNoTrace | app/api/form/route.ts:87-154 | subjects after the 19th leave the whole page unchanged: no row, no part in the totals, and no change to the signature |
| SheetProperties.TotalsShown | app/api/form/route.ts:137-144 | a non-empty list prints GRAND TOTAL, the percentage and RESULT of the drawn rows, RESULT in green for PASS and red for FAIL |
| SheetProperties.TotalsAt | app/api/form/route.ts:137-144 | the three totals lines appear consecutively on the page |
| SheetProperties.EmptySheet | app/api/form/route.ts:59-60 | with no subjects the page is the heading, "No subjects entered" and the signature at 523, and nothing else: no table, no totals, no RESULT |
| SheetProperties.TableTextsOnly | app/api/form/route.ts:62-144 | the table draws text only, no rules |
| SheetProperties.BodyTextsOnly | app/api/form/route.ts:59-145 | whatever sits between the student block and the signature is text only |
| SheetProperties.SignatureAboveFloor | app/api/form/route.ts:147-149 | the cursor after `y -= 80` is above 100 exactly when at most 14 subjects are listed |
| SheetProperties.SignatureDrawnIff | app/api/form/route.ts:147-154 | the page has rules (the signature block) exactly when at most 14 subjects are listed, so always for an empty list |
| Dashboard.FieldAt | app/dashboard/page.tsx:223-227 | the key at a position of `Object.keys(sub)` is the one whose index is that position |
| Dashboard.Stored | app/dashboard/page.tsx:65 | a name is stored verbatim; any other key stores `Number(value) || 0`, never NaN |
| Dashboard.WithField | app/dashboard/page.tsx:63-66 | the spread update sets one key and keeps every other key |
| Dashboard.HandleSubjectChange | app/dashboard/page.tsx:55-70 | only row `index` changes, and in it only `field`; an index with no row changes nothing; the length is kept |
| Dashboard.SubjectChangeIdempotent | app/dashboard/page.tsx:55-70 | repeating an edit changes nothing more |
| Dashboard.SubjectChangesCommute | app/dashboard/page.tsx:55-70 | edits of two different cells commute |
| Dashboard.TypedNumberIsStored | app/dashboard/page.tsx:65 | an integer typed into a mark cell is the number the row then holds |
| Dashboard.AddSubject | app/dashboard/page.tsx:40-53 | one row is appended with an empty name and zero marks; the existing rows are unchanged |
| Dashboard.CalculateTotals | app/dashboard/page.tsx:73-83 | the loop returns the grand full and obtained totals of every row |
| Dashboard.GrandTotalsPointwise | app/dashboard/page.tsx:73-83 | the grand totals depend only on each row's full and obtained totals |
| Dashboard.NonTotalEditKeepsTotals | app/dashboard/page.tsx:55-83 | renaming a row or changing a pass mark leaves the dashboard totals as they were |
| Dashboard.AddSubjectKeepsTotals | app/dashboard/page.tsx:40-53 | a new blank row adds nothing to the totals |
| Dashboard.ServerReadsClientMarks | app/dashboard/page.tsx:101-105 | the marks the route reads from the posted JSON are exactly the marks the browser holds |
| Dashboard.DashboardTotalsMatchSheet | app/dashboard/page.tsx:73-83 | with at most 19 rows, the dashboard's totals equal the grand totals printed on the mark-sheet |
| Dashboard.SomeBlankName | app/dashboard/page.tsx:93 | true exactly when some subject name trims to empty |
| Dashboard.Validate | app/dashboard/page.tsx:88-96 | the form is accepted exactly when the student name and every subject name are non-blank; the name check comes first |
| Dashboard.FailureToast | app/dashboard/page.tsx:147-149 | an error toast with the error's message, or "Failed to generate PDF" when the message is empty |
| Dashboard.DownloadName | app/dashboard/page.tsx:117 | the downloaded file is the trimmed name followed by `_marksheet.pdf` |
| Dashboard.HandleSubmit | app/dashboard/page.tsx:87-152 | a rejected form is not posted and is kept with an error toast. A posted form is reset, downloaded and acknowledged on success, and kept with an error toast on a failed reply |
| Dashboard.PostedFormHasName | app/dashboard/page.tsx:88-91 | a form the browser sends always passes the route's name check |
| Dashboard.AddedSubjectBlocksSubmit | app/dashboard/page.tsx:93-96 | a freshly added row blocks submission until it is named |
| Dashboard.ResetFormIsRejected | app/dashboard/page.tsx:126-144 | after a saved mark-sheet the form is the initial blank form, which is rejected for its missing name |
| Dashboard.DownloadNameMatchesServer | app/dashboard/page.tsx:117 | for a name without whitespace the browser's file name equals the route's |
| Dashboard.CellAt | app/dashboard/page.tsx:227 | every input position `index * 7 + fieldIndex` belongs to a cell |
| Dashboard.InputPositionInjective | app/dashboard/page.tsx:227 | distinct cells have distinct input positions |
| Dashboard.InputPositionOnScreen | app/dashboard/page.tsx:223-227 | a cell's position holds an input exactly when its row exists |
| Dashboard.HandleKeyDown | app/dashboard/page.tsx:154-167 | ArrowRight/ArrowLeft focus position ±1 exactly when an input is there and always prevent the default; other keys do nothing |
| Dashboard.ArrowRightWalksTheGrid | app/dashboard/page.tsx:154-167 | ArrowRight moves to the next key of a row, and from a row's last key to the next row's name, or nowhere after the last row |
| Dashboard.ArrowKeysAreInverse | app/dashboard/page.tsx:158-166 | ArrowLeft undoes ArrowRight and vice versa |
| Middleware.Guard | middleware.ts:5-34 | the outcome is next or a redirect to "/". Public paths pass. A private path without a token is redirected. A private path with a token passes exactly when the token verifies against `JWT_SECRET || "dev-secret"` |
| Middleware.PrivatePageNeedsValidToken | middleware.ts:19-33 | a private path is reached exactly with a non-empty token that verifies |
| Middleware.RedirectTargetPasses | middleware.ts:11-22 | the redirect target "/" itself passes, so redirects never loop |
| Middleware.PublicIgnoresToken | middleware.ts:9-16 | on a public path neither the cookie nor the secret matters |
| Middleware.ApiRoutesArePublic | middleware.ts:10 | every path below `/api` is public |
| Middleware.DashboardIsGuarded | middleware.ts:9-16 | `/dashboard` and `/marksheets` are not public |
| Middleware.UnsetSecretFallsBack | middleware.ts:26-28 | an unset and an empty `JWT_SECRET` behave the same |

## Left out

- Database writes (`prisma.formData.create`) are not modelled. The store's answer is a parameter of `FormRoute.Post`, and the stored record is part of its response.
- pdf-lib is not modelled: font embedding, colour values, text measurement and `save()`. The page is a sequence of `Text` and `Line` instructions, and the response carries that sequence instead of PDF bytes.
- Request parsing is not modelled: the parsed body is a parameter, either with its parser message or with optional `student` and `subjects`. A `student` that is not an object behaves like one without a name (400). Inputs the model does not represent, and what the route does with them (a subject is read only when it gets a row, among the first 19; later subjects are skipped before `sub` is touched, so the subject cases below apply only to those):
  - a subject that is not an object but not `null` (`5`, `"x"`, `true`) draws a row of "—", six "-" and total 0, like an empty object;
  - a subject name that is falsy but not a string (`0`, `false`) draws "—", like an absent one;
  - `subjects: ""` draws "No subjects entered", like an empty list;
  - these throw and answer 500 with the error's message: a `null` subject, a truthy subject name that is not a string, `subjects: null`, an object without `length`, and a non-empty string (it has no `forEach`);
  - a student name that is not a string throws at `.trim` and answers 500 before anything is stored.
- FormRoute.Post: the standard Helvetica fonts encode WinAnsi only, so a name or detail outside it (a Devanagari name, say) throws in `drawText` after the record is stored and answers 500, and a file name with a character above U+00FF is refused by the `Content-Disposition` header. The model returns a `PdfAttachment` for these.
- SheetProperties.PageOnSheet: bounds where each instruction starts. Text width is not modelled, so a long name or detail can run past the right edge at 595.
- Student details are modelled as optional strings. A non-string value such as a numeric `symbolNumber` is printed with `String(v)` when truthy rather than rejected.
- Mark values that are arrays or objects are not modelled. `Number(x) || 0` reads `[7]` and `["7"]` as 7, and `[]`, `{}` and arrays of several elements as 0.
- Marks are integers. Fractional, exponent, hexadecimal and `Infinity` values are not modelled, and neither is IEEE arithmetic.
- JsBuiltins.StringToNumber reads only an optional sign followed by decimal digits. JavaScript's `Number` also accepts fractions, exponents and the `0x`, `0o` and `0b` prefixes, and these give 0 here rather than their value.
- JsBuiltins.IntToString does not model the exponent form JavaScript uses from 10^21 upward.
- JsBuiltins.ToUpper upper-cases ASCII letters only. Other scripts' case mappings are not modelled.
- Grading.PercentText rounds the exact ratio half away from zero. It does not model the double-precision division, the multiplication and `toFixed(2)`, which can differ where the double falls just below a tie.
- JWT verification, cookies and environment variables are not modelled. `verifies(token, secret)` is a parameter of `Middleware.Guard`, and the cookie and `JWT_SECRET` are optional strings. The `matcher` configuration that sends every path through the guard is assumed.
- Browser side effects are not modelled: React rendering, toasts other than their text, the loading toast, the object URL, the DOM download, and clearing inputs through refs. The server's answer to `fetch` is a parameter of `Dashboard.HandleSubmit`.
- Editing the student fields is not modelled. It is a plain spread update of one text field.
- Dashboard.HandleKeyDown models the array of input references as the positions of the inputs on screen, which holds only while every ref callback has run.
- The saved-mark-sheet list page, the login route and the download route are not part of this model.
