# Attendance dashboard core, modelled in Dafny

This project models the logic inside a school-attendance dashboard (absensi desa), originally written in TypeScript/React over Firestore. Students check in, and their attendance documents carry a bilingual status: `hadir`/`present`, `sakit`/`sick`, `izin`/`permitted` or `alpha`/`absent`. The dashboard does the following with those documents:

- counts them per student, per day, per class and for "today";
- lays out PDF and Excel reports from the counts;
- filters and labels them in tables;
- keeps a configurable widget grid;
- tracks the signed-in user's role and school.

Every fetched snapshot is an input sequence, so the model contains only pure functions, a few loop methods, and lemmas about them.

Modules, one per source file plus shared ones:

| module | file | models |
|---|---|---|
| `Common` | common.dfy | `Option`/`Result`, and JavaScript `||` fallbacks on counts and strings |
| `Text` | text.dfy | the string built-ins the code relies on, with their round trips proved |
| `Status` | status.dfy | classification into four buckets (`Classify`), the `Counts` record and the counting fold `Tally` |
| `Percent` | status.dfy | the value of `count / total * 100`: an exact fraction, NaN or Infinity |
| `Calendar` | calendar.dfy | month lengths, day numbers and the range of a JavaScript `Date`, the `YYYY-MM-01 .. YYYY-MM-31` query range, ISO dates, the `dd-MM-yyyy` stamp |
| `JsNumber` | js_number.dfy | `parseInt` without a radix: white space, sign, the `0x` prefix and the digit run |
| `ReportGenerator` | report_generator.dfy | `generatePDF` data refresh and summary table; `generateExcel` header, sheet name, rows and file name |
| `ComprehensiveReport` | comprehensive_report.dfy | the comprehensive PDF tables and pagination; the three-sheet workbook |
| `MonthlyReport` | monthly_report.dfy | `fetchDailyData`'s day map and its sort; `calculateSummary`'s sums |
| `MonthlyAttendance` | monthly_attendance.dfy | per-student counters, overall shares, the recap workbook and PDF row layout |
| `ByStudent` | by_student.dfy | the student search, the 12-month chart, the fallback counts handed to the generators |
| `AttendanceHistory` | attendance_history.dfy | the class list, the record filter, status text, badge, date and note columns |
| `TeacherDashboard` | teacher_dashboard.dfy | today's statistics, the percentage cards, the table label |
| `AdminDashboard` | admin_dashboard.dfy | students per class, the attendance pie split, badge, date and note columns |
| `DynamicDashboard` | dynamic_dashboard.dfy | add, remove, retitle and reset widgets across breakpoints |
| `DashboardPage` | dashboard_page.dfy | month-to-date rate, role badge, role dispatch, setup redirect |
| `Auth` | auth.dfy | the auth-state callback, `checkAuthorization`, sign-up, log-in and log-out |

The central fact the model pins down is that "total" means different things in different places:

- `generatePDF` sets `total` to the sum of the recognised counts, or 1 when that sum is 0 (`ReportGenerator.WithCounts`).
- The monthly-attendance page adds one to a student's `total` for every record of that student, recognised or not (`MonthlyAttendance.CountsWithinTotal`).
- The teacher dashboard counts every record dated today (`TeacherDashboard.StatsWithinTotal`).
- The landing page counts every record of the month (`DashboardPage.CountRate`).

`Status.TallyComplete` relates all of these. The four counts plus the unrecognised records make up the record count, so the counts reach the record count exactly when every status is recognised.

Three behaviours of the code are easy to misread; the model follows the code in each:

- **The summary total can be zero.** In `generatePDF`'s summary table the total is `attendanceData.total || sum`, so a zero total with zero counts puts NaN in every percentage cell (`ReportGenerator.SummaryNotANumber`). The comprehensive workbook divides the raw fields: a missing count or total gives NaN, and a zero total gives Infinity (`ComprehensiveReport.FormatsDisagreeWithoutTotal`).
- **Page breaks.** The monthly-attendance PDF adds a page and resets `yPos` to the margin without drawing the column header again. The comprehensive PDF draws the Nama/Kelas/Hadir/Sakit/Izin/Alpha header again after each `addPage`. Its break test uses the row index while `tableY` is reset to 20, so from row 31 on every row gets a page of its own (`ComprehensiveReport.StudentPageBreaks`).
- **Truncation keeps the start of the name.** A name longer than 18 characters is cut to its first 16 characters followed by "..." (`ComprehensiveReport.Truncate`).

## Model

| member | source | states |
|---|---|---|
| Status.ClassifyCodes | src/lib/reportGenerator.ts:73-79 | a status selects bucket k exactly when it is k's English or Indonesian code, and selects none exactly when it is none of the eight codes |
| Status.One | src/lib/reportGenerator.ts:73-79 | one record adds at most one to the four counters together |
| Status.OneGet | src/lib/reportGenerator.ts:73-79 | the counter of bucket b grows by one exactly when the record's status selects b |
| Status.Tally | src/lib/reportGenerator.ts:72-79 | the four counts of a fold never add up to more than the number of records |
| Status.TallyMultiset | src/lib/reportGenerator.ts:72-79 | each counter equals the number of records whose status selects its bucket |
| Status.TallyComplete | src/lib/reportGenerator.ts:72-79 | counts plus unrecognised records equal the record count; the counts reach it iff every status is recognised |
| Status.TallyAppend | src/lib/reportGenerator.ts:106-125 | counting two batches separately and adding the counters equals counting them together |
| Status.TallySnoc | src/app/dashboard/components/TeacherDashboard.tsx:96-106 | one more record adds exactly the unit count of its bucket |
| Status.TallySameStatuses | src/lib/reportGenerator.ts:72-79 | two record lists with the same statuses in the same order give the same counts |
| Status.CountKindsAppend | src/app/dashboard/reports/monthly/page.tsx:56-75 | the counting fold over classified records distributes over concatenation |
| Percent.Divide | src/lib/reportGenerator.ts:282-317 | `count / total * 100` is finite iff total > 0, then exactly count/total; 0/0 is NaN and n/0 is Infinity |
| Percent.DivideOpt | src/lib/reportGenerator.ts:673-676 | a missing operand yields NaN; otherwise as `Divide` |
| Percent.RoundedPercent | src/app/dashboard/page.tsx:82 | `Math.round(part / total * 100)` is the nearest integer with halves rounded up, at most 100 when part <= total, 0 for no part, 100 for all |
| Common.OrElse | src/lib/reportGenerator.ts:488-491 | `n || d` keeps a present non-zero count and otherwise gives d |
| Common.NatOr | src/app/dashboard/reports/by-student/page.tsx:303-306 | `n || d` on a count: a zero count is replaced by d |
| Common.StrOr | src/lib/reportGenerator.ts:612 | `s || d` on text: the empty string is replaced by d |
| Text.Lower | src/app/dashboard/attendance-history/page.tsx:106 | lower-casing keeps the length and maps every character |
| Text.LowerIdempotent | src/app/dashboard/attendance-history/page.tsx:106 | lower-casing twice is lower-casing once |
| Text.Upper | src/lib/reportGenerator.ts:853-869 | upper-casing keeps the length and maps every character |
| Text.ContainsAt | src/app/dashboard/reports/by-student/page.tsx:127-128 | `includes` holds iff the query occurs at some offset |
| Text.ContainsEmpty | src/app/dashboard/reports/by-student/page.tsx:127-128 | every string includes the empty query |
| Text.Split | src/app/dashboard/attendance-history/page.tsx:310 | `split` never returns an empty list and no part contains the separator |
| Text.JoinSplit | src/app/dashboard/components/AdminDashboard.tsx:298 | joining the parts of a split with the same separator gives back the string |
| Text.SplitJoin | src/app/dashboard/components/AdminDashboard.tsx:298 | splitting a join of separator-free parts gives back the parts |
| Text.Reverse | src/app/dashboard/components/AdminDashboard.tsx:298 | `reverse` keeps the length and puts element i at position n-1-i |
| Text.ReverseReverse | src/app/dashboard/components/AdminDashboard.tsx:298 | reversing twice is the identity |
| Text.NatToString | src/app/dashboard/reports/by-student/page.tsx:202 | `toString` of a count is a non-empty digit string without a leading zero |
| Text.ParseNatToString | src/app/dashboard/reports/by-student/page.tsx:202 | `parseInt` reads back what `toString` wrote |
| Text.PadStart2 | src/app/dashboard/reports/monthly/page.tsx:31-33 | `padStart(2, '0')` leaves two or more characters alone and left-fills shorter text with zeros to length 2 |
| Text.TwoDigits | src/app/dashboard/reports/monthly/page.tsx:31-33 | the padded form of n is a digit string that parses back to n, two characters below 100 |
| Text.TwoDigitsInjective | src/app/dashboard/reports/monthly/page.tsx:50-53 | different days get different two-digit keys |
| Text.ReplaceFirst | src/app/dashboard/reports/monthly-attendance/page.tsx:389 | `replace(' ', '_')` keeps the length |
| Text.ReplaceFirstEffect | src/app/dashboard/reports/monthly-attendance/page.tsx:389 | a label without a space is unchanged; otherwise exactly one space becomes `_` |
| Text.ReplaceFirstAt | src/app/dashboard/reports/monthly-attendance/page.tsx:389 | only the first space is replaced, later ones stay |
| Text.StrLeTotal | src/app/dashboard/attendance-history/page.tsx:62 | the default string order compares any two strings |
| Text.StrLeTrans | src/app/dashboard/attendance-history/page.tsx:62 | the default string order is transitive |
| Text.StrLeAntisym | src/app/dashboard/attendance-history/page.tsx:62 | strings ordered both ways are equal |
| Text.StrLeCommonPrefix | src/app/dashboard/reports/monthly/page.tsx:36-43 | a shared prefix does not change a string range comparison |
| Calendar.JsYear | src/app/dashboard/reports/monthly/page.tsx:49 | `new Date(y, m, 0)` reads a year from 0 to 99 as 1900 + y and keeps every other year, negative ones included |
| Calendar.DaysInMonth | src/app/dashboard/reports/monthly/page.tsx:49 | a month has 28 to 31 days |
| Calendar.YearLength | src/app/dashboard/reports/monthly/page.tsx:49 | the twelve month lengths add up to 366 in a Gregorian leap year and 365 otherwise |
| Calendar.DayFromYearStep | src/lib/reportGenerator.ts:147-148 | the day count of January 1 moves by 366 after a leap year and by 365 after any other year |
| Calendar.TimeRangeEnds | src/lib/reportGenerator.ts:147-151 | the valid Dates, 100,000,000 days either side of 1970-01-01, end on 275760-09-13 and start on -271821-04-20; the days just beyond are out |
| Calendar.MonthInTimeRangeYears | src/lib/reportGenerator.ts:147-151 | a month's first and last day are both valid Dates iff the year is strictly between -271821 and 275760, or is 275760 and the month is January to August, or is -271821 and the month is May to December |
| JsNumber.TrimStart | src/lib/reportGenerator.ts:147 | the trimmed text is a suffix of the input and does not start with white space |
| JsNumber.DigitOf | src/lib/reportGenerator.ts:147 | a character is a digit of base 10 iff it is 0-9, of base 16 iff it is also a-f or A-F; its value is below the base |
| JsNumber.DigitRun | src/lib/reportGenerator.ts:147 | the run is the longest prefix made only of digits |
| JsNumber.ParseInt | src/lib/reportGenerator.ts:147 | text that is all white space is NaN, and a negative result comes only after a minus sign |
| JsNumber.SkipsSpace | src/lib/reportGenerator.ts:147 | white space before the number does not change what is read |
| JsNumber.DecimalPrefix | src/lib/reportGenerator.ts:147 | decimal digits followed by a non-digit read as their decimal value |
| JsNumber.NegativeDecimalPrefix | src/lib/reportGenerator.ts:147 | after a minus sign they read as the negated value |
| JsNumber.ParseNatText | src/lib/reportGenerator.ts:147 | `parseInt` of a number's decimal text gives the number back |
| JsNumber.NoDigits | src/lib/reportGenerator.ts:147 | "0x", "0xg", "mei" and "-" read as NaN |
| JsNumber.HexExample | src/lib/reportGenerator.ts:147 | "0x7E9" reads as 2025 |
| Calendar.IsoDateParts | src/app/dashboard/reports/monthly/page.tsx:62 | a `YYYY-MM-DD` date splits on `-` into year, padded month and padded day |
| Calendar.MonthRangeSelectsMonth | src/app/dashboard/reports/monthly/page.tsx:31-43 | an ISO date with a four-digit year lies in the `-01 .. -31` range iff it has the range's year and month |
| Calendar.YearDigits | src/lib/reportGenerator.ts:356 | `yyyy` is a digit string of at least four characters that parses back to the year |
| Calendar.DdMmYyyyRoundTrip | src/lib/reportGenerator.ts:356 | the `dd-MM-yyyy` stamp splits into three digit fields that parse back to the date |
| ReportGenerator.KindName | src/lib/reportGenerator.ts:356 | the report-type tag in a file name is non-trivial and free of `_` |
| ReportGenerator.Filename | src/lib/reportGenerator.ts:356 | a report file name splits at `_` into "Laporan", the report type and the stamped date with extension, so the type can be read back |
| ReportGenerator.FilenameDistinguishesKinds | src/lib/reportGenerator.ts:918 | reports of different types never get the same file name, whatever the dates |
| ReportGenerator.PdfFilename | src/lib/reportGenerator.ts:356 | the PDF file name reads back as "Laporan", the type and `dd-MM-yyyy.pdf` |
| ReportGenerator.MergeStudentDoc | src/lib/reportGenerator.ts:58-59 | a non-empty class or name from the student document replaces the caller's; empty ones keep it; nothing else changes |
| ReportGenerator.MergeStudentDocIdempotent | src/lib/reportGenerator.ts:58-59 | merging the same document twice is merging it once |
| ReportGenerator.WithCounts | src/lib/reportGenerator.ts:82-87 | after a refetch the counts are the tally, and `total` is their sum when positive and 1 otherwise, so it is at least 1 |
| ReportGenerator.ClassTally | src/lib/reportGenerator.ts:106-125 | counting the class report query by query into shared counters equals counting all fetched records at once |
| ReportGenerator.ClassTallyOrder | src/lib/reportGenerator.ts:125 | the counters do not depend on the order in which the per-student queries finish |
| ReportGenerator.FindName | src/lib/reportGenerator.ts:144-145 | `findIndex` finds the first matching position, and none only when no position matches |
| ReportGenerator.MonthIndex | src/lib/reportGenerator.ts:139-145 | a word selects a month iff its lower-cased form is one of the twelve names |
| ReportGenerator.MonthlyTarget | src/lib/reportGenerator.ts:137-152 | the monthly refetch picks a month only for a label of at least two words: the month the second word names, with the first word read by `parseInt` as a year within the Date range |
| ReportGenerator.MonthlyTargetYears | src/lib/reportGenerator.ts:137-152 | the refetch fires iff the second word names a month and the first reads as a year whose month lies in the Date range |
| ReportGenerator.LeadingSpaceIgnored | src/lib/reportGenerator.ts:138-151 | a tab, no-break space or other white space before the year changes nothing, so "\t2025 mei" counts May 2025 |
| ReportGenerator.DistantYearSkipsRefetch | src/lib/reportGenerator.ts:147-151 | a decimal year past 275760 makes `toISOString` throw, so the refetch is skipped, as for "300000 mei" |
| ReportGenerator.LastYearOfRange | src/lib/reportGenerator.ts:147-151 | in 275760, January to August are counted and later months are skipped |
| ReportGenerator.LabelTarget | src/lib/reportGenerator.ts:137-152 | a two-word label selects the named month exactly when that month of the year read from the first word lies in the Date range |
| ReportGenerator.MonthNamesStartWithLetters | src/lib/reportGenerator.ts:139-143 | no month name begins with a digit |
| ReportGenerator.CallerLabelSkipsRefetch | src/lib/reportGenerator.ts:138-147 | a `<month> <year>` label never selects a month, because the second word is the year |
| ReportGenerator.YearFirstLabelRefetches | src/lib/reportGenerator.ts:138-151 | a `<year> <month>` label with a decimal year below 275760 selects the month it names |
| ReportGenerator.Refetch | src/lib/reportGenerator.ts:33-184 | without a school id, for a custom report or when the school or student read throws, the data and details are kept; otherwise the data is kept or carries a total of at least 1; month and class are never touched |
| ReportGenerator.RefetchOnFailure | src/lib/reportGenerator.ts:51-69 | a throwing read keeps the caller's counts; a found student document has already merged its class and name into the details, so they survive a throwing attendance query; otherwise the details are unchanged |
| ReportGenerator.RefetchSkipped | src/lib/reportGenerator.ts:51-181 | with no read failing, a student report without an id or student document, a class report without a class name, and a monthly report whose label names no month all keep the caller's data and details |
| ReportGenerator.RefetchTallies | src/lib/reportGenerator.ts:51-181 | student, class and monthly refetches set the four counts to the tally of the student's records, all class members' records and the month's records, and `total` to that tally's sum, or 1 when the sum is 0 |
| ReportGenerator.MonthlyRefetchSkipped | src/lib/reportGenerator.ts:137-181 | with the pages' own month labels a monthly report keeps the caller's counts |
| ReportGenerator.TableTotal | src/lib/reportGenerator.ts:242-243 | the table total is `total` when non-zero, otherwise the sum of the four counts |
| ReportGenerator.SummaryRows | src/lib/reportGenerator.ts:282-328 | five rows: Hadir, Sakit, Izin, Alpha with their counts, then Total with the table total and "100%" |
| ReportGenerator.PercentCells | src/lib/reportGenerator.ts:282-317 | each percentage cell is its count divided by the table total |
| ReportGenerator.SummaryNotANumber | src/lib/reportGenerator.ts:242-317 | a table total of 0 puts NaN in all four percentage cells |
| ReportGenerator.SummaryPercentages | src/lib/reportGenerator.ts:242-328 | with a positive table total the cells are exact fractions, and they add up to the "100%" row iff `total` is absent, 0 or the sum of the counts |
| ReportGenerator.RefetchedSummary | src/lib/reportGenerator.ts:82-87 | after a refetch the table is finite, and its percentages add up to 100% iff some fetched record had a recognised status |
| ReportGenerator.ExcelHeader | src/lib/reportGenerator.ts:853-871 | the header has 7 rows plus the title rows the report type adds |
| ReportGenerator.ExcelHeaderRows | src/lib/reportGenerator.ts:853-871 | letterhead and closing rows are shared; monthly adds the month (the current one if none), class adds the class, student adds the student's name |
| ReportGenerator.SheetName | src/lib/reportGenerator.ts:909-913 | every worksheet name starts with "Laporan " |
| ReportGenerator.SheetNameShared | src/lib/reportGenerator.ts:909-913 | two different report types share a sheet name exactly when they are the student and custom types |
| ReportGenerator.SignatureRows | src/lib/reportGenerator.ts:884-896 | eleven rows; the teacher's name falls back to a blank line and the principal's NIP to "-" |
| ReportGenerator.Assemble | src/lib/reportGenerator.ts:871-899 | the sheet is the header, the column titles, the five summary rows and the signature block, in that order |
| ReportGenerator.ExcelInfo | src/lib/reportGenerator.ts:826-844 | only a student report with a school id, a student id and a found document merges that document |
| ReportGenerator.GenerateExcel | src/lib/reportGenerator.ts:819-922 | a workbook is produced iff the sheet name has at most 31 characters and none of `: \ / ? * [ ]`; then the sheet holds the summary rows right after the type's header, non-student sheets take the type's name and the file name reads back as type and date |
| ReportGenerator.SheetNameAccepted | src/lib/reportGenerator.ts:909-915 | monthly and student sheet names are always accepted; a class report's is accepted iff its class name (or "undefined") has at most 17 characters and no forbidden character |
| ReportGenerator.SlashedClassFails | src/lib/reportGenerator.ts:909-915 | a class report for class "X/IPA 1" produces no workbook |
| ComprehensiveReport.PdfDivisor | src/lib/reportGenerator.ts:436-437 | the PDF divisor is the month's total when positive, else 100, so always at least 1 |
| ComprehensiveReport.PdfMonthlyRows | src/lib/reportGenerator.ts:439-460 | four status rows in bucket order and a Total row showing the divisor and "100%" |
| ComprehensiveReport.PdfMonthlyFinite | src/lib/reportGenerator.ts:436-451 | every PDF monthly percentage is a finite fraction of the count (0 if missing) over the divisor |
| ComprehensiveReport.WeekLabel | src/lib/reportGenerator.ts:487 | a week's label is never empty and is its own label when it has one |
| ComprehensiveReport.UnlabelledWeekNumber | src/lib/reportGenerator.ts:487 | an unlabelled week reads "Minggu " followed by its 1-based position |
| ComprehensiveReport.PdfWeeklyRows | src/lib/reportGenerator.ts:480-493 | one row per given week, none without weekly data, missing counts shown as 0 |
| ComprehensiveReport.Truncate | src/lib/reportGenerator.ts:608-609 | names up to 18 characters are kept; longer names become their first 16 characters and "..." (19 characters) |
| ComprehensiveReport.TruncateIdempotent | src/lib/reportGenerator.ts:608-609 | truncating a shown name again changes nothing |
| ComprehensiveReport.TruncatePrefix | src/lib/reportGenerator.ts:608-609 | a shown name has at most 19 characters and starts with the name's first 16 |
| ComprehensiveReport.StudentSource | src/lib/reportGenerator.ts:577-579 | the student rows come only from the caller's student data, and there are none without it |
| ComprehensiveReport.PdfStudentRows | src/lib/reportGenerator.ts:577-617 | one row per given student, in order |
| ComprehensiveReport.Paginate | src/lib/reportGenerator.ts:581-601 | one placement per remaining row |
| ComprehensiveReport.StudentLayout | src/lib/reportGenerator.ts:581-601 | one placement per student |
| ComprehensiveReport.PaginateBreaks | src/lib/reportGenerator.ts:584-586 | from any row, with the `tableY` it then has, a page is added exactly at row 27 and at every row from 31 on |
| ComprehensiveReport.StudentPageBreaks | src/lib/reportGenerator.ts:584-601 | a new page starts exactly before row 27 and before every row from 31 on |
| ComprehensiveReport.PaginateFirstPage | src/lib/reportGenerator.ts:601 | rows 0..26 stay on the first page at `60 + 8 * (index % 25)` |
| ComprehensiveReport.StudentRowsOverlap | src/lib/reportGenerator.ts:601 | with 26 or more students rows 25 and 0, and rows 26 and 1, are drawn at the same height on the first page |
| ComprehensiveReport.GeneratePdf | src/lib/reportGenerator.ts:377-647 | the PDF's monthly, weekly and student tables are the rows built from the fetched month, week and student data, the students are placed by the page layout, and the file name reads back as "Laporan_Komprehensif_<date>.pdf" |
| ComprehensiveReport.ExcelMonthlyRows | src/lib/reportGenerator.ts:671-678 | the column titles, four status rows in bucket order, and a Total row with `total || 0` and "100%" |
| ComprehensiveReport.FormatsDisagreeWithoutTotal | src/lib/reportGenerator.ts:673-676 | without a total the PDF shows each count over 100 while the workbook shows NaN |
| ComprehensiveReport.FormatsAgreeWithTotal | src/lib/reportGenerator.ts:673-676 | with a positive total and the count present both formats show the same fraction |
| ComprehensiveReport.ExcelWeekRow | src/lib/reportGenerator.ts:741-748 | a weekly row shows the label and the four counts (missing as 0), and its last cell is their sum |
| ComprehensiveReport.Footer | src/lib/reportGenerator.ts:773-782 | every sheet ends with the same eight footer rows |
| ComprehensiveReport.MonthlySheet | src/lib/reportGenerator.ts:659-678 | the "Bulanan" sheet has 22 rows, with the status table at rows 8..13 |
| ComprehensiveReport.WeeklySheet | src/lib/reportGenerator.ts:739-748 | the "Mingguan" sheet has one row per given week, in order, between its header and the footer |
| ComprehensiveReport.StudentSheet | src/lib/reportGenerator.ts:751-770 | the "Per Siswa" sheet holds only its four header rows and the footer |
| ComprehensiveReport.GenerateWorkbook | src/lib/reportGenerator.ts:649-817 | the workbook is built iff monthly and weekly data are given; it has the three sheets in order and a file name reading back as "Laporan_Komprehensif_<date>.xlsx" |
| MonthlyReport.Query | src/app/dashboard/reports/monthly/page.tsx:36-43 | a record is returned iff it was fetched and its date lies in the range; the result keeps the fetched order |
| MonthlyReport.QueryCounts | src/app/dashboard/reports/monthly/page.tsx:36-43 | each record in range is returned as often as it was fetched, every other record never |
| MonthlyReport.DayField | src/app/dashboard/reports/monthly/page.tsx:62 | a date has a day field iff it splits into at least three parts |
| MonthlyReport.DayOfKey | src/app/dashboard/reports/monthly/page.tsx:64 | a key names day d iff it is d's two-digit form for some d in 1..N |
| MonthlyReport.RecordDay | src/app/dashboard/reports/monthly/page.tsx:58-64 | a record is counted only on a day of the month |
| MonthlyReport.IsoDateDay | src/app/dashboard/reports/monthly/page.tsx:58-64 | an ISO date's day field is its padded day, which is a key iff the month has that day |
| MonthlyReport.Initial | src/app/dashboard/reports/monthly/page.tsx:49-53 | the day map starts with N entries, all zero |
| MonthlyReport.Tags | src/app/dashboard/reports/monthly/page.tsx:56-75 | each record is read as its day and its bucket |
| MonthlyReport.Bump | src/app/dashboard/reports/monthly/page.tsx:64-73 | one record never changes the number of day entries |
| MonthlyReport.BumpAt | src/app/dashboard/reports/monthly/page.tsx:64-73 | a record changes only its own day's entry, by its unit count |
| MonthlyReport.Fold | src/app/dashboard/reports/monthly/page.tsx:56-75 | the loop keeps exactly one entry per day of the month |
| MonthlyReport.FoldOnDay | src/app/dashboard/reports/monthly/page.tsx:56-75 | after the loop a day's entry counts exactly the records that fall on that day |
| MonthlyReport.FoldTotal | src/app/dashboard/reports/monthly/page.tsx:56-75 | all entries together count the records that fall on some day of the month |
| MonthlyReport.DailyCounts | src/app/dashboard/reports/monthly/page.tsx:46-75 | the day map has one entry per day of the month |
| MonthlyReport.DailyCountsOnDay | src/app/dashboard/reports/monthly/page.tsx:56-75 | each day's counts are the tally of exactly the records whose day field names that day |
| MonthlyReport.DailyCountsTotal | src/app/dashboard/reports/monthly/page.tsx:56-75 | the entries add up to the tally of every record that landed on a day; others are dropped |
| MonthlyReport.Insert | src/app/dashboard/reports/monthly/page.tsx:83 | inserting one entry lengthens the list by one |
| MonthlyReport.Key | src/app/dashboard/reports/monthly/page.tsx:83 | a day key parses back to its day: the two-digit form of day d gives d, and every two-digit key is the two-digit form of its value; a non-numeric key counts as 0 |
| MonthlyReport.SortByDay | src/app/dashboard/reports/monthly/page.tsx:83 | the sort keeps the number of entries |
| MonthlyReport.SortAscending | src/app/dashboard/reports/monthly/page.tsx:83 | an already ascending list is left as it is |
| MonthlyReport.Run | src/app/dashboard/reports/monthly/page.tsx:78-81 | the entries of days a..b, one per day, in day order |
| MonthlyReport.RunKeys | src/app/dashboard/reports/monthly/page.tsx:78-81 | the i-th entry of a run has key a + i |
| MonthlyReport.RunAscending | src/app/dashboard/reports/monthly/page.tsx:78-83 | a run of days is in ascending key order |
| MonthlyReport.EntriesOrder | src/app/dashboard/reports/monthly/page.tsx:78-81 | `Object.entries` lists every day once |
| MonthlyReport.SortedEntries | src/app/dashboard/reports/monthly/page.tsx:78-83 | sorting the entries by `parseInt` of their key gives days 1..N in order, each with its own counts |
| MonthlyReport.SummaryRun | src/app/dashboard/reports/monthly/page.tsx:263-269 | summing a run of day entries from day a on gives the total of those days' counts |
| MonthlyReport.FetchDailyData | src/app/dashboard/reports/monthly/page.tsx:25-88 | a failed read gives []; otherwise one entry per day of the month, keyed "01".."NN" in order, each the tally of the month's records on that day |
| MonthlyReport.Summary | src/app/dashboard/reports/monthly/page.tsx:260-269 | the four sums are those of the page's `reduce`, which adds the days front to back onto a zero accumulator |
| MonthlyReport.SummaryOfMonth | src/app/dashboard/reports/monthly/page.tsx:260-269 | the summary sums are the tally of the month's records whose day field names a day of the month, or zero after a failed read |
| MonthlyReport.RecordCounted | src/app/dashboard/reports/monthly/page.tsx:31-64 | a stored ISO-dated record is counted on day d iff it has the report's year and month and the month has day d |
| MonthlyAttendance.Fresh | src/app/dashboard/reports/monthly-attendance/page.tsx:110-121 | every listed student starts with all counters and `total` at zero, in list order |
| MonthlyAttendance.FindIndex | src/app/dashboard/reports/monthly-attendance/page.tsx:141-142 | `findIndex` gives the first student with the id, and none only when no student has it |
| MonthlyAttendance.Marks | src/app/dashboard/reports/monthly-attendance/page.tsx:135-138 | each record is read as its student id and its bucket |
| MonthlyAttendance.Of | src/app/dashboard/reports/monthly-attendance/page.tsx:141-153 | a record is a student's iff it was fetched and carries that student's id; the selection keeps the fetched order |
| MonthlyAttendance.OfCounts | src/app/dashboard/reports/monthly-attendance/page.tsx:141-153 | each of the student's records is selected as often as it was fetched, every other record never |
| MonthlyAttendance.Record | src/app/dashboard/reports/monthly-attendance/page.tsx:140-154 | one record never changes which students are listed |
| MonthlyAttendance.Apply | src/app/dashboard/reports/monthly-attendance/page.tsx:135-155 | the loop keeps the students and their order |
| MonthlyAttendance.FetchAttendance | src/app/dashboard/reports/monthly-attendance/page.tsx:100-158 | one row per fetched student, in order |
| MonthlyAttendance.LoadRecap | src/app/dashboard/reports/monthly-attendance/page.tsx:89-199 | without a school id, or when a read throws, the previous table and shares stay; otherwise the table is the fetched rows and the four shares are computed from them |
| MonthlyAttendance.LoadedShares | src/app/dashboard/reports/monthly-attendance/page.tsx:160-196 | after a load each of the four shares is its bucket's count over the month's records of the listed students, divided by the number of those records |
| MonthlyAttendance.ApplyMarks | src/app/dashboard/reports/monthly-attendance/page.tsx:135-155 | after the loop, the first listed student with an id holds the counts and number of that id's marks; any later student with the same id keeps zeros |
| MonthlyAttendance.ApplyCounters | src/app/dashboard/reports/monthly-attendance/page.tsx:110-155 | the first student with an id gets the tally and number of that id's records; a later duplicate stays at zero |
| MonthlyAttendance.CountsWithinTotal | src/app/dashboard/reports/monthly-attendance/page.tsx:143-153 | a student's four counts never exceed its `total`, and equal it iff all its statuses are recognised |
| MonthlyAttendance.UnknownIgnored | src/app/dashboard/reports/monthly-attendance/page.tsx:141-142 | a record whose student id names no listed student changes nothing |
| MonthlyAttendance.ListedFound | src/app/dashboard/reports/monthly-attendance/page.tsx:141-142 | `findIndex` succeeds iff some listed student has the id |
| MonthlyAttendance.RecordSums | src/app/dashboard/reports/monthly-attendance/page.tsx:161-173 | a record that finds its student adds its unit count to the sums and one to the total; otherwise nothing changes |
| MonthlyAttendance.SumCountsOfMarks | src/app/dashboard/reports/monthly-attendance/page.tsx:161-173 | the summed counters equal the count of the records that belong to listed students |
| MonthlyAttendance.SumTotalOfMarks | src/app/dashboard/reports/monthly-attendance/page.tsx:161-173 | the summed totals equal the number of records that belong to listed students |
| MonthlyAttendance.OverallSums | src/app/dashboard/reports/monthly-attendance/page.tsx:161-173 | the overall counts are the tally of the matched records, and the overall total is their number |
| MonthlyAttendance.ShareOf | src/app/dashboard/reports/monthly-attendance/page.tsx:175-196 | a share is 0 when the summed total is 0, and otherwise count over total |
| MonthlyAttendance.Shares | src/app/dashboard/reports/monthly-attendance/page.tsx:175-196 | there are four shares |
| MonthlyAttendance.StudentRow | src/app/dashboard/reports/monthly-attendance/page.tsx:423-434 | a student's row holds name, NISN and class, then the counters in the order Hadir, Sakit, Izin, Alpha, then the total |
| MonthlyAttendance.TotalRow | src/app/dashboard/reports/monthly-attendance/page.tsx:437-446 | the TOTAL row holds each bucket's counter summed over all students, in the same order, and their sum last |
| MonthlyAttendance.SharesAddUp | src/app/dashboard/reports/monthly-attendance/page.tsx:175-196 | the shares are fractions of the matched-record count; their numerators add up to at most it, and to it iff every matched status is recognised |
| MonthlyAttendance.RecapFilename | src/app/dashboard/reports/monthly-attendance/page.tsx:389 | the name is "Rekap_Kehadiran_", the month label and the extension, with the label's length kept; a label without a space is kept as is, otherwise it loses exactly one space |
| MonthlyAttendance.RecapFilenameOfLabel | src/app/dashboard/reports/monthly-attendance/page.tsx:389 | a `<month> <year>` label gives `Rekap_Kehadiran_<month>_<year>` plus the extension |
| MonthlyAttendance.RecapHeader | src/app/dashboard/reports/monthly-attendance/page.tsx:408-420 | the recap sheet has eleven header rows |
| MonthlyAttendance.StudentRows | src/app/dashboard/reports/monthly-attendance/page.tsx:423-434 | one workbook row per student, in list order |
| MonthlyAttendance.RecapSheet | src/app/dashboard/reports/monthly-attendance/page.tsx:408-467 | the sheet "Rekap Kehadiran" has 11 header rows, then one row per student in order, then the TOTAL row |
| MonthlyAttendance.TotalCellBelowTotals | src/app/dashboard/reports/monthly-attendance/page.tsx:437-446 | the TOTAL cell is the sum of the four status sums, and falls short of the summed `total` column by exactly the matched unrecognised records |
| MonthlyAttendance.Layout | src/app/dashboard/reports/monthly-attendance/page.tsx:277-326 | one slot per remaining student row |
| MonthlyAttendance.RowStep | src/app/dashboard/reports/monthly-attendance/page.tsx:319-325 | moving down a row passes the limit exactly after row 25 and every 33rd row after it, then returns to the margin |
| MonthlyAttendance.LayoutAt | src/app/dashboard/reports/monthly-attendance/page.tsx:319-325 | from any row on, each row is drawn at its closed-form height and breaks the page as the closed form says |
| MonthlyAttendance.StudentRowsLayout | src/app/dashboard/reports/monthly-attendance/page.tsx:252-326 | row j is drawn at its closed-form height between the margin and the limit, and a page follows it only after row 25 or every 33rd row after it, never after the last |
| MonthlyAttendance.EndAt | src/app/dashboard/reports/monthly-attendance/page.tsx:319-326 | the TOTAL row is drawn 7 mm below the last student row |
| MonthlyAttendance.TotalsPlacement | src/app/dashboard/reports/monthly-attendance/page.tsx:329-385 | the TOTAL row can start up to 7 mm past the limit; with 26 students the principal's NIP line lands at 299 mm, below the A4 page |
| ByStudent.TextOr | src/app/dashboard/reports/by-student/page.tsx:310-313 | `a || d` on an optional field keeps a truthy value and otherwise gives d |
| ByStudent.Search | src/app/dashboard/reports/by-student/page.tsx:124-129 | the result is the matching students in list order, each as often as in the list, and each has a name or a nisn |
| ByStudent.Shown | src/app/dashboard/reports/by-student/page.tsx:124-130 | an empty fetch leaves the previous list; otherwise the list is the search result |
| ByStudent.EmptyQuery | src/app/dashboard/reports/by-student/page.tsx:127-128 | the empty query keeps exactly the students with a name or a nisn |
| ByStudent.NameMatchIgnoresCase | src/app/dashboard/reports/by-student/page.tsx:127 | for the name test, the query and its lower-cased form select the same students |
| ByStudent.Chart | src/app/dashboard/reports/by-student/page.tsx:199-216 | 12 points named "1".."12", all zero except the current month |
| ByStudent.ChartShowsSummary | src/app/dashboard/reports/by-student/page.tsx:210-226 | the current month's point always equals the monthly summary, so the `length > 0` guard changes nothing |
| ByStudent.ChartNames | src/app/dashboard/reports/by-student/page.tsx:199-208 | the point names parse back to the month numbers 1..12 |
| ByStudent.FetchStudent | src/app/dashboard/reports/by-student/page.tsx:154-242 | nothing without school and student id; an empty chart and zero counts after a failed read; otherwise the chart and tally of this student's records of the month |
| ByStudent.ReportData | src/app/dashboard/reports/by-student/page.tsx:303-306 | each count handed on is the summary's count, with 0 or a missing summary replaced by 20/2/1/1 |
| ByStudent.ReportDataFaithful | src/app/dashboard/reports/by-student/page.tsx:303-306 | the counts reach the report unchanged iff all four are non-zero; after a failed fetch the report shows 20/2/1/1 |
| ByStudent.ReportDataFinite | src/app/dashboard/reports/by-student/page.tsx:339-342 | the report's table total is at least 4, so every percentage is finite |
| ByStudent.ReportInfo | src/app/dashboard/reports/by-student/page.tsx:309-318 | the class is `kelas`, else `class`; the school id is truthy iff the page's is |
| ByStudent.DownloadsDiffer | src/app/dashboard/reports/by-student/page.tsx:331-356 | the Excel download never recounts: its summary rows are exactly those of the page's counts (or the 20/2/1/1 fallback), while the PDF download of the same student can refetch and change them |
| AttendanceHistory.Insert | src/app/dashboard/attendance-history/page.tsx:62 | inserting into a sorted list keeps it sorted and adds exactly that name |
| AttendanceHistory.SortNames | src/app/dashboard/attendance-history/page.tsx:62 | the result is sorted and a permutation of the input |
| AttendanceHistory.SortedPairs | src/app/dashboard/attendance-history/page.tsx:62 | in the sorted list every earlier name is at most every later one |
| AttendanceHistory.ClassList | src/app/dashboard/attendance-history/page.tsx:55-62 | the class list is sorted and holds exactly the truthy names |
| AttendanceHistory.NamedCounts | src/app/dashboard/attendance-history/page.tsx:56-61 | every non-empty name is kept once per occurrence and the empty name is dropped |
| AttendanceHistory.Filter | src/app/dashboard/attendance-history/page.tsx:97-111 | a record is shown iff it passes the class test and, for a non-empty query, its lower-cased name contains the lower-cased query |
| AttendanceHistory.FilterSubsequence | src/app/dashboard/attendance-history/page.tsx:97-111 | the filtered list keeps the fetched order |
| AttendanceHistory.FilterIdempotent | src/app/dashboard/attendance-history/page.tsx:97-111 | filtering again with the same settings changes nothing |
| AttendanceHistory.FilterEverything | src/app/dashboard/attendance-history/page.tsx:99-110 | with class "all" and an empty search every record is listed |
| AttendanceHistory.SearchIgnoresCase | src/app/dashboard/attendance-history/page.tsx:104-107 | the query and its lower-cased form select the same records |
| AttendanceHistory.StatusText | src/app/dashboard/attendance-history/page.tsx:143-160 | the eight codes show their bucket's label, and any other status is shown as is |
| AttendanceHistory.BadgeClass | src/app/dashboard/attendance-history/page.tsx:123-140 | the badge is the colour of the status's bucket, and gray when no bucket selects it |
| AdminDashboard.BadgeClass | src/app/dashboard/components/AdminDashboard.tsx:283-290 | the badge is the history page's colour for the status's bucket, with an unrecognised status coloured as absent rather than gray |
| AttendanceHistory.BadgeGroupsLikeClassify | src/app/dashboard/attendance-history/page.tsx:123-140 | two statuses get the same badge iff they fall in the same bucket or in none |
| AttendanceHistory.BadgeAgreesWithText | src/app/dashboard/attendance-history/page.tsx:123-160 | a status has a coloured badge iff it is recognised, and then its text is its label |
| AttendanceHistory.LabelSpelledStatus | src/app/dashboard/attendance-history/page.tsx:123-160 | "Hadir" reads like "hadir" but keeps the gray badge |
| AttendanceHistory.DisplayDate | src/app/dashboard/attendance-history/page.tsx:310-313 | a date that does not split into exactly three parts is shown unchanged |
| AttendanceHistory.DisplayIsoDate | src/app/dashboard/attendance-history/page.tsx:310-313 | a `YYYY-MM-DD` date is shown `DD/MM/YYYY` |
| AttendanceHistory.DisplayDateReverses | src/app/dashboard/attendance-history/page.tsx:310-313 | the shown date splits on `/` into the stored parts, reversed |
| AttendanceHistory.NoteText | src/app/dashboard/attendance-history/page.tsx:335 | the note column is never empty and shows the note when there is one |
| TeacherDashboard.OfDay | src/app/dashboard/components/TeacherDashboard.tsx:86 | the records kept are exactly those dated today |
| TeacherDashboard.CountToday | src/app/dashboard/components/TeacherDashboard.tsx:83-106 | the loop yields the tally of today's records and their number |
| TeacherDashboard.Refresh | src/app/dashboard/components/TeacherDashboard.tsx:82-109 | an empty list keeps the previous statistics; otherwise they are today's |
| TeacherDashboard.StatsWithinTotal | src/app/dashboard/components/TeacherDashboard.tsx:88-106 | the four counters never exceed `total`, and equal it iff every status of today is recognised |
| TeacherDashboard.OtherDayIgnored | src/app/dashboard/components/TeacherDashboard.tsx:86 | a record dated another day changes nothing |
| TeacherDashboard.TodayCounted | src/app/dashboard/components/TeacherDashboard.tsx:86-106 | a record dated today adds one to `total` and its unit count to the counters |
| TeacherDashboard.NothingToday | src/app/dashboard/components/TeacherDashboard.tsx:60-108 | a non-empty list with nothing dated today gives all zeros |
| TeacherDashboard.CardPercent | src/app/dashboard/components/TeacherDashboard.tsx:150 | a card shows 0 for a zero total, and otherwise the nearest integer percentage, at most 100 |
| TeacherDashboard.CardsInRange | src/app/dashboard/components/TeacherDashboard.tsx:150-186 | every card of the computed statistics shows at most 100 |
| TeacherDashboard.TableLabel | src/app/dashboard/components/TeacherDashboard.tsx:246-248 | the table label is the bucket's label, an unrecognised status reading as "Alpha" |
| TeacherDashboard.TableLabelVersusHistory | src/app/dashboard/components/TeacherDashboard.tsx:246-248 | the table and the history page agree on a status iff it is recognised or spelled "Alpha" |
| AdminDashboard.Bars | src/app/dashboard/components/AdminDashboard.tsx:105-115 | one bar at 0 for each class with a truthy name, in query order |
| AdminDashboard.LastIndex | src/app/dashboard/components/AdminDashboard.tsx:113 | `classMap[name]` is the last bar with that name, and none when no bar has it |
| AdminDashboard.LastIndexIs | src/app/dashboard/components/AdminDashboard.tsx:113 | the map points at bar i iff i is the last bar with that name |
| AdminDashboard.Bump | src/app/dashboard/components/AdminDashboard.tsx:123-125 | a student never renames or removes bars |
| AdminDashboard.CountStudents | src/app/dashboard/components/AdminDashboard.tsx:121-126 | the loop keeps the bars and their names |
| AdminDashboard.CountPerClass | src/app/dashboard/components/AdminDashboard.tsx:105-126 | the last bar of a name gains the number of students in that class; earlier bars of the same name gain nothing |
| AdminDashboard.TotalOfCount | src/app/dashboard/components/AdminDashboard.tsx:121-126 | every student is counted once on some bar unless its class has none |
| AdminDashboard.UnknownZero | src/app/dashboard/components/AdminDashboard.tsx:121-126 | no student goes uncounted iff every student's class has a bar |
| AdminDashboard.ClassTotals | src/app/dashboard/components/AdminDashboard.tsx:105-130 | the bars add up to at most the number of students, and to exactly it iff every class is among the fetched classes |
| AdminDashboard.ClassData | src/app/dashboard/components/AdminDashboard.tsx:100-126 | one bar per truthy class name in query order; the last bar of a name counts the students whose class is that name, and an earlier bar of the same name stays at 0 |
| AdminDashboard.ShownClasses | src/app/dashboard/components/AdminDashboard.tsx:128-133 | a throwing read, or a fetch without a named class, keeps the previous chart; otherwise the chart becomes the counted bars |
| AdminDashboard.RoundHalf | src/app/dashboard/components/AdminDashboard.tsx:148 | `Math.round(remaining * 0.5)` is half of remaining, rounded up |
| AdminDashboard.Distribution | src/app/dashboard/components/AdminDashboard.tsx:141-157 | a zero rate keeps the previous pie; otherwise Hadir is the rate, Sakit the rest halved with halves rounded up, Izin the rounded three-tenths share and Alpha what is left |
| AdminDashboard.DistributionSums | src/app/dashboard/components/AdminDashboard.tsx:143-150 | with a non-zero rate the four slices add up to exactly 100, however rounding falls |
| AdminDashboard.DistributionNonNegative | src/app/dashboard/components/AdminDashboard.tsx:143-150 | for a rate in 1..100 no slice is negative |
| AdminDashboard.BadgeMatchesLabel | src/app/dashboard/components/AdminDashboard.tsx:284-294 | the badge is red iff the label is "Alpha"; on recognised statuses it is the history page's colour |
| AdminDashboard.ReversedDate | src/app/dashboard/components/AdminDashboard.tsx:298 | a missing date shows "-" |
| AdminDashboard.ReversedParts | src/app/dashboard/components/AdminDashboard.tsx:298 | the shown date's parts are the stored date's parts, back to front |
| AdminDashboard.ReversedDateTwice | src/app/dashboard/components/AdminDashboard.tsx:298 | reversing twice gives back the stored date |
| AdminDashboard.ReversedIsoDate | src/app/dashboard/components/AdminDashboard.tsx:298 | a `YYYY-MM-DD` date is shown `DD-MM-YYYY` |
| AdminDashboard.NoteShown | src/app/dashboard/components/AdminDashboard.tsx:304 | the note is the first non-empty of notes, note and catatan, else "-" |
| AdminDashboard.NoteFromFields | src/app/dashboard/components/AdminDashboard.tsx:304 | the shown note is always one of the three fields or "-" |
| DynamicDashboard.TitleOf | src/components/DynamicDashboard.tsx:111 | a widget's title is its default title, or "Widget " and its id |
| DynamicDashboard.WidgetsOf | src/components/DynamicDashboard.tsx:108-113 | one widget per `lg` item, in order |
| DynamicDashboard.WidgetOf | src/components/DynamicDashboard.tsx:108-113 | a widget keeps its item's id and type, takes the id's default title or "Widget <id>", and has sample data exactly for the five chart types |
| DynamicDashboard.InitialBoard | src/components/DynamicDashboard.tsx:96-114 | the saved layouts if any, else the defaults, with one widget per `lg` item |
| DynamicDashboard.InitialMatchesLg | src/components/DynamicDashboard.tsx:106-114 | widget k has the id and type of `lg` item k |
| DynamicDashboard.Capitalise | src/components/DynamicDashboard.tsx:143 | the first character is upper-cased and the rest is kept |
| DynamicDashboard.Bottom | src/components/DynamicDashboard.tsx:153-154 | the bottom is the largest `y + h` of the items, or 0 for none |
| DynamicDashboard.AddWidget | src/components/DynamicDashboard.tsx:138-170 | one widget is appended, and one item with the new id is appended to every breakpoint, the rest unchanged |
| DynamicDashboard.NewItem | src/components/DynamicDashboard.tsx:151-160 | the new item sits at the left edge, 6 wide, 2 high for stats and 4 otherwise, exactly on the lowest bottom edge of the existing items, or at 0 when there are none |
| DynamicDashboard.AppendEverywhere | src/components/DynamicDashboard.tsx:151-166 | the breakpoints stay the same |
| DynamicDashboard.AddedBelow | src/components/DynamicDashboard.tsx:151-166 | the new item is at x = 0, 6 wide, 2 high for "stats" and 4 otherwise, and below every existing item |
| DynamicDashboard.AddedTitle | src/components/DynamicDashboard.tsx:143 | the new widget is titled "New", the capitalised type, "Chart" |
| DynamicDashboard.DropWidget | src/components/DynamicDashboard.tsx:175 | the result is the widgets with other ids, as a subsequence of the list in its order |
| DynamicDashboard.DropItem | src/components/DynamicDashboard.tsx:180 | the result is the items with other ids, as a subsequence of the list in its order |
| DynamicDashboard.RemoveWidget | src/components/DynamicDashboard.tsx:173-183 | the id disappears from the widgets and from every breakpoint; every other widget and item stays, in its order and as often as before; the breakpoints are the same |
| DynamicDashboard.DropEverywhere | src/components/DynamicDashboard.tsx:177-182 | every breakpoint keeps its key and has the id filtered out of its items |
| DynamicDashboard.DropWidgetCounts | src/components/DynamicDashboard.tsx:175 | each widget with another id is kept as often as it occurs, and widgets with the id are gone |
| DynamicDashboard.DropItemCounts | src/components/DynamicDashboard.tsx:180 | each item with another id is kept as often as it occurs, and items with the id are gone |
| DynamicDashboard.DropWidgetAbsent | src/components/DynamicDashboard.tsx:175 | removing an id nobody has leaves the widgets unchanged |
| DynamicDashboard.DropItemAbsent | src/components/DynamicDashboard.tsx:180 | removing an id no item has leaves the items unchanged |
| DynamicDashboard.RemoveIdempotent | src/components/DynamicDashboard.tsx:173-183 | removing twice is removing once |
| DynamicDashboard.DropWidgetAppend | src/components/DynamicDashboard.tsx:175 | filtering a list with one more widget at the end is filtering the list and then keeping that widget iff its id differs |
| DynamicDashboard.DropItemAppend | src/components/DynamicDashboard.tsx:180 | filtering a list with one more item at the end is filtering the list and then keeping that item iff its id differs |
| DynamicDashboard.DropNewItem | src/components/DynamicDashboard.tsx:162-180 | removing a freshly appended item gives back the breakpoint's items |
| DynamicDashboard.RemoveAddedWidget | src/components/DynamicDashboard.tsx:138-183 | removing a freshly added widget gives back the widget list |
| DynamicDashboard.RemoveAddedAt | src/components/DynamicDashboard.tsx:151-181 | removing a freshly added item gives back each breakpoint |
| DynamicDashboard.RemoveAddedItems | src/components/DynamicDashboard.tsx:151-181 | removing a freshly added item gives back all the layouts |
| DynamicDashboard.RemoveUndoesAdd | src/components/DynamicDashboard.tsx:138-183 | removing a freshly added widget by its id gives back the board before the addition |
| DynamicDashboard.EditTitle | src/components/DynamicDashboard.tsx:330-333 | only the edited widget's title changes, to the new text |
| DynamicDashboard.EditOthersUnchanged | src/components/DynamicDashboard.tsx:331-333 | every other widget is exactly as before |
| DynamicDashboard.EditIdempotent | src/components/DynamicDashboard.tsx:331-333 | editing twice with the same text is editing once |
| DynamicDashboard.ResetLayout | src/components/DynamicDashboard.tsx:191-199 | the default layouts, and one widget per default `lg` item |
| DynamicDashboard.ResetIsFirstVisit | src/components/DynamicDashboard.tsx:191-199 | after a reset the board is what a first visit with nothing saved shows |
| DynamicDashboard.DefaultTitles | src/components/DynamicDashboard.tsx:81-87 | the default widgets carry the five default titles, in layout order, each with sample data |
| DashboardPage.StartOfMonth | src/app/dashboard/page.tsx:59-60 | the start of the month is the first eight characters of today and "01" |
| DashboardPage.StartOfIsoMonth | src/app/dashboard/page.tsx:59-60 | for an ISO date, the start of the month is day 01 of that month |
| DashboardPage.TodayInRange | src/app/dashboard/page.tsx:59-67 | the month-to-date range starts no later than today, so today's records are included |
| DashboardPage.CountRate | src/app/dashboard/page.tsx:71-80 | `total` counts every record and `present` the hadir/present ones |
| DashboardPage.TallyLast | src/app/dashboard/page.tsx:74-80 | one more record adds one to `present` iff it is hadir or present |
| DashboardPage.TallyBound | src/app/dashboard/page.tsx:71-80 | `present` never exceeds the record count |
| DashboardPage.AllPresent | src/app/dashboard/page.tsx:71-80 | when every status is hadir or present, `present` is the record count |
| DashboardPage.Rate | src/app/dashboard/page.tsx:82 | 0 for no records or no present; at most 100 when present <= total; 100 when all are present |
| DashboardPage.AttendanceRate | src/app/dashboard/page.tsx:29-106 | without a school id or when a read throws, the shown rate stays the previous one; otherwise it is the rounded share of fetched records that are present (0 for none), hence at most 100, and 100 when every record is present |
| DashboardPage.RoleBadge | src/app/dashboard/page.tsx:128-131 | a badge is shown iff the role is truthy |
| DashboardPage.RoleBadgeCases | src/app/dashboard/page.tsx:130 | admin shows "Administrator", teacher "Guru", any other role "Siswa" |
| DashboardPage.Views | src/app/dashboard/page.tsx:141-192 | the fallback block is rendered iff there is no role |
| DashboardPage.DispatchKnown | src/app/dashboard/page.tsx:141-177 | admin, teacher and student each see exactly their own dashboard |
| DashboardPage.DispatchOther | src/app/dashboard/page.tsx:141-192 | no role sees only the fallback, and any other role sees nothing |
| DashboardPage.RedirectsToSetup | src/app/dashboard/page.tsx:112-118 | only a page showing the admin dashboard redirects; never once a school is known or the stored flag is anything but "true"; an admin with the flag set and no school id is always redirected |
| DashboardPage.RedirectAfterSignIn | src/app/dashboard/page.tsx:114-118 | after a sign-in that found a document, the page redirects to setup iff it is an admin's without a school |
| Auth.StoreUser | src/context/AuthContext.tsx:66-77 | the role is stored (as "undefined" when missing), and the school id when truthy; otherwise the stored school id is left |
| Auth.OnAuthStateChanged | src/context/AuthContext.tsx:52-97 | loading ends after every callback |
| Auth.SetupFlag | src/context/AuthContext.tsx:73-77 | the setup flag is stored, as "true", iff the document is an admin's without a school |
| Auth.SignOutClears | src/context/AuthContext.tsx:83-93 | signing out forgets user, role, school and data, removes the three keys and keeps every other key |
| Auth.NoDocumentKeepsRole | src/context/AuthContext.tsx:55-82 | a failed or empty read keeps role, school and storage |
| Auth.CheckAuthorization | src/context/AuthContext.tsx:103-107 | authorisation needs a truthy role |
| Auth.AuthorizationCases | src/context/AuthContext.tsx:103-107 | false without a role, true with a role and no list, otherwise true iff the role is listed |
| Auth.AuthorizationMonotone | src/context/AuthContext.tsx:103-107 | a longer required list admits at least as many roles, and no list admits every role a list admits |
| Auth.SignupDocs | src/context/AuthContext.tsx:120-148 | an admin gets school id = uid and an empty school document; other roles get neither |
| Auth.AfterSignup | src/context/AuthContext.tsx:150-151 | after sign-up the context holds the new role, and the uid as school id only for an admin |
| Auth.SignupAdminNeedsNoSetup | src/context/AuthContext.tsx:120-144 | a freshly signed-up admin is never asked for school setup |
| Auth.Login | src/context/AuthContext.tsx:164-172 | a found document sets role and school id; otherwise nothing changes |
| Auth.Logout | src/context/AuthContext.tsx:180-189 | role and school id become null; user and data wait for the callback |
| Auth.LogoutThenCallback | src/context/AuthContext.tsx:180-189 | log-out followed by its callback leaves an empty session and no authorisation |

## Left out

- Firestore reads and writes are not modelled. Each snapshot is an input sequence, and a missing document is `None`. A read that throws is a `failed` flag on the members that model its `catch`: `DashboardPage.AttendanceRate`, `AdminDashboard.ShownClasses`, `MonthlyAttendance.LoadRecap`, `MonthlyReport.FetchDailyData` and `ByStudent.FetchStudent`; `ReadFailure` says which of `generatePDF`'s reads threw. The other pages' `catch` blocks only log the error, and their failure paths are not modelled. Query ordering (`orderBy`) and `limit` are not modelled; range filters are modelled by `MonthlyReport.Query` as a filter over the input.
- jsPDF and XLSX drawing is not modelled: fonts, colours, rectangles, column widths, `save`/`writeFile`. Only row lists, file names and the integer page-break rules are kept.
- School-information fetches are not modelled; the letterhead is a parameter.
- The per-day average in `calculateSummary` is not modelled: each summed count divided by `totalDays`, which is `dailyData.length`. It is floating point and shown with `toFixed`. Also not modelled are the `parseInt` of the summary and month in the monthly page's PDF download, and every other `toFixed(1)` text.
- Percent.RoundedPercent: exact rational arithmetic stands in for `Math.round` of a floating-point quotient. Floating-point error near a half is not modelled.
- AdminDashboard.Distribution: `Math.round(remaining * 0.3)` is an input constrained to within a tenth of the exact value, because floating point decides it. The sum-to-100 and non-negativity lemmas hold for any such value.
- MonthlyAttendance.Shares: the shares are exact fractions. Their `toFixed(1)` text is not modelled.
- `new Date()`, the time zone and date-fns month labels are not modelled. Today's date, the formatted month label and the download date are parameters. The only `toISOString` modelled is the monthly refetch's, and only for whether it throws (`Calendar.MonthInTimeRange`).
- Calendar.MonthInTimeRange: the local time-zone offset is taken as 0. An offset moves a Date by less than a day, and the range ends on 20 April and 13 September, so it never changes which months are in range.
- The date strings of the monthly refetch's query are not modelled; the month's records are an input. `toISOString` gives the UTC date, so east of UTC (as in Indonesia) both ends of the range fall one day early.
- JsNumber.ParseInt: the value is an exact integer. JavaScript rounds a value beyond 2^53 to a double, which never brings a year back into the Date range.
- The class report's seven-day date window in `generatePDF` is not modelled; the class members' fetched records are inputs.
- `Date.now()` in a new widget's id is not modelled; it is a `stamp` parameter of `DynamicDashboard.AddWidget`.
- DynamicDashboard.WidgetOf: a widget's sample series is modelled only as whether it has one.
- react-grid-layout compaction and dragging (`handleLayoutChange`), recharts, toasts and routing are not modelled. JSON persistence of layouts is also left out: saved layouts are an optional input.
- `localStorage` is a `map<string, string>`. `typeof window` checks are not modelled, since the model always runs in the browser branch.
- React state and effects are not modelled. Each handler is a function from the previous state to the next.
- `updateUserProfile` is not modelled; it is outside the core.
- Errors thrown by sign-up, log-in and log-out are not modelled. The model covers the successful path; a failure rethrows and changes no state.
- The `displayName || "Pengguna"` greeting and `schoolName` props are not modelled; they are display text only.
- Text.Lower: letter case is mapped for ASCII letters only. Unicode case mapping is not modelled.
- Text.Upper: letter case is mapped for ASCII letters only.
- AttendanceHistory.SortNames: strings are compared character by character, which matches UTF-16 code-unit order only outside surrogate pairs. Insertion sort stands in for the engine's sort; the result is the same sorted permutation.
- ComprehensiveReport.Truncate: lengths and the 16-character prefix count characters (code points), while `name.length` and `substring` count UTF-16 code units. A name with characters outside the Basic Multilingual Plane is cut at a different place.
- MonthlyReport.SortByDay: insertion sort stands in for the engine's sort. The proved ordering covers the entries `fetchDailyData` builds, whose keys are distinct two-digit days.
- MonthlyReport.Key: a key that is not two digits is never produced by the page, so `parseInt` of non-digit text is not modelled.
- AdminDashboard.LastIndex: `classMap` is a plain object. Class names that collide with inherited object properties such as `constructor` are not modelled.
- MonthlyAttendance.TotalsPlacement: the page height is taken as 297 mm, the A4 height jsPDF reports.
- ComprehensiveReport.GeneratePdf: the PDF header, title and signature drawing are not modelled. The never-called `fetchStudentData` and `fetchWeeklyData` are left out because their results are never used.
- `generateComprehensiveReport` is a two-way dispatch on the format and is not modelled as a member of its own. Its two branches are `ComprehensiveReport.GeneratePdf` and `ComprehensiveReport.GenerateWorkbook`.
- ReportGenerator.Refetch: the `catch` only logs, so a throwing read leaves whatever was assigned before it. The counts stay the caller's, but a student document read before a throwing attendance query has already merged its class and name into the details (`ReportGenerator.RefetchOnFailure`). The school letterhead fields merged before a throw are not modelled, since the letterhead is a parameter.
- ReportGenerator.GenerateExcel: only the 31-character limit and the seven characters `: \ / ? * [ ]` are modelled as sheet-name rules. Checks that some XLSX versions add (no leading or trailing apostrophe, the reserved name "History") are not modelled. The class report's sheet name is "Laporan Kelas " followed by the class name, so a class name ending in an apostrophe gives a sheet name those versions reject, and the model does not flag it.
- src/app/layout.tsx is not part of this model; it holds only static metadata and provider wiring.
