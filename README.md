# HRMS backend core in Dafny

This project models the three pieces of the HR backend that carry real logic, and proves properties of them.

- **Attendance sheet import** (`backend/src/routes/attendance.js`):
  - `isLateArrival`;
  - `parseExcelAttendance`: the date-header search, the row state machine that assembles employee blocks, and the per-day classification;
  - the reconcile loop of `POST /upload-excel`. It looks each summary up by code, upserts the attendance document keyed by (employee, monthYear) and reports one outcome per summary together with the totals.
- **Salary calculation** (`backend/src/routes/salary.js`, `POST /calculate`):
  - the per-record deduction arithmetic, over exact reals with `Math.round(x) = floor(x + 1/2)`;
  - the batch loop that upserts one salary document per attendance record of the month.
- **Seed extraction** (`backend/src/scripts/seed.js:62-100`): the scan over the report sheet that collects one new employee per first occurrence of each code, with the fixed defaults.

The spreadsheet arrives as the grid of strings the spreadsheet library produces: blank cells are `""`, and a cell past the end of a row reads as `""`.

The database is passed in and handed back as values:
- `registry` (import) and `employees` (salary) are what `Employee.findOne` and `populate("employee")` resolve.
- A collection is a map from `Store.Key(employee, monthYear)` to the fields last written under it. A batch of upserts is `Store.ApplyAll` of its writes, in order.
- Whether the upsert of the `k`-th record throws, and with which message, is an oracle `failures(k)`.

Every explicit loop of the source is a Dafny method with a loop:
- `Attendance.FindDateHeaders`, `Attendance.SummariseDays` and `Attendance.ParseExcelAttendance`;
- `AttendanceImport.Reconcile`, which `AttendanceImport.UploadExcel` calls after its request checks;
- `Salary.CalculateSalaries`;
- `Seed.SeedEmployees`.

Each method is proved equal to a recursive specification function, and the properties are lemmas about those functions.

The `results.filter(...).length` counts of the upload response (attendance.js:211-212) hold no loop variables of their own. They are the functions `AttendanceImport.Succeeded` and `AttendanceImport.Failed`. The string built-ins (`trim`, `includes`, `split`, `toUpperCase`, `toLowerCase`) are functions too.

Two behaviours of the code are modelled as written:
- A code cell made only of white space is truthy, so the code row matches, but the trimmed code is `""`.
  - In `parseExcelAttendance` this leaves `currentEmployeeCode` falsy, so the block stays closed and its data rows are ignored. `Attendance.IsOpen` treats a state with code `""` as closed.
  - In the seed script the extraction collects an employee with the empty id and the e-mail `@company.com` (`Seed.BlankCodeSeedsEmptyId`). The `insertMany` that follows is not modelled; see "## Left out".
- A sheet without a date-header row is not rejected. The code keeps `dateHeaders = []` and imports every block with zero counters and no daily records (`Attendance.NoHeaderGivesEmptySummaries`).

## Model

| member | source | states |
|---|---|---|
| Text.Trim | backend/src/routes/attendance.js:13 | The trimmed text is no longer than the input, and neither starts nor ends with white space. |
| Text.TrimStartSpan | backend/src/routes/attendance.js:13 | Cutting the leading white space leaves a suffix of the text, and only white space precedes it. |
| Text.TrimEndSpan | backend/src/routes/attendance.js:13 | Cutting the trailing white space leaves a prefix of the text, and only white space follows it. |
| Text.TrimSpan | backend/src/routes/attendance.js:13 | The trim is the infix `s[a..b]` with only white space before `a` and after `b`. With the ends of `Trim` being non-blank, it is exactly the text with its leading and trailing white space removed. |
| Text.TrimUnchanged | backend/src/routes/attendance.js:13 | A text that neither starts nor ends with white space is its own trim. |
| Text.Split | backend/src/routes/attendance.js:14 | `split(":")` always yields at least one piece. |
| Text.SplitJoin | backend/src/routes/attendance.js:14 | No piece of a split holds the separator, and joining the pieces back with it gives the original text. |
| Text.SplitAfterField | backend/src/routes/attendance.js:14 | Splitting `a + ":" + b`, where `a` has no ':', gives `a` followed by the pieces of `b`. |
| Text.SplitNoSeparator | backend/src/routes/attendance.js:14 | A text without the separator splits into itself alone. |
| Text.JsNumber | backend/src/routes/attendance.js:14 | `Number` of a piece that is blank once trimmed is 0; of a trimmed digit string, its decimal value; of any other trimmed text, NaN (`None`). |
| Text.Contains | backend/src/routes/attendance.js:40 | A definition: `s.includes(t)`, `t` occurring at some position of `s`. |
| Text.ToUpper | backend/src/scripts/seed.js:70 | It keeps the length, upper-cases each character, and leaves no lower-case ASCII letter. |
| Text.ToLower | backend/src/scripts/seed.js:79 | It keeps the length, lower-cases each character, and leaves no upper-case ASCII letter. |
| Sheet.Cell | backend/src/routes/attendance.js:40 | A definition: `row[k]`, with a cell past the end of the row read as "". |
| Sheet.SliceFrom2 | backend/src/routes/attendance.js:41 | `row.slice(2)` has two cells fewer than the row, or none when the row is shorter, and its cell `j` is the row's cell `j + 2`. |
| Sheet.TrimmedOr | backend/src/routes/attendance.js:93-97 | A definition: `cell ? String(cell).trim() : absent`. |
| Attendance.IsLateArrival | backend/src/routes/attendance.js:11-21 | A definition: false for an empty in-time; otherwise the trimmed text's first two `split(":")` pieces through `Number`, compared with 9 and 30 where NaN and undefined compare false. Its meaning is stated by the lemmas below. |
| Attendance.DigitsPlain | backend/src/routes/attendance.js:13-14 | A digit string has no ':' and is its own trim. |
| Attendance.ClockPieces | backend/src/routes/attendance.js:14 | For `hh:mm`, the hour and minute pieces are `Number(hh)` and `Number(mm)`. |
| Attendance.ClockTextTrimmed | backend/src/routes/attendance.js:13 | A digit clock text `hh:mm` is unchanged by trim. |
| Attendance.LateFromPieces | backend/src/routes/attendance.js:11-21 | A trimmed non-empty in-time with numeric hour and minute is late exactly when the hour is after 9, or is 9 with the minute after 30. |
| Attendance.LateArrivalClock | backend/src/routes/attendance.js:11-21 | The same holds for every digit clock `hh:mm`, in both directions. |
| Attendance.BareHourLate | backend/src/routes/attendance.js:14-17 | A bare hour with no ':' is late exactly when it exceeds 9; the missing minutes never make 9 late. |
| Attendance.BlankInTimeNotLate | backend/src/routes/attendance.js:12-13 | An empty or all-blank in-time is not late. |
| Attendance.NonNumericHourNotLate | backend/src/routes/attendance.js:14-17 | An hour piece that `Number` turns into NaN is never late, whatever follows the ':'. |
| Attendance.NaNMinutesNotLate | backend/src/routes/attendance.js:14-17 | An hour of at most 9 followed by minutes with no further ':' that `Number` turns into NaN is not late, since `NaN > 30` is false. |
| Attendance.NotLateAtNineWithNaNMinutes | backend/src/routes/attendance.js:14-17 | "09:3x" is not late. |
| Attendance.OnTimeAtNineThirty | backend/src/routes/attendance.js:17 | "09:30" is not late. |
| Attendance.LateAtNineThirtyOne | backend/src/routes/attendance.js:17 | "09:31" is late. |
| Attendance.LateAtTen | backend/src/routes/attendance.js:17 | "10:00" is late. |
| Attendance.LateAtBareTen | backend/src/routes/attendance.js:14-17 | "10" is late, because its hour alone exceeds 9. |
| Attendance.HeaderSearchLimit | backend/src/routes/attendance.js:38 | The search covers min(20, row count) rows. |
| Attendance.IsHeaderRow | backend/src/routes/attendance.js:40 | A definition: cell 2 is non-blank and contains "St", and cell 3 contains "S". |
| Attendance.DateHeadersFromFirstMatch | backend/src/routes/attendance.js:38-44 | A search from row `i` stops at the first header row `h` and returns that row from offset 2. |
| Attendance.DateHeadersFromNoMatch | backend/src/routes/attendance.js:38-44 | A search from row `i` that meets no header row before the limit returns []. |
| Attendance.DateHeadersFirstMatch | backend/src/routes/attendance.js:38-44 | The labels are the first header row among the first 20 rows, from offset 2. |
| Attendance.DateHeadersNotFound | backend/src/routes/attendance.js:35-44 | When no header row lies within the limit, the labels stay []. |
| Attendance.FindDateHeaders | backend/src/routes/attendance.js:35-44 | The search loop with its `break` returns exactly the specified labels. |
| Attendance.ColumnCount | backend/src/routes/attendance.js:92 | The column loop walks min(status length, label count) columns. |
| Attendance.DayCellAt | backend/src/routes/attendance.js:93-101 | A definition: column `j`'s five cells, trimmed, with "" defaults and "00:00" for a blank total, and `isLateArrival` of the in-time. |
| Attendance.KindOf | backend/src/routes/attendance.js:99-119 | A definition: blank, week off, half day (late `P`/`WOP`), present (on-time `P`/`WOP`), leave (`A`) or another status. |
| Attendance.RecordOf | backend/src/routes/attendance.js:102-128 | A definition: the pushed daily record, with "HD" for a late `P`/`WOP`. |
| Attendance.DayCellsUpTo | backend/src/routes/attendance.js:92-97 | The first `n` column readings are `n` cells. |
| Attendance.DayCells | backend/src/routes/attendance.js:92-97 | A block yields one reading per walked column. |
| Attendance.DayCellsUpToAt | backend/src/routes/attendance.js:93-101 | Reading `j` holds column `j`'s cells, trimmed, with "" defaults and "00:00" for a blank total, plus `isLateArrival` of the in-time. |
| Attendance.CountersPartition | backend/src/routes/attendance.js:99-128 | Working days are present plus leave plus half plus other-status days. The records are the working days plus the week-off days, and with the blank columns they make up every column. Each record has a non-blank status. |
| Attendance.SummariseWellFormed | backend/src/routes/attendance.js:92-139 | The summary of a block with a code satisfies daysPresent + daysLeave + halfDays <= totalDays <= records <= labels, and every record's status is non-blank. |
| Attendance.ClassifyOneColumn | backend/src/routes/attendance.js:99-128 | A blank status is skipped. A late `P`/`WOP` is stored as "HD" and counts as a half day. An on-time one counts as present and keeps its status. `A` counts as leave. `WO` is recorded but counted nowhere. Any other status counts only as a working day. The record carries the column's cells. |
| Attendance.OneColumnTallies | backend/src/routes/attendance.js:99-128 | A single column adds one to its own kind's tally, one working day if it is not `WO`, and one record if its status is non-blank. |
| Attendance.ColumnStep | backend/src/routes/attendance.js:99-128 | Each further column adds exactly its own contribution to every tally and to the records. |
| Attendance.SummariseDays | backend/src/routes/attendance.js:86-139 | The column loop with its counters computes the specified summary of the block. |
| Attendance.Summaries | backend/src/routes/attendance.js:131-139 | Each complete block pushes one summary. |
| Attendance.SummariesAt | backend/src/routes/attendance.js:85-139 | The `k`-th summary is the summary of the `k`-th complete block. |
| Attendance.Opened | backend/src/routes/attendance.js:52-59 | A definition: the state after a code row, with the trimmed code, the trimmed name or the code, and nothing captured. |
| Attendance.Step | backend/src/routes/attendance.js:47-144 | A definition: one iteration of the row loop, branch for branch, with the block it hands to the column loop. |
| Attendance.RunFromSnoc | backend/src/routes/attendance.js:47-144 | Running over one more row is one more step of the state machine. |
| Attendance.RunFromAppend | backend/src/routes/attendance.js:47-144 | Running over `a + b` is running over `b` from the state left by `a`, with the blocks of both in order. |
| Attendance.RunFromSingle | backend/src/routes/attendance.js:47-144 | Running over one row is one step. |
| Attendance.EmptyRowSkipped | backend/src/routes/attendance.js:49 | An empty row anywhere changes neither the state nor the blocks. |
| Attendance.CodeRowOpensBlock | backend/src/routes/attendance.js:52-59 | A code row opens a fresh block with code and name and no captured rows, whatever came before, so the rest of the run does not depend on the earlier state. |
| Attendance.ClosedIgnoresRows | backend/src/routes/attendance.js:63-82 | While no block is open, rows without a code row change nothing and emit nothing. |
| Attendance.TotalRowCloses | backend/src/routes/attendance.js:81-143 | A Total row in an open block closes it. It emits a block exactly when Status, InTime and OutTime were all captured, and that block holds the captured rows and the sliced Total row. |
| Attendance.DataRowCaptured | backend/src/routes/attendance.js:62-78 | A Status, InTime or OutTime row emits nothing. In a closed state it is ignored; in an open block it is captured from offset 2. |
| Attendance.DataRowsCommute | backend/src/routes/attendance.js:62-78 | Two data rows of different kinds may arrive in either order. |
| Attendance.DataRowOverwrites | backend/src/routes/attendance.js:62-78 | A repeated data row overwrites the earlier one. |
| Attendance.OpenBlockCaptures | backend/src/routes/attendance.js:52-78 | A code row with a non-blank code, then Status, InTime and OutTime rows, leave an open block holding the three rows from offset 2 and emit nothing. |
| Attendance.CompleteBlockEmitsOne | backend/src/routes/attendance.js:52-143 | Code, Status, InTime, OutTime and Total rows emit exactly one block, holding the block's code and name and the four rows from offset 2. |
| Attendance.OpenBlockWithoutOutTime | backend/src/routes/attendance.js:81-143 | An open block without an OutTime row is closed by Total and emits nothing. |
| Attendance.BlockWithoutOutTimeDropped | backend/src/routes/attendance.js:52-143 | Code, Status, InTime and Total rows emit no block. |
| Attendance.RunFromBlocks | backend/src/routes/attendance.js:81-143 | There is at most one block per Total row, and every emitted block has a non-blank code. |
| Attendance.ParseGridWellFormed | backend/src/routes/attendance.js:23-147 | There are at most as many summaries as Total rows, and each is well formed against the labels. |
| Attendance.NoHeaderGivesEmptySummaries | backend/src/routes/attendance.js:35-92 | Without a header row, every summary has zero counters and no daily records. |
| Attendance.ParseExcelAttendance | backend/src/routes/attendance.js:23-147 | The header search followed by the row loop returns exactly the specified summaries. The loop carries the code, the name and the three captured rows; the source's sixth variable `totalRow` is only read in the iteration that sets it, so it is a local there. |
| Store.ApplyAll | backend/src/routes/attendance.js:176-189 | Upserts are applied in order as map updates. |
| Store.ApplyAllSnoc | backend/src/routes/attendance.js:176-189 | One more upsert is one more map update. |
| Store.Untouched | backend/src/routes/attendance.js:176-189 | A key that no upsert names keeps its document, or its absence. |
| Store.LastWriteWins | backend/src/routes/attendance.js:176-189 | A written key holds the value of its last upsert. |
| Store.ApplyAllOverrides | backend/src/routes/attendance.js:176-189 | Applying a batch overrides the old collection with the documents the batch alone writes. |
| Store.ApplyAllIdempotent | backend/src/routes/attendance.js:176-189 | Applying the same batch twice is applying it once. |
| AttendanceImport.Outcomes | backend/src/routes/attendance.js:163-205 | There is one result per parsed summary. |
| AttendanceImport.StepSnoc | backend/src/routes/attendance.js:164-205 | One more summary adds its outcome, and its upsert unless the lookup or the upsert failed. |
| AttendanceImport.Reconcile | backend/src/routes/attendance.js:163-205 | The loop returns the specified results and the collection after the specified upserts. |
| AttendanceImport.UploadExcel | backend/src/routes/attendance.js:149-217 | A missing file gives 400 "No file uploaded". A missing monthYear gives 400 "Month/Year is required", before parsing. An undecodable file gives 500 with its message. In those three cases nothing is written. Otherwise the response has the results, their count and the success and failure tallies, and the collection holds the upserts. |
| AttendanceImport.OutcomeAt | backend/src/routes/attendance.js:164-204 | Result `k` belongs to summary `k`. An unknown code fails with "Employee not found", a throwing upsert fails with its message, and otherwise the counters are reported. Later summaries are still processed. |
| AttendanceImport.Succeeded | backend/src/routes/attendance.js:211 | A definition: the number of results with status "success". |
| AttendanceImport.Failed | backend/src/routes/attendance.js:212 | A definition: the number of results with status "failed". |
| AttendanceImport.SucceededPlusFailed | backend/src/routes/attendance.js:207-213 | successful + failed == totalProcessed. |
| AttendanceImport.SucceededCountsImports | backend/src/routes/attendance.js:164-213 | `successful` equals the number of upserts performed. |
| AttendanceImport.ImportLeavesOtherKeys | backend/src/routes/attendance.js:176-189 | Documents under keys that no known summary maps to are untouched. |
| AttendanceImport.OtherMonthsUntouched | backend/src/routes/attendance.js:176-189 | Documents of other months are untouched. |
| AttendanceImport.ImportStoresLastSummary | backend/src/routes/attendance.js:176-189 | After the import, an employee's document for the month holds its last successfully upserted summary: later summaries of the same employee whose upsert threw do not disturb it. |
| AttendanceImport.ReimportIsIdempotent | backend/src/routes/attendance.js:176-189 | Re-importing the same sheet, with the same upsert outcomes, leaves the collection unchanged. |
| AttendanceImport.ThreeSummariesOneUnknown | backend/src/routes/attendance.js:163-213 | Three summaries, one with an unknown code, give 3 processed, 2 successful and 1 failed with "Employee not found", and 2 documents written. |
| Salary.PerDaySalary | backend/src/routes/salary.js:19 | The per-day rate is the base over 30, whatever the month. |
| Salary.ChargeableLeaves | backend/src/routes/salary.js:26 | A definition: `Math.max(0, daysLeave - 2)`. |
| Salary.HalfDayDeduction | backend/src/routes/salary.js:23 | A definition: `halfDays * (perDaySalary * 0.5)`. |
| Salary.LeaveDeduction | backend/src/routes/salary.js:27 | A definition: `chargeableLeaves * perDaySalary`. |
| Salary.TotalDeductions | backend/src/routes/salary.js:29 | A definition: `halfDayDeduction + leaveDeduction`, unrounded. |
| Salary.NetSalary | backend/src/routes/salary.js:29-30 | The unrounded net plus the unrounded deductions is the base. |
| Salary.Round | backend/src/routes/salary.js:43-45 | `Math.round` gives the integer within half of the value, with halves rounded up. |
| Salary.LeaveAllowance | backend/src/routes/salary.js:26-27 | Two or fewer leave days deduct nothing. Beyond two, each further day deducts a full day's rate. |
| Salary.DeductionsInDays | backend/src/routes/salary.js:23-29 | The deductions are (halfDays + 2·chargeable leaves)/60 of the base. |
| Salary.DeductionBounds | backend/src/routes/salary.js:23-30 | With a non-negative base, the deductions and their rounding are non-negative, and the net is at most the base. |
| Salary.NetNonNegativeWithinMonth | backend/src/routes/salary.js:23-30 | The net stays non-negative while the deducted days fit in one month. |
| Salary.RoundWhole | backend/src/routes/salary.js:43-45 | Rounding a whole number changes nothing. |
| Salary.RoundMonotone | backend/src/routes/salary.js:43-45 | Rounding is monotone. |
| Salary.NetAntitoneInHalfDays | backend/src/routes/salary.js:23-30 | More half days never raise the net, unrounded or rounded. |
| Salary.NetAntitoneInLeave | backend/src/routes/salary.js:26-30 | More leave days never raise the net, unrounded or rounded. |
| Salary.RoundedNetAgainstRoundedDeductions | backend/src/routes/salary.js:44-45 | With an integer base, the stored net is base − round(deductions) or one more. Each figure is rounded on its own. |
| Salary.RoundedNetExceedsBaseMinusDeductions | backend/src/routes/salary.js:44-45 | Base 30 with one half day stores deductions 1 and net 30, not 29. |
| Salary.WorkedExampleFiveLeaves | backend/src/routes/salary.js:19-30 | Base 30000, 5 leave days and 2 half days give a per-day rate of 1000, deductions of 4000 and a net of 26000. |
| Salary.WorkedExampleOneLeave | backend/src/routes/salary.js:19-30 | Base 30000 with 1 leave day gives deductions of 0 and a net of 30000. |
| Salary.MonthRecords | backend/src/routes/salary.js:14 | The query returns exactly the documents of the month. |
| Salary.PopulatedPrefix | backend/src/routes/salary.js:17-19 | It gives the run of records, from the first, whose employee resolves; the record after it has a null employee. |
| Salary.PopulatedPrefixAt | backend/src/routes/salary.js:17-19 | The loop stops exactly at the first record whose employee is null. |
| Salary.Outcomes | backend/src/routes/salary.js:17-64 | There is one result per attendance record of the month. |
| Salary.StepSnoc | backend/src/routes/salary.js:17-64 | One more record adds its outcome, and its upsert unless the upsert failed. |
| Salary.CalculateSalaries | backend/src/routes/salary.js:10-78 | When every employee resolves, the response is "Salaries calculated" with the specified results. Otherwise the request fails with 500 and the TypeError message, with the upserts of the records before it kept. The collection holds exactly the upserts performed. |
| Salary.SalaryOutcomeAt | backend/src/routes/salary.js:32-63 | Result `k` belongs to record `k`. A throwing upsert fails with its message and later records are still processed; otherwise the rounded salary block is reported. |
| Salary.SalaryStoresLast | backend/src/routes/salary.js:33-48 | An employee's salary document for the month holds the rounded figures of their last successfully upserted record; the upsert replaces the prior salary, and a later upsert that threw writes nothing. |
| Salary.SalaryLeavesOtherKeys | backend/src/routes/salary.js:33-48 | Salary documents under keys that no record maps to are untouched. |
| Seed.NewEmployeeOf | backend/src/scripts/seed.js:69-90 | A definition: the document pushed for a code row, with the upper-cased code, the name, the e-mail and the fixed defaults. |
| Seed.IdSetMembers | backend/src/scripts/seed.js:63 | An id is in the seen set exactly when some collected employee has it. |
| Seed.IdSetSnoc | backend/src/scripts/seed.js:93 | Collecting an employee adds its id to the seen set. |
| Seed.ExtractSnoc | backend/src/scripts/seed.js:66-96 | One more row is one more step of the scan. |
| Seed.ScanStep | backend/src/scripts/seed.js:66-96 | Reading row `i` is one step over the first `i` rows. |
| Seed.HasCodeRowSnoc | backend/src/scripts/seed.js:69 | A code occurs in `rows + [row]` exactly when it occurs in `rows` or on `row`. |
| Seed.SeenIffCodeRow | backend/src/scripts/seed.js:63-96 | A code has been seen exactly when some code row read so far carries it. |
| Seed.ExtractIsFirstOccurrences | backend/src/scripts/seed.js:66-96 | Over every prefix, the scan equals the reference list: the first code row of each code, in row order. |
| Seed.ExtractMatchesReference | backend/src/scripts/seed.js:62-96 | The employees, in order, are the first occurrences of each code. |
| Seed.DistinctSnoc | backend/src/scripts/seed.js:75-93 | Collecting an employee with an unseen id keeps the ids distinct. |
| Seed.NoDuplicateIds | backend/src/scripts/seed.js:63-96 | No two seeded employees share an employeeId. |
| Seed.EveryCodeSeeded | backend/src/scripts/seed.js:66-96 | Every code on a code row of the sheet belongs to some seeded employee. |
| Seed.RepeatedCodeIgnored | backend/src/scripts/seed.js:75 | A later row with a seen code adds nothing, whatever name it carries. |
| Seed.SeededEmployeeFields | backend/src/scripts/seed.js:69-90 | Each seeded employee comes from a code row, with the upper-cased trimmed code and the trimmed name or "Employee " + code. Its e-mail is the lower-cased id at "@company.com", its base salary is 30000 and its status is "active". |
| Seed.EmptyIffNoCodeRow | backend/src/scripts/seed.js:66-100 | The extraction is empty exactly when the sheet has no code row. |
| Seed.BlankCodeSeedsEmptyId | backend/src/scripts/seed.js:69-79 | From a code cell of blanks, the extraction collects an employee with the empty id and e-mail "@company.com". |
| Seed.SeedEmployees | backend/src/scripts/seed.js:62-100 | The loop with its seen set returns the reference list of first occurrences, or the "No employees found in Excel file" error when it is empty. |

## Left out

- Spreadsheet decoding (`xlsx.read`, `sheet_to_json`) is a foreign library. The parsed grid of strings is the input. A cell that holds a number, or `0`, in the workbook is taken to be its text.
- Express routing, multer, and the authentication and authorisation middleware are HTTP plumbing. Only the response bodies and status codes of the modelled handlers are kept.
- MongoDB calls become values:
  - registry and employee maps for `findOne` and `populate`;
  - a keyed map for each collection;
  - an oracle for upsert errors.
- Fields that `findOneAndUpdate` does not write (those kept by `$set` semantics, timestamps) are not modelled. A stored document is only the fields the handler writes.
- Errors thrown by `Employee.findOne` itself, which would end the import with 500, are not modelled: the lookup always answers.
- The order in which `Attendance.find` returns documents is taken as the order of the collection sequence.
- `Salary.CalculateSalaries`: a missing `monthYear` is not rejected by the source. The model takes it as a string, and the effect of an `undefined` query value is not modelled.
- `Salary.CalculateSalaries`: the audit-log write after the loop, and its failure, are not modelled. It needs the authenticated user.
- `Salary.CalculateSalaries`: `attendance.halfDays || 0` is the identity, because a stored `halfDays` is a `nat` here.
- JavaScript numbers are exact: money is a `real`, counters are `nat`. IEEE rounding in `baseSalary / 30` and in the deduction products is not modelled.
- `Number()` on a clock piece is simplified:
  - a blank piece gives 0;
  - a digit string gives its value;
  - anything else (signs, decimals, exponents, hex) is NaN.
- `trim`, `toUpperCase` and `toLowerCase` cover the common white-space characters and ASCII letters only.
- The date header's cells are read as text. The `Date` of `joiningDate` is its ISO text.
- The seed script's other side effects are not modelled: connecting, deleting the users and employees, creating the two login users, `insertMany`, logging and `process.exit`. Only the extraction at lines 62-100 is modelled.
  - `insertMany` (seed.js:103) validates every document against the required `employeeId` of the Employee schema. An extraction holding an employee with the empty id would fail there: the whole batch is rejected and the script exits 1 through its catch (seed.js:107-110), after the users and employees were already deleted.
- `Attendance.ParseExcelAttendance` reads each block's day cells through `Attendance.DayCells` before running the column loop `Attendance.SummariseDays`. The source reads the cells inside that loop. The cells read and what they give are the same.
- The legacy CSV `POST /upload` route, the read-only routes and `leaves.js` are not part of this model.
