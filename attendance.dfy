/**
 * The attendance-sheet importer of the attendance routes: the late-arrival
 * test, the date-header search, the per-employee block state machine and the
 * per-day classification that turns one employee block into a summary.
 */
module Attendance {
  import opened Wrappers
  import opened Text
  import opened Sheet
  import opened Seqs

  // ---------------------------------------------------------------------------
  // Late arrival
  // ---------------------------------------------------------------------------

  /** Arrival after 09:30 on a 24-hour clock. */
  predicate AfterNineThirty(hours: nat, minutes: nat) {
    hours > 9 || (hours == 9 && minutes > 30)
  }

  /** `Number` of the piece before the first ':' of a trimmed in-time. */
  function HourPiece(time: string): Option<nat> {
    JsNumber(Split(time, ':')[0])
  }

  /** `Number` of the piece after the first ':'; `None` (undefined) when there is no ':'. */
  function MinutePiece(time: string): Option<nat> {
    var parts := Split(time, ':');
    if |parts| > 1 then JsNumber(parts[1]) else None
  }

  /**
   * `isLateArrival(inTime)`: the trimmed text is split at ':' and both leading
   * pieces go through `Number`. A comparison with NaN, or with the missing
   * minutes of a text without ':', is false.
   */
  predicate IsLateArrival(inTime: string) {
    if inTime == "" then false
    else LateValues(HourPiece(Trim(inTime)), MinutePiece(Trim(inTime)))
  }

  /** `hours > 9 || (hours === 9 && minutes > 30)`, where NaN and undefined compare false. */
  predicate LateValues(hours: Option<nat>, minutes: Option<nat>) {
    (hours.Some? && hours.value > 9) || (hours == Some(9) && minutes.Some? && minutes.value > 30)
  }

  /** A digit string holds no ':' and is its own trim. */
  lemma DigitsPlain(s: string)
    requires IsDigits(s)
    ensures ':' !in s && Trim(s) == s
  {
    AllDigitsAt(s, 0);
    AllDigitsAt(s, |s| - 1);
    TrimUnchanged(s);
    forall i | 0 <= i < |s| ensures s[i] != ':' { AllDigitsAt(s, i); }
  }

  /** The hour and minute pieces of `hh:mm`, neither holding ':'. */
  lemma ClockPieces(hh: string, mm: string)
    requires ':' !in hh && ':' !in mm
    ensures HourPiece(hh + ":" + mm) == JsNumber(hh)
    ensures MinutePiece(hh + ":" + mm) == JsNumber(mm)
  {
    SplitAfterField(hh, mm, ':');
    SplitNoSeparator(mm, ':');
    assert Split(hh + ":" + mm, ':') == [hh, mm];
  }

  /** `hh:mm` of two digit strings is its own trim. */
  lemma ClockTextTrimmed(hh: string, mm: string)
    requires IsDigits(hh) && IsDigits(mm)
    ensures Trim(hh + ":" + mm) == hh + ":" + mm
  {
    var t := hh + ":" + mm;
    assert t[0] == hh[0] && t[|t| - 1] == mm[|mm| - 1];
    AllDigitsAt(hh, 0);
    AllDigitsAt(mm, |mm| - 1);
    TrimUnchanged(t);
  }

  /** Lateness read off the two pieces of an already trimmed text. */
  lemma LateFromPieces(t: string, hours: nat, minutes: nat)
    requires t != "" && Trim(t) == t
    requires HourPiece(t) == Some(hours) && MinutePiece(t) == Some(minutes)
    ensures IsLateArrival(t) <==> AfterNineThirty(hours, minutes)
  {
  }

  /** On a well-formed "HH:MM" text (any number of digits on each side), late means after 09:30. */
  lemma LateArrivalClock(hh: string, mm: string)
    requires IsDigits(hh) && IsDigits(mm)
    ensures IsLateArrival(hh + ":" + mm) <==> AfterNineThirty(DigitsValue(hh), DigitsValue(mm))
  {
    DigitsPlain(hh);
    DigitsPlain(mm);
    ClockTextTrimmed(hh, mm);
    ClockPieces(hh, mm);
    LateFromPieces(hh + ":" + mm, DigitsValue(hh), DigitsValue(mm));
  }

  /** A bare hour with no ':' is late exactly when the hour is past 9 (the missing minutes never count). */
  lemma BareHourLate(hh: string)
    requires IsDigits(hh)
    ensures IsLateArrival(hh) <==> DigitsValue(hh) > 9
  {
    DigitsPlain(hh);
    SplitNoSeparator(hh, ':');
    assert MinutePiece(hh) == None;
    assert HourPiece(hh) == Some(DigitsValue(hh));
  }

  /** A blank or white-space-only in-time is never late. */
  lemma BlankInTimeNotLate(inTime: string)
    requires Trim(inTime) == ""
    ensures !IsLateArrival(inTime)
  {
    assert Split("", ':') == [""];
  }

  /** An hour piece that is not a number makes the arrival not late, whatever follows. */
  lemma NonNumericHourNotLate(hh: string, rest: string)
    requires ':' !in hh && hh != [] && !IsSpace(hh[0])
    requires rest == [] || !IsSpace(rest[|rest| - 1])
    requires JsNumber(hh) == None
    ensures !IsLateArrival(hh + ":" + rest)
  {
    var t := hh + ":" + rest;
    assert t[0] == hh[0];
    assert t[|t| - 1] == if rest == [] then ':' else rest[|rest| - 1];
    TrimUnchanged(t);
    SplitAfterField(hh, rest, ':');
  }

  /** An hour of at most 9 with minutes that are not a number is not late: NaN > 30 is false. */
  lemma NaNMinutesNotLate(hh: string, mm: string)
    requires IsDigits(hh) && DigitsValue(hh) <= 9
    requires ':' !in mm && mm != [] && !IsSpace(mm[|mm| - 1])
    requires JsNumber(mm) == None
    ensures !IsLateArrival(hh + ":" + mm)
  {
    var t := hh + ":" + mm;
    DigitsPlain(hh);
    AllDigitsAt(hh, 0);
    assert t[0] == hh[0] && t[|t| - 1] == mm[|mm| - 1];
    TrimUnchanged(t);
    ClockPieces(hh, mm);
  }

  /** "09:3x": the hour is 9 and the minutes are NaN, so it is not late. */
  lemma NotLateAtNineWithNaNMinutes()
    ensures !IsLateArrival("09:3x")
  {
    var mm := "3x";
    assert "09"[..1] == "0";
    assert DigitsValue("09") == 9;
    assert mm[1] == 'x';
    assert !AllDigits(mm);
    TrimUnchanged(mm);
    assert JsNumber(mm) == None;
    assert "09" + ":" + mm == "09:3x";
    NaNMinutesNotLate("09", mm);
  }

  /** 09:30 itself is on time. */
  lemma OnTimeAtNineThirty()
    ensures !IsLateArrival("09:30")
  {
    assert "09"[..1] == "0" && "30"[..1] == "3";
    assert DigitsValue("09") == 9 && DigitsValue("30") == 30;
    assert "09" + ":" + "30" == "09:30";
    LateArrivalClock("09", "30");
  }

  /** One minute after 09:30 is late. */
  lemma LateAtNineThirtyOne()
    ensures IsLateArrival("09:31")
  {
    assert "09"[..1] == "0" && "31"[..1] == "3";
    assert DigitsValue("09") == 9 && DigitsValue("31") == 31;
    assert "09" + ":" + "31" == "09:31";
    LateArrivalClock("09", "31");
  }

  /** 10:00 is late. */
  lemma LateAtTen()
    ensures IsLateArrival("10:00")
  {
    assert "10"[..1] == "1" && "00"[..1] == "0";
    assert DigitsValue("10") == 10 && DigitsValue("00") == 0;
    assert "10" + ":" + "00" == "10:00";
    LateArrivalClock("10", "00");
  }

  /** A bare "10" is late although its minutes are undefined. */
  lemma LateAtBareTen()
    ensures IsLateArrival("10")
  {
    assert "10"[..1] == "1";
    assert DigitsValue("10") == 10;
    BareHourLate("10");
  }

  // ---------------------------------------------------------------------------
  // Date-header search
  // ---------------------------------------------------------------------------

  /** Only the first rows of a sheet are searched for the date header. */
  const HeaderSearchRows: nat := 20

  function HeaderSearchLimit(grid: Grid): (n: nat)
    ensures n <= |grid| && n <= HeaderSearchRows
    ensures n == |grid| || n == HeaderSearchRows
  {
    if |grid| < HeaderSearchRows then |grid| else HeaderSearchRows
  }

  /** The vendor fingerprint of the date-header row: cell 2 holds "St" and cell 3 holds "S". */
  predicate IsHeaderRow(row: Row) {
    Cell(row, 2) != "" && Contains(Cell(row, 2), "St") && Contains(Cell(row, 3), "S")
  }

  /** The day labels found by searching rows `i` up to the limit. */
  function DateHeadersFrom(grid: Grid, i: nat): Row
    requires i <= HeaderSearchLimit(grid)
    decreases HeaderSearchLimit(grid) - i
  {
    if i == HeaderSearchLimit(grid) then []
    else if IsHeaderRow(grid[i]) then SliceFrom2(grid[i])
    else DateHeadersFrom(grid, i + 1)
  }

  /** The day labels of a sheet, `[]` when no header row is found. */
  function DateHeaders(grid: Grid): Row {
    DateHeadersFrom(grid, 0)
  }

  lemma {:induction false} DateHeadersFromFirstMatch(grid: Grid, i: nat, h: nat)
    requires i <= h < HeaderSearchLimit(grid) && IsHeaderRow(grid[h])
    requires forall k :: i <= k < h ==> !IsHeaderRow(grid[k])
    ensures DateHeadersFrom(grid, i) == SliceFrom2(grid[h])
    decreases h - i
  {
    if i < h {
      DateHeadersFromFirstMatch(grid, i + 1, h);
    }
  }

  lemma {:induction false} DateHeadersFromNoMatch(grid: Grid, i: nat)
    requires i <= HeaderSearchLimit(grid)
    requires forall k :: i <= k < HeaderSearchLimit(grid) ==> !IsHeaderRow(grid[k])
    ensures DateHeadersFrom(grid, i) == []
    decreases HeaderSearchLimit(grid) - i
  {
    if i < HeaderSearchLimit(grid) {
      DateHeadersFromNoMatch(grid, i + 1);
    }
  }

  /** The labels are the cells from offset 2 of the first header row among the first 20 rows. */
  lemma DateHeadersFirstMatch(grid: Grid, h: nat)
    requires h < HeaderSearchLimit(grid) && IsHeaderRow(grid[h])
    requires forall k :: 0 <= k < h ==> !IsHeaderRow(grid[k])
    ensures DateHeaders(grid) == SliceFrom2(grid[h])
  {
    DateHeadersFromFirstMatch(grid, 0, h);
  }

  /** Without a header row among the first 20 rows the labels are empty. */
  lemma DateHeadersNotFound(grid: Grid)
    requires forall k :: 0 <= k < HeaderSearchLimit(grid) ==> !IsHeaderRow(grid[k])
    ensures DateHeaders(grid) == []
  {
    DateHeadersFromNoMatch(grid, 0);
  }

  /** The header search loop of `parseExcelAttendance`. */
  method FindDateHeaders(grid: Grid) returns (dateHeaders: Row)
    ensures dateHeaders == DateHeaders(grid)
  {
    dateHeaders := [];
    var i := 0;
    var limit := if |grid| < HeaderSearchRows then |grid| else HeaderSearchRows;
    while i < limit
      invariant 0 <= i <= limit == HeaderSearchLimit(grid)
      invariant DateHeadersFrom(grid, i) == DateHeaders(grid)
      invariant dateHeaders == []
    {
      var row := grid[i];
      if IsHeaderRow(row) {
        dateHeaders := SliceFrom2(row);
        return;
      }
      i := i + 1;
    }
  }

  // ---------------------------------------------------------------------------
  // Day classification
  // ---------------------------------------------------------------------------

  /**
   * The five cells of one day column, trimmed, with the defaults of the source,
   * and `isLateArrival` of its in-time.
   */
  datatype DayCell = DayCell(date: string, status: string, inTime: string, outTime: string, totalHours: string,
                             isLate: bool)

  /** One stored daily attendance entry. */
  datatype DailyRecord = DailyRecord(date: string, status: string, inTime: string, outTime: string,
                                     isLate: bool, totalHours: string)

  /** One parsed employee block, as pushed onto `employeeAttendance`. */
  datatype EmployeeAttendance = EmployeeAttendance(
    employeeId: string, employeeName: string,
    daysPresent: nat, daysLeave: nat, halfDays: nat, totalDays: nat,
    dailyRecords: seq<DailyRecord>)

  /** How a day column counts. */
  datatype DayKind = Blank | WeekOff | Present | HalfDay | Leave | OtherStatus

  /** Day column `j` of a block; a blank total cell reads as "00:00". */
  function DayCellAt(dateHeaders: Row, statusRow: Row, inTimeRow: Row, outTimeRow: Row, totalRow: Row, j: nat): DayCell {
    var inTime := TrimmedOr(Cell(inTimeRow, j), "");
    DayCell(TrimmedOr(Cell(dateHeaders, j), ""),
            TrimmedOr(Cell(statusRow, j), ""),
            inTime,
            TrimmedOr(Cell(outTimeRow, j), ""),
            TrimmedOr(Cell(totalRow, j), "00:00"),
            IsLateArrival(inTime))
  }

  /** Columns are walked while both the status row and the labels last. */
  function ColumnCount(dateHeaders: Row, statusRow: Row): (n: nat)
    ensures n <= |dateHeaders| && n <= |statusRow|
    ensures n == |dateHeaders| || n == |statusRow|
  {
    if |statusRow| < |dateHeaders| then |statusRow| else |dateHeaders|
  }

  /** The first `n` walked columns, trimmed and defaulted. */
  function DayCellsUpTo(dateHeaders: Row, statusRow: Row, inTimeRow: Row, outTimeRow: Row, totalRow: Row,
                        n: nat): (cells: seq<DayCell>)
    ensures |cells| == n
  {
    if n == 0 then []
    else DayCellsUpTo(dateHeaders, statusRow, inTimeRow, outTimeRow, totalRow, n - 1)
         + [DayCellAt(dateHeaders, statusRow, inTimeRow, outTimeRow, totalRow, n - 1)]
  }

  /** Every walked column: one per date header that has a status cell. */
  function DayCells(dateHeaders: Row, statusRow: Row, inTimeRow: Row, outTimeRow: Row, totalRow: Row): (cells: seq<DayCell>)
    ensures |cells| == ColumnCount(dateHeaders, statusRow)
  {
    DayCellsUpTo(dateHeaders, statusRow, inTimeRow, outTimeRow, totalRow, ColumnCount(dateHeaders, statusRow))
  }

  /** Column `j` of the walked columns is built from the `j`-th cells of the rows. */
  lemma {:induction false} DayCellsUpToAt(dateHeaders: Row, statusRow: Row, inTimeRow: Row, outTimeRow: Row,
                                          totalRow: Row, n: nat, j: nat)
    requires j < n
    ensures DayCellsUpTo(dateHeaders, statusRow, inTimeRow, outTimeRow, totalRow, n)[j]
            == DayCellAt(dateHeaders, statusRow, inTimeRow, outTimeRow, totalRow, j)
  {
    var prev := DayCellsUpTo(dateHeaders, statusRow, inTimeRow, outTimeRow, totalRow, n - 1);
    var last := DayCellAt(dateHeaders, statusRow, inTimeRow, outTimeRow, totalRow, n - 1);
    assert DayCellsUpTo(dateHeaders, statusRow, inTimeRow, outTimeRow, totalRow, n) == prev + [last];
    if j < n - 1 {
      DayCellsUpToAt(dateHeaders, statusRow, inTimeRow, outTimeRow, totalRow, n - 1, j);
      SnocAt(prev, last, j);
    }
  }


  predicate IsPresentCode(status: string) { status == "P" || status == "WOP" }

  function KindOf(c: DayCell): DayKind {
    if c.status == "" then Blank
    else if c.status == "WO" then WeekOff
    else if IsPresentCode(c.status) then (if c.isLate then HalfDay else Present)
    else if c.status == "A" then Leave
    else OtherStatus
  }

  /** The record of a non-blank day: a late `P`/`WOP` is stored as "HD", every other status verbatim. */
  function RecordOf(c: DayCell): DailyRecord {
    var finalStatus := if IsPresentCode(c.status) && c.isLate then "HD" else c.status;
    DailyRecord(c.date, finalStatus, c.inTime, c.outTime, c.isLate, c.totalHours)
  }

  /** How many of the columns are of kind `k`. */
  function CountKind(cells: seq<DayCell>, k: DayKind): nat {
    if cells == [] then 0
    else CountKind(cells[..|cells| - 1], k) + (if KindOf(cells[|cells| - 1]) == k then 1 else 0)
  }

  /** A non-blank column whose status is not "WO" (week off) is a working day. */
  predicate IsWorkingDay(c: DayCell) {
    c.status != "" && c.status != "WO"
  }

  /** `totalWorkingDays`: how many columns are working days. */
  function WorkingDays(cells: seq<DayCell>): nat {
    if cells == [] then 0
    else WorkingDays(cells[..|cells| - 1]) + (if IsWorkingDay(cells[|cells| - 1]) then 1 else 0)
  }

  /** One record per non-blank column, in column order. */
  function DailyRecords(cells: seq<DayCell>): seq<DailyRecord> {
    if cells == [] then []
    else
      var c := cells[|cells| - 1];
      DailyRecords(cells[..|cells| - 1]) + (if c.status != "" then [RecordOf(c)] else [])
  }

  /** The counters and records of a block whose walked columns are `cells`. */
  function SummaryOf(code: string, name: string, cells: seq<DayCell>): EmployeeAttendance {
    EmployeeAttendance(code, name, CountKind(cells, Present), CountKind(cells, Leave),
                       CountKind(cells, HalfDay), WorkingDays(cells), DailyRecords(cells))
  }

  /** The summary that a complete employee block produces. */
  function Summarise(dateHeaders: Row, code: string, name: string,
                     statusRow: Row, inTimeRow: Row, outTimeRow: Row, totalRow: Row): EmployeeAttendance
  {
    SummaryOf(code, name, DayCells(dateHeaders, statusRow, inTimeRow, outTimeRow, totalRow))
  }

  /**
   * The counters partition the columns: the working days are the present, leave,
   * half and other-status days; the records are the working days plus the week-off
   * days; and every record carries a non-blank status.
   */
  lemma {:induction false} CountersPartition(cells: seq<DayCell>)
    ensures WorkingDays(cells) == CountKind(cells, Present) + CountKind(cells, Leave)
                                  + CountKind(cells, HalfDay) + CountKind(cells, OtherStatus)
    ensures |DailyRecords(cells)| == WorkingDays(cells) + CountKind(cells, WeekOff)
    ensures |DailyRecords(cells)| + CountKind(cells, Blank) == |cells|
    ensures forall i :: 0 <= i < |DailyRecords(cells)| ==> DailyRecords(cells)[i].status != ""
  {
    if cells != [] {
      CountersPartition(cells[..|cells| - 1]);
    }
  }

  /** What every emitted summary satisfies: counters bounded by the working days, which are bounded by the labels. */
  predicate WellFormedSummary(s: EmployeeAttendance, dateHeaders: Row) {
    && s.employeeId != ""
    && s.daysPresent + s.daysLeave + s.halfDays <= s.totalDays <= |s.dailyRecords| <= |dateHeaders|
    && (forall i :: 0 <= i < |s.dailyRecords| ==> s.dailyRecords[i].status != "")
  }

  lemma SummariseWellFormed(dateHeaders: Row, code: string, name: string,
                            statusRow: Row, inTimeRow: Row, outTimeRow: Row, totalRow: Row)
    requires code != ""
    ensures WellFormedSummary(Summarise(dateHeaders, code, name, statusRow, inTimeRow, outTimeRow, totalRow), dateHeaders)
  {
    CountersPartition(DayCells(dateHeaders, statusRow, inTimeRow, outTimeRow, totalRow));
  }

  /**
   * The classification of one day column (its cells trimmed and defaulted,
   * as `DayCellAt` reads them), seen through the summary of a one-column
   * block: a blank status is skipped; a late `P`/`WOP` is stored as "HD" and
   * counts as a half day; an on-time one counts as present with its status
   * kept; `A` counts as leave; `WO` is recorded but counts nowhere; any other
   * status counts only as a working day.
   */
  lemma ClassifyOneColumn(code: string, name: string, c: DayCell)
    ensures var sum := SummaryOf(code, name, [c]);
            && (c.status == "" ==> sum.dailyRecords == [] && sum.totalDays == 0
                                   && sum.daysPresent == 0 && sum.daysLeave == 0 && sum.halfDays == 0)
            && (c.status != "" ==>
                  sum.dailyRecords == [DailyRecord(c.date, if (c.status == "P" || c.status == "WOP") && c.isLate then "HD" else c.status,
                                                   c.inTime, c.outTime, c.isLate, c.totalHours)])
            && ((c.status == "P" || c.status == "WOP") && c.isLate ==>
                  sum.halfDays == 1 && sum.daysPresent == 0 && sum.daysLeave == 0 && sum.totalDays == 1)
            && ((c.status == "P" || c.status == "WOP") && !c.isLate ==>
                  sum.daysPresent == 1 && sum.halfDays == 0 && sum.daysLeave == 0 && sum.totalDays == 1)
            && (c.status == "A" ==> sum.daysLeave == 1 && sum.daysPresent == 0 && sum.halfDays == 0 && sum.totalDays == 1)
            && (c.status == "WO" ==> sum.totalDays == 0 && sum.daysPresent == 0 && sum.daysLeave == 0 && sum.halfDays == 0)
            && (c.status !in {"", "WO", "P", "WOP", "A"} ==>
                  sum.totalDays == 1 && sum.daysPresent == 0 && sum.daysLeave == 0 && sum.halfDays == 0)
  {
    OneColumnTallies(c);
  }

  lemma OneColumnTallies(c: DayCell)
    ensures forall k :: CountKind([c], k) == if KindOf(c) == k then 1 else 0
    ensures WorkingDays([c]) == if IsWorkingDay(c) then 1 else 0
    ensures DailyRecords([c]) == if c.status != "" then [RecordOf(c)] else []
  {
    assert [c][..0] == [];
    assert WorkingDays([c]) == WorkingDays([]) + (if IsWorkingDay(c) then 1 else 0);
    assert DailyRecords([c]) == DailyRecords([]) + (if c.status != "" then [RecordOf(c)] else []);
  }

  /** Extending the walked columns by one adds that column's contribution to each tally. */
  lemma ColumnStep(cells: seq<DayCell>, j: nat)
    requires j < |cells|
    ensures CountKind(cells[..j + 1], Present) == CountKind(cells[..j], Present) + (if KindOf(cells[j]) == Present then 1 else 0)
    ensures CountKind(cells[..j + 1], Leave) == CountKind(cells[..j], Leave) + (if KindOf(cells[j]) == Leave then 1 else 0)
    ensures CountKind(cells[..j + 1], HalfDay) == CountKind(cells[..j], HalfDay) + (if KindOf(cells[j]) == HalfDay then 1 else 0)
    ensures WorkingDays(cells[..j + 1]) == WorkingDays(cells[..j]) + (if IsWorkingDay(cells[j]) then 1 else 0)
    ensures DailyRecords(cells[..j + 1]) == DailyRecords(cells[..j]) + (if cells[j].status != "" then [RecordOf(cells[j])] else [])
  {
    assert cells[..j + 1][..j] == cells[..j];
  }

  /**
   * The column loop of a complete block: classify each walked column (its
   * trimmed, defaulted cells are `cells[j]`) and count.
   */
  method SummariseDays(code: string, name: string, cells: seq<DayCell>) returns (summary: EmployeeAttendance)
    ensures summary == SummaryOf(code, name, cells)
  {
    var dailyRecords: seq<DailyRecord> := [];
    var daysPresent, daysLeave, halfDays, totalWorkingDays := 0, 0, 0, 0;
    var j := 0;
    while j < |cells|
      invariant 0 <= j <= |cells|
      invariant daysPresent == CountKind(cells[..j], Present)
      invariant daysLeave == CountKind(cells[..j], Leave)
      invariant halfDays == CountKind(cells[..j], HalfDay)
      invariant totalWorkingDays == WorkingDays(cells[..j])
      invariant dailyRecords == DailyRecords(cells[..j])
    {
      var c := cells[j];
      ColumnStep(cells, j);
      if c.status != "" {
        var isLate := c.isLate;
        var finalStatus := c.status;
        if c.status != "WO" {
          totalWorkingDays := totalWorkingDays + 1;
        }
        if c.status == "P" || c.status == "WOP" {
          if isLate {
            finalStatus := "HD";
            halfDays := halfDays + 1;
          } else {
            daysPresent := daysPresent + 1;
          }
        } else if c.status == "A" {
          daysLeave := daysLeave + 1;
        }
        dailyRecords := dailyRecords + [DailyRecord(c.date, finalStatus, c.inTime, c.outTime, isLate, c.totalHours)];
      }
      j := j + 1;
    }
    assert cells[..j] == cells;
    summary := EmployeeAttendance(code, name, daysPresent, daysLeave, halfDays, totalWorkingDays, dailyRecords);
  }

  // ---------------------------------------------------------------------------
  // The block state machine
  // ---------------------------------------------------------------------------

  /**
   * The row loop's variables. `code` is `currentEmployeeCode`, with "" for
   * null (a trimmed code can itself be "", which the source treats the same
   * way); a captured Status/InTime/OutTime row is `Some`.
   */
  datatype BlockState = BlockState(code: string, name: string,
                                   statusRow: Option<Row>, inTimeRow: Option<Row>, outTimeRow: Option<Row>)

  const Idle: BlockState := BlockState("", "", None, None, None)

  predicate IsOpen(st: BlockState) { st.code != "" }

  predicate IsComplete(st: BlockState) {
    st.statusRow.Some? && st.inTimeRow.Some? && st.outTimeRow.Some?
  }

  /** The state right after a code row: a fresh block with nothing captured. */
  function Opened(row: Row): BlockState {
    var code := Trim(Cell(row, 3));
    BlockState(code, TrimmedOr(Cell(row, 12), code), None, None, None)
  }

  /** What a Total row hands to the column loop: the block's rows, sliced past column 2. */
  datatype CompleteBlock = CompleteBlock(code: string, name: string,
                                         statusRow: Row, inTimeRow: Row, outTimeRow: Row, totalRow: Row)

  datatype StepResult = StepResult(next: BlockState, emitted: Option<CompleteBlock>)

  /** One iteration of the row loop. */
  function Step(st: BlockState, row: Row): StepResult {
    if |row| == 0 then StepResult(st, None)
    else if IsCodeRow(row) then StepResult(Opened(row), None)
    else if Marker(row) == "Status" && IsOpen(st) then StepResult(st.(statusRow := Some(SliceFrom2(row))), None)
    else if Marker(row) == "InTime" && IsOpen(st) then StepResult(st.(inTimeRow := Some(SliceFrom2(row))), None)
    else if Marker(row) == "OutTime" && IsOpen(st) then StepResult(st.(outTimeRow := Some(SliceFrom2(row))), None)
    else if Marker(row) == "Total" && IsOpen(st) then
      var emitted :=
        if IsComplete(st)
        then Some(CompleteBlock(st.code, st.name, st.statusRow.value, st.inTimeRow.value,
                                st.outTimeRow.value, SliceFrom2(row)))
        else None;
      StepResult(st.(code := ""), emitted)
    else StepResult(st, None)
  }

  function Emitted(o: Option<CompleteBlock>): seq<CompleteBlock> {
    if o.Some? then [o.value] else []
  }

  datatype Scan = Scan(state: BlockState, blocks: seq<CompleteBlock>)

  /** The row loop run over `rows` from state `st`. */
  function RunFrom(st: BlockState, rows: Grid): Scan {
    if rows == [] then Scan(st, [])
    else
      var before := RunFrom(st, rows[..|rows| - 1]);
      var step := Step(before.state, rows[|rows| - 1]);
      Scan(step.next, before.blocks + Emitted(step.emitted))
  }

  function SummariseBlock(dateHeaders: Row, b: CompleteBlock): EmployeeAttendance {
    Summarise(dateHeaders, b.code, b.name, b.statusRow, b.inTimeRow, b.outTimeRow, b.totalRow)
  }

  /** The summaries of the complete blocks, in sheet order. */
  function Summaries(dateHeaders: Row, blocks: seq<CompleteBlock>): (r: seq<EmployeeAttendance>)
    ensures |r| == |blocks|
  {
    if blocks == [] then []
    else Summaries(dateHeaders, blocks[..|blocks| - 1]) + [SummariseBlock(dateHeaders, blocks[|blocks| - 1])]
  }

  lemma {:induction false} SummariesAt(dateHeaders: Row, blocks: seq<CompleteBlock>, k: nat)
    requires k < |blocks|
    ensures Summaries(dateHeaders, blocks)[k] == SummariseBlock(dateHeaders, blocks[k])
  {
    if k < |blocks| - 1 {
      SummariesAt(dateHeaders, blocks[..|blocks| - 1], k);
    }
  }

  /** `parseExcelAttendance` on a decoded sheet. */
  function ParseGrid(grid: Grid): seq<EmployeeAttendance> {
    Summaries(DateHeaders(grid), RunFrom(Idle, grid).blocks)
  }

  /** Running over one more row is one more step. */
  lemma RunFromSnoc(st: BlockState, rows: Grid, row: Row)
    ensures var before := RunFrom(st, rows);
            var step := Step(before.state, row);
            RunFrom(st, rows + [row]) == Scan(step.next, before.blocks + Emitted(step.emitted))
  {
    assert (rows + [row])[..|rows|] == rows;
  }

  lemma BlocksAssoc(x: seq<CompleteBlock>, y: seq<CompleteBlock>, z: seq<CompleteBlock>)
    ensures (x + y) + z == x + (y + z)
  {
  }

  /** Running over `a + b` is running over `a`, then over `b` from where `a` left off. */
  lemma {:induction false} RunFromAppend(st: BlockState, a: Grid, b: Grid)
    ensures var ra := RunFrom(st, a);
            var rb := RunFrom(ra.state, b);
            RunFrom(st, a + b) == Scan(rb.state, ra.blocks + rb.blocks)
    decreases |b|
  {
    if b == [] {
      assert a + b == a;
    } else {
      var b', last := b[..|b| - 1], b[|b| - 1];
      assert b == b' + [last];
      assert a + b == (a + b') + [last];
      RunFromAppend(st, a, b');
      var ra := RunFrom(st, a);
      var mid := RunFrom(st, a + b');
      var rb' := RunFrom(ra.state, b');
      RunFromSnoc(st, a + b', last);
      RunFromSnoc(ra.state, b', last);
      var step := Step(mid.state, last);
      BlocksAssoc(ra.blocks, rb'.blocks, Emitted(step.emitted));
    }
  }

  lemma RunFromSingle(st: BlockState, row: Row)
    ensures var s := Step(st, row);
            RunFrom(st, [row]) == Scan(s.next, Emitted(s.emitted))
  {
    assert [row][..0] == [];
  }

  /** Empty rows are skipped: removing one changes neither the state nor the output. */
  lemma EmptyRowSkipped(st: BlockState, a: Grid, b: Grid)
    ensures RunFrom(st, a + [[]] + b) == RunFrom(st, a + b)
  {
    var ra := RunFrom(st, a);
    RunFromAppend(st, a + [[]], b);
    RunFromAppend(st, a, [[]]);
    RunFromSingle(ra.state, []);
    assert ra.blocks + [] == ra.blocks;
    RunFromAppend(st, a, b);
  }

  /**
   * A code row opens a block with the trimmed code and the trimmed name (or the
   * code), and drops whatever an unfinished block had captured: what follows does
   * not depend on the state before it.
   */
  lemma CodeRowOpensBlock(st1: BlockState, st2: BlockState, row: Row, rest: Grid)
    requires IsCodeRow(row)
    ensures Step(st1, row) == StepResult(Opened(row), None)
    ensures RunFrom(st1, [row] + rest) == RunFrom(st2, [row] + rest)
  {
    RunFromAppend(st1, [row], rest);
    RunFromAppend(st2, [row], rest);
    RunFromSingle(st1, row);
    RunFromSingle(st2, row);
  }

  /** While no block is open, rows that are not code rows change nothing and emit nothing. */
  lemma {:induction false} ClosedIgnoresRows(st: BlockState, rows: Grid)
    requires !IsOpen(st)
    requires forall k :: 0 <= k < |rows| ==> !IsCodeRow(rows[k])
    ensures RunFrom(st, rows) == Scan(st, [])
  {
    if rows != [] {
      ClosedIgnoresRows(st, rows[..|rows| - 1]);
    }
  }

  /**
   * A Total row in an open block emits exactly one block iff Status, InTime and
   * OutTime were all captured, built from them and the Total row; either way the
   * block is closed.
   */
  lemma TotalRowCloses(st: BlockState, row: Row)
    requires IsOpen(st) && Marker(row) == "Total"
    ensures Step(st, row).next == st.(code := "")
    ensures Step(st, row).emitted.Some? <==> IsComplete(st)
    ensures IsComplete(st) ==>
              Step(st, row).emitted
              == Some(CompleteBlock(st.code, st.name, st.statusRow.value, st.inTimeRow.value,
                                    st.outTimeRow.value, SliceFrom2(row)))
  {
  }

  predicate IsDataMarker(m: string) { m == "Status" || m == "InTime" || m == "OutTime" }

  /**
   * A Status, InTime or OutTime row emits nothing; in an open block it is
   * captured, sliced past its two label columns, and otherwise ignored.
   */
  lemma DataRowCaptured(st: BlockState, row: Row)
    requires IsDataMarker(Marker(row))
    ensures !IsOpen(st) ==> Step(st, row) == StepResult(st, None)
    ensures IsOpen(st) && Marker(row) == "Status" ==>
              Step(st, row) == StepResult(st.(statusRow := Some(SliceFrom2(row))), None)
    ensures IsOpen(st) && Marker(row) == "InTime" ==>
              Step(st, row) == StepResult(st.(inTimeRow := Some(SliceFrom2(row))), None)
    ensures IsOpen(st) && Marker(row) == "OutTime" ==>
              Step(st, row) == StepResult(st.(outTimeRow := Some(SliceFrom2(row))), None)
  {
  }

  /** Status, InTime and OutTime rows may come in any order. */
  lemma DataRowsCommute(st: BlockState, r1: Row, r2: Row)
    requires IsDataMarker(Marker(r1)) && IsDataMarker(Marker(r2)) && Marker(r1) != Marker(r2)
    ensures RunFrom(st, [r1, r2]) == RunFrom(st, [r2, r1])
  {
    DataRowCaptured(st, r1);
    DataRowCaptured(st, r2);
    DataRowCaptured(Step(st, r1).next, r2);
    DataRowCaptured(Step(st, r2).next, r1);
    RunFromSingle(st, r1);
    RunFromSingle(st, r2);
    RunFromSnoc(st, [r1], r2);
    RunFromSnoc(st, [r2], r1);
    RowDisplays(r1, r2, r1, r1, r1);
    RowDisplays(r2, r1, r2, r2, r2);
  }

  /** A repeated data row overwrites the earlier one. */
  lemma DataRowOverwrites(st: BlockState, r1: Row, r2: Row)
    requires IsDataMarker(Marker(r1)) && Marker(r1) == Marker(r2)
    ensures RunFrom(st, [r1, r2]) == RunFrom(st, [r2])
  {
    DataRowCaptured(st, r1);
    DataRowCaptured(st, r2);
    DataRowCaptured(Step(st, r1).next, r2);
    RunFromSingle(st, r1);
    RunFromSingle(st, r2);
    RunFromSnoc(st, [r1], r2);
    RowDisplays(r1, r2, r1, r1, r1);
  }

  /**
   * A complete block (code, Status, InTime, OutTime, Total) whose code is not
   * blank emits exactly that block, whatever the state before it, and leaves
   * the block closed.
   */
  lemma CompleteBlockEmitsOne(st: BlockState, code: Row, s: Row, i: Row, o: Row, t: Row)
    requires IsCodeRow(code) && Opened(code).code != ""
    requires Marker(s) == "Status" && Marker(i) == "InTime" && Marker(o) == "OutTime" && Marker(t) == "Total"
    ensures var b := Opened(code);
            RunFrom(st, [code, s, i, o, t])
            == Scan(BlockState("", b.name, Some(SliceFrom2(s)), Some(SliceFrom2(i)), Some(SliceFrom2(o))),
                    [CompleteBlock(b.code, b.name, SliceFrom2(s), SliceFrom2(i), SliceFrom2(o), SliceFrom2(t))])
  {
    var b4 := Opened(code).(statusRow := Some(SliceFrom2(s)), inTimeRow := Some(SliceFrom2(i)),
                            outTimeRow := Some(SliceFrom2(o)));
    RowDisplays(code, s, i, o, t);
    OpenBlockCaptures(st, code, s, i, o);
    TotalRowCloses(b4, t);
    RunFromSnoc(st, [code, s, i, o], t);
  }

  /** A code row followed by Status, InTime and OutTime rows leaves an open block with all three captured. */
  lemma OpenBlockCaptures(st: BlockState, code: Row, s: Row, i: Row, o: Row)
    requires IsCodeRow(code) && Opened(code).code != ""
    requires Marker(s) == "Status" && Marker(i) == "InTime" && Marker(o) == "OutTime"
    ensures RunFrom(st, [code, s, i, o])
            == Scan(Opened(code).(statusRow := Some(SliceFrom2(s)), inTimeRow := Some(SliceFrom2(i)),
                                  outTimeRow := Some(SliceFrom2(o))), [])
  {
    var b1 := Opened(code);
    var b2 := b1.(statusRow := Some(SliceFrom2(s)));
    var b3 := b2.(inTimeRow := Some(SliceFrom2(i)));
    RowDisplays(code, s, i, o, o);
    RunFromSingle(st, code);
    DataRowCaptured(b1, s);
    RunFromSnoc(st, [code], s);
    DataRowCaptured(b2, i);
    RunFromSnoc(st, [code, s], i);
    DataRowCaptured(b3, o);
    RunFromSnoc(st, [code, s, i], o);
  }

  lemma RowDisplays(a: Row, b: Row, c: Row, d: Row, e: Row)
    ensures [a] + [b] == [a, b]
    ensures [a, b] + [c] == [a, b, c]
    ensures [a, b, c] + [d] == [a, b, c, d]
    ensures [a, b, c, d] + [e] == [a, b, c, d, e]
  {
  }

  /** In an open block, Status, InTime and then Total emit nothing: OutTime is still missing. */
  lemma OpenBlockWithoutOutTime(b1: BlockState, s: Row, i: Row, t: Row)
    requires IsOpen(b1) && b1.outTimeRow == None
    requires Marker(s) == "Status" && Marker(i) == "InTime" && Marker(t) == "Total"
    ensures RunFrom(b1, [s, i, t])
            == Scan(b1.(code := "", statusRow := Some(SliceFrom2(s)), inTimeRow := Some(SliceFrom2(i))), [])
  {
    var b2 := b1.(statusRow := Some(SliceFrom2(s)));
    var b3 := b2.(inTimeRow := Some(SliceFrom2(i)));
    DataRowCaptured(b1, s);
    DataRowCaptured(b2, i);
    TotalRowCloses(b3, t);
    RunFromSingle(b1, s);
    RunFromSnoc(b1, [s], i);
    RowDisplays(s, i, t, t, t);
    RunFromSnoc(b1, [s, i], t);
  }

  /** A block whose OutTime row is missing emits nothing at its Total row. */
  lemma BlockWithoutOutTimeDropped(st: BlockState, code: Row, s: Row, i: Row, t: Row)
    requires IsCodeRow(code)
    requires Marker(s) == "Status" && Marker(i) == "InTime" && Marker(t) == "Total"
    ensures RunFrom(st, [code, s, i, t]).blocks == []
  {
    var b1 := Opened(code);
    RowDisplays(code, s, i, t, t);
    RunFromSingle(st, code);
    DataRowCaptured(b1, s);
    var b2 := Step(b1, s).next;
    RunFromSnoc(st, [code], s);
    DataRowCaptured(b2, i);
    var b3 := Step(b2, i).next;
    assert b3.outTimeRow == None;
    RunFromSnoc(st, [code, s], i);
    if IsOpen(b3) {
      TotalRowCloses(b3, t);
    }
    RunFromSnoc(st, [code, s, i], t);
  }

  /** How many Total rows a sequence of rows holds. */
  function TotalRows(rows: Grid): nat {
    if rows == [] then 0
    else TotalRows(rows[..|rows| - 1]) + (if Marker(rows[|rows| - 1]) == "Total" then 1 else 0)
  }

  /** At most one block per Total row, and every emitted block has a non-blank code. */
  lemma {:induction false} RunFromBlocks(st: BlockState, rows: Grid)
    ensures |RunFrom(st, rows).blocks| <= TotalRows(rows)
    ensures forall k :: 0 <= k < |RunFrom(st, rows).blocks| ==> RunFrom(st, rows).blocks[k].code != ""
  {
    if rows != [] {
      RunFromBlocks(st, rows[..|rows| - 1]);
    }
  }

  /** Every summary the import produces is well formed, and there are at most as many as Total rows. */
  lemma ParseGridWellFormed(grid: Grid)
    ensures |ParseGrid(grid)| <= TotalRows(grid)
    ensures forall k :: 0 <= k < |ParseGrid(grid)| ==> WellFormedSummary(ParseGrid(grid)[k], DateHeaders(grid))
  {
    var blocks := RunFrom(Idle, grid).blocks;
    RunFromBlocks(Idle, grid);
    forall k | 0 <= k < |ParseGrid(grid)|
      ensures WellFormedSummary(ParseGrid(grid)[k], DateHeaders(grid))
    {
      SummariesAt(DateHeaders(grid), blocks, k);
      var b := blocks[k];
      SummariseWellFormed(DateHeaders(grid), b.code, b.name, b.statusRow, b.inTimeRow, b.outTimeRow, b.totalRow);
    }
  }

  /**
   * Without a date header the import does not abort: every summary it emits has
   * zero counters and no daily records.
   */
  lemma NoHeaderGivesEmptySummaries(grid: Grid)
    requires forall k :: 0 <= k < HeaderSearchLimit(grid) ==> !IsHeaderRow(grid[k])
    ensures forall k :: 0 <= k < |ParseGrid(grid)| ==>
              var s := ParseGrid(grid)[k];
              s.daysPresent == 0 && s.daysLeave == 0 && s.halfDays == 0 && s.totalDays == 0 && s.dailyRecords == []
  {
    DateHeadersNotFound(grid);
    ParseGridWellFormed(grid);
  }

  /** `parseExcelAttendance`: header search, then the row loop with its explicit state. */
  method ParseExcelAttendance(data: Grid) returns (employeeAttendance: seq<EmployeeAttendance>)
    ensures employeeAttendance == ParseGrid(data)
  {
    var dateHeaders := FindDateHeaders(data);
    employeeAttendance := [];
    var currentEmployeeCode: string := "";
    var currentEmployeeName: string := "";
    var statusRow: Option<Row> := None;
    var inTimeRow: Option<Row> := None;
    var outTimeRow: Option<Row> := None;
    ghost var blocks: seq<CompleteBlock> := [];
    var i := 0;
    while i < |data|
      invariant 0 <= i <= |data|
      invariant RunFrom(Idle, data[..i])
                == Scan(BlockState(currentEmployeeCode, currentEmployeeName, statusRow, inTimeRow, outTimeRow), blocks)
      invariant employeeAttendance == Summaries(dateHeaders, blocks)
    {
      var row := data[i];
      PrefixSnoc(data, i);
      RunFromSnoc(Idle, data[..i], row);
      i := i + 1;
      if |row| == 0 {
        continue;
      }
      if Marker(row) == CodeMarker && Cell(row, 3) != "" {
        currentEmployeeCode := Trim(row[3]);
        currentEmployeeName := if Cell(row, 12) != "" then Trim(row[12]) else currentEmployeeCode;
        statusRow, inTimeRow, outTimeRow := None, None, None;
        continue;
      }
      if row[0] == "Status" && currentEmployeeCode != "" {
        statusRow := Some(SliceFrom2(row));
        continue;
      }
      if row[0] == "InTime" && currentEmployeeCode != "" {
        inTimeRow := Some(SliceFrom2(row));
        continue;
      }
      if row[0] == "OutTime" && currentEmployeeCode != "" {
        outTimeRow := Some(SliceFrom2(row));
        continue;
      }
      if row[0] == "Total" && currentEmployeeCode != "" {
        var totalRow := SliceFrom2(row);
        if statusRow.Some? && inTimeRow.Some? && outTimeRow.Some? {
          var cells := DayCells(dateHeaders, statusRow.value, inTimeRow.value, outTimeRow.value, totalRow);
          var summary := SummariseDays(currentEmployeeCode, currentEmployeeName, cells);
          var block := CompleteBlock(currentEmployeeCode, currentEmployeeName, statusRow.value, inTimeRow.value,
                                     outTimeRow.value, totalRow);
          assert blocks + [block] != [] && (blocks + [block])[..|blocks|] == blocks;
          blocks := blocks + [block];
          employeeAttendance := employeeAttendance + [summary];
        }
        currentEmployeeCode := "";
      }
    }
    assert data[..i] == data;
  }
}
