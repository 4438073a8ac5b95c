/**
 * `POST /calculate` (backend/src/routes/salary.js): for every attendance
 * document of the month, derive the month's salary of its employee and upsert
 * one salary document per (employee, monthYear).
 *
 * Money is exact: the per-record figures are reals, and `Math.round` is
 * `floor(x + 1/2)`, applied only to what is stored and reported.
 */
module Salary {
  import opened Wrappers
  import opened Seqs
  import opened Store
  import opened Models

  // ---------------------------------------------------------------------------
  // The per-record figures
  // ---------------------------------------------------------------------------

  /** The fixed divisor of the per-day rate, whatever the month's length. */
  const DaysPerMonth: real := 30.0

  /** Leave days that cost nothing. */
  const FreeLeaves: nat := 2

  /** `baseSalary / 30` */
  function PerDaySalary(baseSalary: real): (r: real)
    ensures r * DaysPerMonth == baseSalary
  {
    baseSalary / DaysPerMonth
  }

  /** `halfDays * (perDaySalary * 0.5)` */
  function HalfDayDeduction(baseSalary: real, halfDays: nat): real {
    halfDays as real * (PerDaySalary(baseSalary) * 0.5)
  }

  /** `Math.max(0, daysLeave - 2)` */
  function ChargeableLeaves(daysLeave: nat): nat {
    if daysLeave > FreeLeaves then daysLeave - FreeLeaves else 0
  }

  /** `chargeableLeaves * perDaySalary` */
  function LeaveDeduction(baseSalary: real, daysLeave: nat): real {
    ChargeableLeaves(daysLeave) as real * PerDaySalary(baseSalary)
  }

  /** `halfDayDeduction + leaveDeduction`, unrounded. */
  function TotalDeductions(baseSalary: real, halfDays: nat, daysLeave: nat): real {
    HalfDayDeduction(baseSalary, halfDays) + LeaveDeduction(baseSalary, daysLeave)
  }

  /** `baseSalary - totalDeductions`, unrounded. */
  function NetSalary(baseSalary: real, halfDays: nat, daysLeave: nat): (r: real)
    ensures r + TotalDeductions(baseSalary, halfDays, daysLeave) == baseSalary
  {
    baseSalary - TotalDeductions(baseSalary, halfDays, daysLeave)
  }

  /** `Math.round`: the nearest integer, halves going up. */
  function Round(x: real): (r: int)
    ensures r as real - 0.5 <= x < r as real + 0.5
  {
    (x + 0.5).Floor
  }

  // ---------------------------------------------------------------------------
  // Properties of the figures
  // ---------------------------------------------------------------------------

  /** The first two leave days are free; every further one costs a full day's rate. */
  lemma LeaveAllowance(baseSalary: real, daysLeave: nat)
    ensures daysLeave <= FreeLeaves ==> ChargeableLeaves(daysLeave) == 0 && LeaveDeduction(baseSalary, daysLeave) == 0.0
    ensures daysLeave > FreeLeaves ==> LeaveDeduction(baseSalary, daysLeave) * DaysPerMonth
                                       == (daysLeave - FreeLeaves) as real * baseSalary
  {
  }

  /** The deduction in days of pay: half a day per half day, a day per chargeable leave. */
  lemma DeductionsInDays(baseSalary: real, halfDays: nat, daysLeave: nat)
    ensures TotalDeductions(baseSalary, halfDays, daysLeave) * 60.0
            == (halfDays + 2 * ChargeableLeaves(daysLeave)) as real * baseSalary
  {
    var p := PerDaySalary(baseSalary);
    calc {
      TotalDeductions(baseSalary, halfDays, daysLeave) * 60.0;
      (halfDays as real * (p * 0.5) + ChargeableLeaves(daysLeave) as real * p) * 60.0;
      (halfDays as real + 2.0 * ChargeableLeaves(daysLeave) as real) * (p * 30.0);
    }
  }

  /** With a non-negative base, deductions are non-negative and the net never exceeds the base. */
  lemma DeductionBounds(baseSalary: real, halfDays: nat, daysLeave: nat)
    requires baseSalary >= 0.0
    ensures TotalDeductions(baseSalary, halfDays, daysLeave) >= 0.0
    ensures NetSalary(baseSalary, halfDays, daysLeave) <= baseSalary
    ensures Round(TotalDeductions(baseSalary, halfDays, daysLeave)) >= 0
  {
    DeductionsInDays(baseSalary, halfDays, daysLeave);
  }

  /** As long as the deducted days stay within the month, the net is not negative. */
  lemma NetNonNegativeWithinMonth(baseSalary: real, halfDays: nat, daysLeave: nat)
    requires baseSalary >= 0.0 && halfDays + 2 * ChargeableLeaves(daysLeave) <= 60
    ensures NetSalary(baseSalary, halfDays, daysLeave) >= 0.0
  {
    DeductionsInDays(baseSalary, halfDays, daysLeave);
    var days := (halfDays + 2 * ChargeableLeaves(daysLeave)) as real;
    assert days * baseSalary <= 60.0 * baseSalary;
  }

  /** `Math.round` leaves whole numbers alone. */
  lemma RoundWhole(n: int)
    ensures Round(n as real) == n
  {
  }

  /** `Math.round` never inverts an order. */
  lemma RoundMonotone(x: real, y: real)
    requires x <= y
    ensures Round(x) <= Round(y)
  {
  }

  /** More half days never raise the net, unrounded or as stored. */
  lemma NetAntitoneInHalfDays(baseSalary: real, halfDays1: nat, halfDays2: nat, daysLeave: nat)
    requires baseSalary >= 0.0 && halfDays1 <= halfDays2
    ensures NetSalary(baseSalary, halfDays2, daysLeave) <= NetSalary(baseSalary, halfDays1, daysLeave)
    ensures Round(NetSalary(baseSalary, halfDays2, daysLeave)) <= Round(NetSalary(baseSalary, halfDays1, daysLeave))
  {
    DeductionsInDays(baseSalary, halfDays1, daysLeave);
    DeductionsInDays(baseSalary, halfDays2, daysLeave);
    assert halfDays1 as real * baseSalary <= halfDays2 as real * baseSalary;
    RoundMonotone(NetSalary(baseSalary, halfDays2, daysLeave), NetSalary(baseSalary, halfDays1, daysLeave));
  }

  /** More leave days never raise the net, unrounded or as stored. */
  lemma NetAntitoneInLeave(baseSalary: real, halfDays: nat, daysLeave1: nat, daysLeave2: nat)
    requires baseSalary >= 0.0 && daysLeave1 <= daysLeave2
    ensures NetSalary(baseSalary, halfDays, daysLeave2) <= NetSalary(baseSalary, halfDays, daysLeave1)
    ensures Round(NetSalary(baseSalary, halfDays, daysLeave2)) <= Round(NetSalary(baseSalary, halfDays, daysLeave1))
  {
    DeductionsInDays(baseSalary, halfDays, daysLeave1);
    DeductionsInDays(baseSalary, halfDays, daysLeave2);
    var c1, c2 := ChargeableLeaves(daysLeave1), ChargeableLeaves(daysLeave2);
    assert c1 <= c2;
    assert (halfDays + 2 * c1) as real * baseSalary <= (halfDays + 2 * c2) as real * baseSalary;
    RoundMonotone(NetSalary(baseSalary, halfDays, daysLeave2), NetSalary(baseSalary, halfDays, daysLeave1));
  }

  /**
   * The stored net is the rounded unrounded net, not the base minus the
   * stored deductions: for a whole base the two differ by at most one.
   */
  lemma RoundedNetAgainstRoundedDeductions(base: int, halfDays: nat, daysLeave: nat)
    ensures var d := TotalDeductions(base as real, halfDays, daysLeave);
            var net := Round(NetSalary(base as real, halfDays, daysLeave));
            net == base - Round(d) || net == base - Round(d) + 1
  {
  }

  /** Base 30 with one half day: deductions 0.5 are stored as 1, but the net 29.5 as 30. */
  lemma RoundedNetExceedsBaseMinusDeductions()
    ensures Round(TotalDeductions(30.0, 1, 0)) == 1
    ensures Round(NetSalary(30.0, 1, 0)) == 30
  {
    assert TotalDeductions(30.0, 1, 0) == 0.5;
  }

  /** Base 30000, five leave days, two half days: 1000 a day, deductions 4000, net 26000. */
  lemma WorkedExampleFiveLeaves()
    ensures Round(PerDaySalary(30000.0)) == 1000
    ensures Round(TotalDeductions(30000.0, 2, 5)) == 4000
    ensures Round(NetSalary(30000.0, 2, 5)) == 26000
  {
    assert PerDaySalary(30000.0) == 1000.0;
    assert TotalDeductions(30000.0, 2, 5) == 4000.0;
    RoundWhole(1000);
    RoundWhole(4000);
    RoundWhole(26000);
  }

  /** Base 30000, one leave day, no half day: nothing is deducted. */
  lemma WorkedExampleOneLeave()
    ensures Round(TotalDeductions(30000.0, 0, 1)) == 0
    ensures Round(NetSalary(30000.0, 0, 1)) == 30000
  {
    assert TotalDeductions(30000.0, 0, 1) == 0.0;
    RoundWhole(0);
    RoundWhole(30000);
  }

  // ---------------------------------------------------------------------------
  // The batch
  // ---------------------------------------------------------------------------

  /** The `salary` block of a successful result. */
  datatype SalaryBlock = SalaryBlock(baseSalary: real, halfDays: nat, chargeableLeaves: nat,
                                     totalDeductions: int, netSalary: int)

  datatype SalaryOutcome =
    | Calculated(employeeId: string, employeeName: string, salary: SalaryBlock)
    | CalculationFailed(employeeId: string, reason: string)

  /** The JSON body of a completed calculation. */
  datatype SalaryResponse = SalaryResponse(message: string, results: seq<SalaryOutcome>)

  /** What `populate("employee")` resolves: employees by `_id`; a deleted one is absent (null). */
  type Employees = map<nat, Employee>

  const CalculatedMessage: string := "Salaries calculated"

  /** The TypeError of `employee.baseSalary` on an employee that `populate` left null. */
  const NullEmployeeMessage: string := "Cannot read properties of null (reading 'baseSalary')"

  /** `Attendance.find({ monthYear })`: the month's documents, in collection order. */
  function MonthRecords(collection: seq<AttendanceDoc>, monthYear: string): (r: seq<AttendanceDoc>)
    ensures |r| <= |collection|
    ensures forall d :: d in r <==> d in collection && d.monthYear == monthYear
  {
    if collection == [] then []
    else
      var last := collection[|collection| - 1];
      MonthRecords(collection[..|collection| - 1], monthYear) + (if last.monthYear == monthYear then [last] else [])
  }

  /** The fields the upsert writes for one attendance document. */
  function SalaryDocOf(attendance: AttendanceDoc, employee: Employee, monthYear: string): SalaryDoc {
    var base := employee.baseSalary;
    SalaryDoc(employee.employeeId, employee.id, monthYear, base,
              attendance.daysPresent, attendance.daysLeave, attendance.halfDays,
              Round(PerDaySalary(base)),
              Round(TotalDeductions(base, attendance.halfDays, attendance.daysLeave)),
              Round(NetSalary(base, attendance.halfDays, attendance.daysLeave)))
  }

  /** The reported `salary` block for one attendance document. */
  function SalaryBlockOf(attendance: AttendanceDoc, employee: Employee): SalaryBlock {
    var base := employee.baseSalary;
    SalaryBlock(base, attendance.halfDays, ChargeableLeaves(attendance.daysLeave),
                Round(TotalDeductions(base, attendance.halfDays, attendance.daysLeave)),
                Round(NetSalary(base, attendance.halfDays, attendance.daysLeave)))
  }

  predicate AllPopulated(employees: Employees, records: seq<AttendanceDoc>) {
    forall j :: 0 <= j < |records| ==> records[j].employee in employees
  }

  /** How many records, from the first, have their employee; the loop throws at the next one. */
  function PopulatedPrefix(employees: Employees, records: seq<AttendanceDoc>): (n: nat)
    ensures n <= |records|
    ensures AllPopulated(employees, records[..n])
    ensures n < |records| ==> records[n].employee !in employees
  {
    if records == [] || records[0].employee !in employees then 0
    else
      var n := 1 + PopulatedPrefix(employees, records[1..]);
      assert forall j :: 1 <= j < n ==> records[..n][j] == records[1..][..n - 1][j - 1];
      n
  }

  /** The loop throws exactly at the first record whose employee is null. */
  lemma PopulatedPrefixAt(employees: Employees, records: seq<AttendanceDoc>, i: nat)
    requires i <= |records| && AllPopulated(employees, records[..i])
    requires i < |records| ==> records[i].employee !in employees
    ensures PopulatedPrefix(employees, records) == i
  {
    var n := PopulatedPrefix(employees, records);
    if n != i {
      assert false;
    }
  }

  /** What the loop reports for the `k`-th record of the month. */
  function OutcomeOf(employee: Employee, failures: UpsertFailures, k: nat, attendance: AttendanceDoc): SalaryOutcome {
    if failures(k).Some? then CalculationFailed(employee.employeeId, failures(k).value)
    else Calculated(employee.employeeId, employee.name, SalaryBlockOf(attendance, employee))
  }

  /** What the loop writes for the `k`-th record of the month. */
  function WriteOf(employee: Employee, monthYear: string, failures: UpsertFailures, k: nat,
                   attendance: AttendanceDoc): seq<(Key, SalaryDoc)> {
    if failures(k).Some? then []
    else [(Key(employee.id, monthYear), SalaryDocOf(attendance, employee, monthYear))]
  }

  /** The `results` array for records whose employees all resolve. */
  function Outcomes(employees: Employees, failures: UpsertFailures, records: seq<AttendanceDoc>)
    : (r: seq<SalaryOutcome>)
    requires AllPopulated(employees, records)
    ensures |r| == |records|
  {
    if records == [] then []
    else
      var k := |records| - 1;
      assert AllPopulated(employees, records[..k]);
      Outcomes(employees, failures, records[..k])
      + [OutcomeOf(employees[records[k].employee], failures, k, records[k])]
  }

  /** The upserts the loop performs for records whose employees all resolve. */
  function Writes(employees: Employees, monthYear: string, failures: UpsertFailures,
                  records: seq<AttendanceDoc>): seq<(Key, SalaryDoc)>
    requires AllPopulated(employees, records)
  {
    if records == [] then []
    else
      var k := |records| - 1;
      assert AllPopulated(employees, records[..k]);
      Writes(employees, monthYear, failures, records[..k])
      + WriteOf(employees[records[k].employee], monthYear, failures, k, records[k])
  }

  /** One more record of the month is one more outcome and at most one more write. */
  lemma StepSnoc(employees: Employees, monthYear: string, failures: UpsertFailures,
                 records: seq<AttendanceDoc>, i: nat)
    requires i < |records| && AllPopulated(employees, records[..i]) && records[i].employee in employees
    ensures AllPopulated(employees, records[..i + 1])
    ensures var employee := employees[records[i].employee];
            && Outcomes(employees, failures, records[..i + 1])
               == Outcomes(employees, failures, records[..i]) + [OutcomeOf(employee, failures, i, records[i])]
            && Writes(employees, monthYear, failures, records[..i + 1])
               == Writes(employees, monthYear, failures, records[..i]) + WriteOf(employee, monthYear, failures, i, records[i])
  {
    PrefixSnoc(records, i);
    SnocPrefix(records[..i], records[i]);
  }

  /**
   * The handler past authentication. Every record whose employee resolves
   * is priced and upserted in turn; the first one whose employee is null
   * throws, which answers 500 and keeps the upserts made before it.
   */
  method CalculateSalaries(collection: seq<AttendanceDoc>, monthYear: string, employees: Employees,
                           failures: UpsertFailures, store: map<Key, SalaryDoc>)
    returns (response: Result<SalaryResponse, HttpError>, newStore: map<Key, SalaryDoc>)
    ensures var records := MonthRecords(collection, monthYear);
            var n := PopulatedPrefix(employees, records);
            && (n == |records| ==>
                  response == Success(SalaryResponse(CalculatedMessage, Outcomes(employees, failures, records))))
            && (n < |records| ==> response == Failure(HttpError(500, NullEmployeeMessage)))
            && newStore == ApplyAll(store, Writes(employees, monthYear, failures, records[..n]))
  {
    var attendanceRecords := MonthRecords(collection, monthYear);
    var results: seq<SalaryOutcome> := [];
    newStore := store;
    for i := 0 to |attendanceRecords|
      invariant AllPopulated(employees, attendanceRecords[..i])
      invariant results == Outcomes(employees, failures, attendanceRecords[..i])
      invariant newStore == ApplyAll(store, Writes(employees, monthYear, failures, attendanceRecords[..i]))
    {
      var attendance := attendanceRecords[i];
      if attendance.employee !in employees {
        PopulatedPrefixAt(employees, attendanceRecords, i);
        return Failure(HttpError(500, NullEmployeeMessage)), newStore;
      }
      var employee := employees[attendance.employee];
      var perDaySalary := PerDaySalary(employee.baseSalary);
      var chargeableLeaves := ChargeableLeaves(attendance.daysLeave);
      var totalDeductions := TotalDeductions(employee.baseSalary, attendance.halfDays, attendance.daysLeave);
      var netSalary := NetSalary(employee.baseSalary, attendance.halfDays, attendance.daysLeave);

      StepSnoc(employees, monthYear, failures, attendanceRecords, i);
      ghost var written := Writes(employees, monthYear, failures, attendanceRecords[..i]);
      var failure := failures(i);
      if failure.Some? {
        assert written + [] == written;
        results := results + [CalculationFailed(employee.employeeId, failure.value)];
      } else {
        var doc := SalaryDoc(employee.employeeId, employee.id, monthYear, employee.baseSalary,
                             attendance.daysPresent, attendance.daysLeave, attendance.halfDays,
                             Round(perDaySalary), Round(totalDeductions), Round(netSalary));
        ApplyAllSnoc(store, written, (Key(employee.id, monthYear), doc));
        newStore := newStore[Key(employee.id, monthYear) := doc];
        var block := SalaryBlock(employee.baseSalary, attendance.halfDays, chargeableLeaves,
                                 Round(totalDeductions), Round(netSalary));
        results := results + [Calculated(employee.employeeId, employee.name, block)];
      }
    }
    assert attendanceRecords[..|attendanceRecords|] == attendanceRecords;
    PopulatedPrefixAt(employees, attendanceRecords, |attendanceRecords|);
    response := Success(SalaryResponse(CalculatedMessage, results));
  }

  // ---------------------------------------------------------------------------
  // Properties of the batch
  // ---------------------------------------------------------------------------

  /**
   * The `k`-th result belongs to the `k`-th record of the month: a throwing
   * upsert fails with its message, and otherwise the rounded salary block is
   * reported. A failure does not stop the records after it.
   */
  lemma {:induction false} SalaryOutcomeAt(employees: Employees, failures: UpsertFailures,
                                           records: seq<AttendanceDoc>, k: nat)
    requires AllPopulated(employees, records) && k < |records|
    ensures var employee := employees[records[k].employee];
            var out := Outcomes(employees, failures, records)[k];
            && (failures(k).Some? ==> out == CalculationFailed(employee.employeeId, failures(k).value))
            && (failures(k).None? ==> out == Calculated(employee.employeeId, employee.name,
                                                        SalaryBlockOf(records[k], employee)))
  {
    var last := |records| - 1;
    assert AllPopulated(employees, records[..last]);
    if k < last {
      SalaryOutcomeAt(employees, failures, records[..last], k);
    }
  }

  /**
   * After the batch, an employee's salary document for the month holds the
   * figures of the last record of that employee whose upsert succeeded: each
   * upsert replaces the previous salary, and one that throws writes nothing.
   */
  lemma {:induction false} SalaryStoresLast(store: map<Key, SalaryDoc>, employees: Employees, monthYear: string,
                                            failures: UpsertFailures, records: seq<AttendanceDoc>, k: nat)
    requires AllPopulated(employees, records) && k < |records| && failures(k).None?
    requires forall j :: k < j < |records| && failures(j).None? ==>
               employees[records[j].employee].id != employees[records[k].employee].id
    ensures var employee := employees[records[k].employee];
            var after := ApplyAll(store, Writes(employees, monthYear, failures, records));
            Key(employee.id, monthYear) in after
            && after[Key(employee.id, monthYear)] == SalaryDocOf(records[k], employee, monthYear)
  {
    var last := |records| - 1;
    assert AllPopulated(employees, records[..last]);
    var before := Writes(employees, monthYear, failures, records[..last]);
    var w := WriteOf(employees[records[last].employee], monthYear, failures, last, records[last]);
    if w != [] {
      ApplyAllSnoc(store, before, w[0]);
      assert before + w == before + [w[0]];
    } else {
      assert before + w == before;
    }
    if k < last {
      SalaryStoresLast(store, employees, monthYear, failures, records[..last], k);
    }
  }

  /** Salary documents of keys that no record of the month maps to are untouched. */
  lemma {:induction false} SalaryLeavesOtherKeys(store: map<Key, SalaryDoc>, employees: Employees, monthYear: string,
                                                 failures: UpsertFailures, records: seq<AttendanceDoc>, key: Key)
    requires AllPopulated(employees, records)
    requires forall k :: 0 <= k < |records| ==> Key(employees[records[k].employee].id, monthYear) != key
    ensures var after := ApplyAll(store, Writes(employees, monthYear, failures, records));
            (key in after <==> key in store) && (key in store ==> after[key] == store[key])
  {
    if records != [] {
      var last := |records| - 1;
      assert AllPopulated(employees, records[..last]);
      var before := Writes(employees, monthYear, failures, records[..last]);
      SalaryLeavesOtherKeys(store, employees, monthYear, failures, records[..last], key);
      var w := WriteOf(employees[records[last].employee], monthYear, failures, last, records[last]);
      if w != [] {
        ApplyAllSnoc(store, before, w[0]);
        assert before + w == before + [w[0]];
      } else {
        assert before + w == before;
      }
    }
  }
}
