/**
 * `POST /upload-excel` (backend/src/routes/attendance.js): after the request
 * checks, parse the sheet and reconcile each employee summary against the
 * employee directory, upserting one attendance document per (employee,
 * monthYear) and collecting one outcome per summary.
 *
 * The database is passed in and handed back: `registry` is what
 * `Employee.findOne({ employeeId })` finds, `store` is the attendance
 * collection, and `failures(k)` says whether the upsert of the `k`-th summary
 * throws, and with which message.
 */
module AttendanceImport {
  import opened Wrappers
  import opened Seqs
  import opened Sheet
  import opened Attendance
  import opened Store
  import opened Models

  datatype ImportOutcome =
    | Imported(employeeId: string, employeeName: string, daysPresent: nat, daysLeave: nat, halfDays: nat)
    | ImportFailed(employeeId: string, reason: string)

  /** The JSON body of a successful upload. */
  datatype ImportResponse = ImportResponse(message: string, results: seq<ImportOutcome>,
                                           totalProcessed: nat, successful: nat, failed: nat)

  type Registry = map<string, Employee>

  const EmployeeNotFound: string := "Employee not found"
  const UploadedMessage: string := "Attendance uploaded successfully"
  const NoFileMessage: string := "No file uploaded"
  const NoMonthMessage: string := "Month/Year is required"

  /** The fields the upsert writes for `record`. */
  function AttendanceDocOf(record: EmployeeAttendance, employee: Employee, monthYear: string): AttendanceDoc {
    AttendanceDoc(record.employeeId, employee.id, monthYear, record.daysPresent, record.daysLeave,
                  record.halfDays, record.totalDays, record.dailyRecords)
  }

  /** What reconciling the `k`-th summary reports. */
  function OutcomeOf(registry: Registry, failures: UpsertFailures, k: nat, record: EmployeeAttendance): ImportOutcome {
    if record.employeeId !in registry then ImportFailed(record.employeeId, EmployeeNotFound)
    else if failures(k).Some? then ImportFailed(record.employeeId, failures(k).value)
    else Imported(record.employeeId, record.employeeName, record.daysPresent, record.daysLeave, record.halfDays)
  }

  /** What reconciling the `k`-th summary writes: one upsert, or nothing. */
  function WriteOf(registry: Registry, monthYear: string, failures: UpsertFailures, k: nat,
                   record: EmployeeAttendance): seq<(Key, AttendanceDoc)> {
    if record.employeeId in registry && failures(k).None? then
      var employee := registry[record.employeeId];
      [(Key(employee.id, monthYear), AttendanceDocOf(record, employee, monthYear))]
    else []
  }

  /** The `results` array for `records`, in order. */
  function Outcomes(registry: Registry, failures: UpsertFailures, records: seq<EmployeeAttendance>)
    : (r: seq<ImportOutcome>)
    ensures |r| == |records|
  {
    if records == [] then []
    else
      var k := |records| - 1;
      Outcomes(registry, failures, records[..k]) + [OutcomeOf(registry, failures, k, records[k])]
  }

  /** The upserts the loop performs for `records`, in order. */
  function Writes(registry: Registry, monthYear: string, failures: UpsertFailures,
                  records: seq<EmployeeAttendance>): seq<(Key, AttendanceDoc)> {
    if records == [] then []
    else
      var k := |records| - 1;
      Writes(registry, monthYear, failures, records[..k]) + WriteOf(registry, monthYear, failures, k, records[k])
  }

  /** `results.filter((r) => r.status === "success").length` */
  function Succeeded(results: seq<ImportOutcome>): nat {
    if results == [] then 0
    else Succeeded(results[..|results| - 1]) + (if results[|results| - 1].Imported? then 1 else 0)
  }

  /** `results.filter((r) => r.status === "failed").length` */
  function Failed(results: seq<ImportOutcome>): nat {
    if results == [] then 0
    else Failed(results[..|results| - 1]) + (if results[|results| - 1].ImportFailed? then 1 else 0)
  }

  function ResponseOf(results: seq<ImportOutcome>): ImportResponse {
    ImportResponse(UploadedMessage, results, |results|, Succeeded(results), Failed(results))
  }

  /** One more summary is one more outcome and at most one more write. */
  lemma StepSnoc(registry: Registry, monthYear: string, failures: UpsertFailures,
                 records: seq<EmployeeAttendance>, i: nat)
    requires i < |records|
    ensures Outcomes(registry, failures, records[..i + 1])
            == Outcomes(registry, failures, records[..i]) + [OutcomeOf(registry, failures, i, records[i])]
    ensures Writes(registry, monthYear, failures, records[..i + 1])
            == Writes(registry, monthYear, failures, records[..i]) + WriteOf(registry, monthYear, failures, i, records[i])
  {
    PrefixSnoc(records, i);
    SnocPrefix(records[..i], records[i]);
  }

  /** The reconcile loop: look each summary up, upsert it, record the outcome. */
  method Reconcile(records: seq<EmployeeAttendance>, monthYear: string, registry: Registry,
                   failures: UpsertFailures, store: map<Key, AttendanceDoc>)
    returns (results: seq<ImportOutcome>, newStore: map<Key, AttendanceDoc>)
    ensures results == Outcomes(registry, failures, records)
    ensures newStore == ApplyAll(store, Writes(registry, monthYear, failures, records))
  {
    results := [];
    newStore := store;
    for i := 0 to |records|
      invariant results == Outcomes(registry, failures, records[..i])
      invariant newStore == ApplyAll(store, Writes(registry, monthYear, failures, records[..i]))
    {
      var record := records[i];
      StepSnoc(registry, monthYear, failures, records, i);
      ghost var written := Writes(registry, monthYear, failures, records[..i]);
      assert written + [] == written;
      if record.employeeId !in registry {
        results := results + [ImportFailed(record.employeeId, EmployeeNotFound)];
        continue;
      }
      var employee := registry[record.employeeId];
      var failure := failures(i);
      if failure.Some? {
        results := results + [ImportFailed(record.employeeId, failure.value)];
      } else {
        var write := (Key(employee.id, monthYear), AttendanceDocOf(record, employee, monthYear));
        ApplyAllSnoc(store, written, write);
        newStore := newStore[write.0 := write.1];
        results := results + [Imported(record.employeeId, record.employeeName, record.daysPresent,
                                       record.daysLeave, record.halfDays)];
      }
    }
    assert records[..|records|] == records;
  }

  /**
   * The whole handler past authentication: the two 400 checks in order, a
   * sheet that cannot be decoded (`Failure`) answering 500 with its message,
   * then parse and reconcile.
   */
  method UploadExcel(upload: Option<Result<Grid, string>>, monthYear: string, registry: Registry,
                     failures: UpsertFailures, store: map<Key, AttendanceDoc>)
    returns (response: Result<ImportResponse, HttpError>, newStore: map<Key, AttendanceDoc>)
    ensures upload.None? ==> response == Failure(HttpError(400, NoFileMessage)) && newStore == store
    ensures upload.Some? && monthYear == "" ==> response == Failure(HttpError(400, NoMonthMessage)) && newStore == store
    ensures upload.Some? && monthYear != "" && upload.value.Failure? ==>
              response == Failure(HttpError(500, upload.value.error)) && newStore == store
    ensures upload.Some? && monthYear != "" && upload.value.Success? ==>
              var records := ParseGrid(upload.value.value);
              response == Success(ResponseOf(Outcomes(registry, failures, records)))
              && newStore == ApplyAll(store, Writes(registry, monthYear, failures, records))
  {
    newStore := store;
    if upload.None? {
      return Failure(HttpError(400, NoFileMessage)), newStore;
    }
    if monthYear == "" {
      return Failure(HttpError(400, NoMonthMessage)), newStore;
    }
    if upload.value.Failure? {
      return Failure(HttpError(500, upload.value.error)), newStore;
    }
    var attendanceData := ParseExcelAttendance(upload.value.value);
    var results;
    results, newStore := Reconcile(attendanceData, monthYear, registry, failures, store);
    response := Success(ImportResponse(UploadedMessage, results, |results|, Succeeded(results), Failed(results)));
  }

  // ---------------------------------------------------------------------------
  // Properties of the reconcile loop
  // ---------------------------------------------------------------------------

  /**
   * The `k`-th result belongs to the `k`-th summary: an unknown code fails with
   * "Employee not found", a throwing upsert fails with its message, and
   * otherwise the summary's counters are reported.
   */
  lemma {:induction false} OutcomeAt(registry: Registry, failures: UpsertFailures,
                                     records: seq<EmployeeAttendance>, k: nat)
    requires k < |records|
    ensures var r := records[k];
            var out := Outcomes(registry, failures, records)[k];
            && (r.employeeId !in registry ==> out == ImportFailed(r.employeeId, EmployeeNotFound))
            && (r.employeeId in registry && failures(k).Some? ==> out == ImportFailed(r.employeeId, failures(k).value))
            && (r.employeeId in registry && failures(k).None? ==>
                  out == Imported(r.employeeId, r.employeeName, r.daysPresent, r.daysLeave, r.halfDays))
  {
    if k < |records| - 1 {
      OutcomeAt(registry, failures, records[..|records| - 1], k);
    }
  }

  /** Every result is a success or a failure: `successful + failed == totalProcessed`. */
  lemma {:induction false} SucceededPlusFailed(results: seq<ImportOutcome>)
    ensures Succeeded(results) + Failed(results) == |results|
  {
    if results != [] {
      SucceededPlusFailed(results[..|results| - 1]);
    }
  }

  /** `successful` is the number of upserts performed: a known code whose upsert did not throw. */
  lemma {:induction false} SucceededCountsImports(registry: Registry, monthYear: string, failures: UpsertFailures,
                                                  records: seq<EmployeeAttendance>)
    ensures Succeeded(Outcomes(registry, failures, records))
            == |Writes(registry, monthYear, failures, records)|
  {
    if records != [] {
      var k := |records| - 1;
      SucceededCountsImports(registry, monthYear, failures, records[..k]);
      SnocPrefix(Outcomes(registry, failures, records[..k]), OutcomeOf(registry, failures, k, records[k]));
    }
  }

  /**
   * A key that no known summary maps to keeps its stored document (or its
   * absence): other months and other employees are untouched.
   */
  lemma {:induction false} ImportLeavesOtherKeys(store: map<Key, AttendanceDoc>, registry: Registry,
                                                 monthYear: string, failures: UpsertFailures,
                                                 records: seq<EmployeeAttendance>, key: Key)
    requires forall k :: 0 <= k < |records| && records[k].employeeId in registry ==>
               Key(registry[records[k].employeeId].id, monthYear) != key
    ensures var after := ApplyAll(store, Writes(registry, monthYear, failures, records));
            (key in after <==> key in store) && (key in store ==> after[key] == store[key])
  {
    if records != [] {
      var k := |records| - 1;
      var before := Writes(registry, monthYear, failures, records[..k]);
      ImportLeavesOtherKeys(store, registry, monthYear, failures, records[..k], key);
      var w := WriteOf(registry, monthYear, failures, k, records[k]);
      if w != [] {
        SnocPrefix(before, w[0]);
        assert before + w == before + [w[0]];
      } else {
        assert before + w == before;
      }
    }
  }

  /** Documents of other months are never touched by an import. */
  lemma OtherMonthsUntouched(store: map<Key, AttendanceDoc>, registry: Registry, monthYear: string,
                             failures: UpsertFailures, records: seq<EmployeeAttendance>, key: Key)
    requires key.monthYear != monthYear
    ensures var after := ApplyAll(store, Writes(registry, monthYear, failures, records));
            (key in after <==> key in store) && (key in store ==> after[key] == store[key])
  {
    ImportLeavesOtherKeys(store, registry, monthYear, failures, records, key);
  }

  /**
   * After the import, an employee's document for the month holds exactly the
   * last of their summaries whose upsert succeeded (a sheet that names an
   * employee twice keeps the later block; a later upsert that throws writes
   * nothing).
   */
  lemma {:induction false} ImportStoresLastSummary(store: map<Key, AttendanceDoc>, registry: Registry,
                                                   monthYear: string, failures: UpsertFailures,
                                                   records: seq<EmployeeAttendance>, k: nat)
    requires k < |records| && records[k].employeeId in registry && failures(k).None?
    requires forall j :: k < j < |records| && records[j].employeeId in registry && failures(j).None? ==>
               registry[records[j].employeeId].id != registry[records[k].employeeId].id
    ensures var employee := registry[records[k].employeeId];
            var after := ApplyAll(store, Writes(registry, monthYear, failures, records));
            Key(employee.id, monthYear) in after
            && after[Key(employee.id, monthYear)] == AttendanceDocOf(records[k], employee, monthYear)
  {
    var last := |records| - 1;
    var before := Writes(registry, monthYear, failures, records[..last]);
    var w := WriteOf(registry, monthYear, failures, last, records[last]);
    assert Writes(registry, monthYear, failures, records) == before + w;
    if w != [] {
      ApplyAllSnoc(store, before, w[0]);
      assert before + w == before + [w[0]];
    } else {
      assert before + w == before;
    }
    if k < last {
      ImportStoresLastSummary(store, registry, monthYear, failures, records[..last], k);
    }
  }

  /** Uploading the same sheet again, with the same outcome of every upsert, changes nothing. */
  lemma ReimportIsIdempotent(store: map<Key, AttendanceDoc>, registry: Registry, monthYear: string,
                             failures: UpsertFailures, grid: Grid)
    ensures var ws := Writes(registry, monthYear, failures, ParseGrid(grid));
            ApplyAll(ApplyAll(store, ws), ws) == ApplyAll(store, ws)
  {
    ApplyAllIdempotent(store, Writes(registry, monthYear, failures, ParseGrid(grid)));
  }

  /**
   * A sheet with three summaries, one of them for an unknown code, and no
   * throwing upsert: three results, two successful, one failed with
   * "Employee not found", and two documents written.
   */
  lemma ThreeSummariesOneUnknown()
    ensures var registry := map["E1" := Employee(1, "E1", "Asha", 30000.0), "E2" := Employee(2, "E2", "Ravi", 30000.0)];
            var records := [EmployeeAttendance("E1", "Asha", 20, 1, 1, 22, []),
                            EmployeeAttendance("E9", "Nobody", 0, 0, 0, 0, []),
                            EmployeeAttendance("E2", "Ravi", 18, 3, 0, 21, [])];
            var response := ResponseOf(Outcomes(registry, _ => None, records));
            && response.totalProcessed == 3 && response.successful == 2 && response.failed == 1
            && response.results[1] == ImportFailed("E9", EmployeeNotFound)
            && |Writes(registry, "2024-01", _ => None, records)| == 2
  {
    var registry := map["E1" := Employee(1, "E1", "Asha", 30000.0), "E2" := Employee(2, "E2", "Ravi", 30000.0)];
    var records := [EmployeeAttendance("E1", "Asha", 20, 1, 1, 22, []),
                    EmployeeAttendance("E9", "Nobody", 0, 0, 0, 0, []),
                    EmployeeAttendance("E2", "Ravi", 18, 3, 0, 21, [])];
    var failures: UpsertFailures := _ => None;
    assert "E9" !in registry;
    OutcomeAt(registry, failures, records, 0);
    OutcomeAt(registry, failures, records, 1);
    OutcomeAt(registry, failures, records, 2);
    var results := Outcomes(registry, failures, records);
    var o0, o1, o2 := results[0], results[1], results[2];
    assert results == [o0, o1, o2];
    assert [o0, o1, o2][..2] == [o0, o1] && [o0, o1][..1] == [o0] && [o0][..0] == [];
    SucceededPlusFailed(results);
    SucceededCountsImports(registry, "2024-01", failures, records);
  }
}
