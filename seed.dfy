/**
 * The employee extraction of the seed script (backend/src/scripts/seed.js:62-100):
 * one pass over the rows of the report sheet collects an employee for every
 * "Emp. Code:" row whose code has not been seen before, with fixed defaults
 * for everything the sheet does not carry.
 */
module Seed {
  import opened Wrappers
  import opened Text
  import opened Sheet
  import opened Seqs

  datatype BankAccount = BankAccount(accountNumber: string, bankName: string, ifscCode: string)

  /** The document pushed onto `employees`; `joiningDate` is the date's ISO text. */
  datatype NewEmployee = NewEmployee(employeeId: string, name: string, email: string, phone: string,
                                     department: string, position: string, baseSalary: nat,
                                     joiningDate: string, bankAccount: BankAccount, status: string)

  const DefaultBaseSalary: nat := 30000
  const EmailDomain: string := "@company.com"
  const NoEmployeesMessage: string := "\U{274C} No employees found in Excel file"

  /** `String(row[3]).trim().toUpperCase()`. */
  function CodeOf(row: Row): string {
    ToUpper(Trim(Cell(row, 3)))
  }

  /** `row[12] ? String(row[12]).trim() : "Employee " + employeeId`. */
  function NameOf(row: Row, employeeId: string): string {
    TrimmedOr(Cell(row, 12), "Employee " + employeeId)
  }

  /** The employee a code row contributes. */
  function NewEmployeeOf(row: Row): NewEmployee {
    var employeeId := CodeOf(row);
    NewEmployee(employeeId, NameOf(row, employeeId), ToLower(employeeId) + EmailDomain,
                "9999999999", "General", "Employee", DefaultBaseSalary, "2023-01-01",
                BankAccount("0000000000", "NA", "NA000000"), "active")
  }

  /** The ids of a list of employees: the contents of `seenEmployeeIds`. */
  function IdSet(employees: seq<NewEmployee>): set<string> {
    if employees == [] then {}
    else IdSet(employees[..|employees| - 1]) + {employees[|employees| - 1].employeeId}
  }

  /** The `employees` array once the loop has read `rows`. */
  function Extract(rows: seq<Row>): seq<NewEmployee> {
    if rows == [] then []
    else
      var prev := Extract(rows[..|rows| - 1]);
      var row := rows[|rows| - 1];
      if IsCodeRow(row) && CodeOf(row) !in IdSet(prev) then prev + [NewEmployeeOf(row)] else prev
  }

  /** Some code row of `rows` carries the code `id`. */
  predicate HasCodeRow(rows: seq<Row>, id: string) {
    exists j :: 0 <= j < |rows| && IsCodeRow(rows[j]) && CodeOf(rows[j]) == id
  }

  /** Row `j` is a code row and no earlier row carries its code. */
  predicate IsFirstCodeRow(rows: seq<Row>, j: nat)
    requires j < |rows|
  {
    IsCodeRow(rows[j]) && !HasCodeRow(rows[..j], CodeOf(rows[j]))
  }

  /** Reference definition: the first code row of every code, in row order, among the first `n` rows. */
  function FirstOccurrences(rows: seq<Row>, n: nat): seq<NewEmployee>
    requires n <= |rows|
  {
    if n == 0 then []
    else FirstOccurrences(rows, n - 1) + (if IsFirstCodeRow(rows, n - 1) then [NewEmployeeOf(rows[n - 1])] else [])
  }

  /** An id is in `IdSet(es)` exactly when some employee of `es` has it. */
  lemma {:induction false} IdSetMembers(es: seq<NewEmployee>, id: string)
    ensures id in IdSet(es) <==> exists k :: 0 <= k < |es| && es[k].employeeId == id
  {
    if es != [] {
      var prev := es[..|es| - 1];
      IdSetMembers(prev, id);
      if id in IdSet(prev) {
        var k :| 0 <= k < |prev| && prev[k].employeeId == id;
        assert es[k] == prev[k];
      } else if exists k :: 0 <= k < |es| && es[k].employeeId == id {
        var k :| 0 <= k < |es| && es[k].employeeId == id;
        if k < |prev| {
          assert prev[k] == es[k];
        }
      }
    }
  }

  /** One more employee adds its id. */
  lemma IdSetSnoc(es: seq<NewEmployee>, e: NewEmployee)
    ensures IdSet(es + [e]) == IdSet(es) + {e.employeeId}
  {
    SnocPrefix(es, e);
  }

  /** One more row is one more step of the scan. */
  lemma ExtractSnoc(rows: seq<Row>, row: Row)
    ensures var prev := Extract(rows);
            Extract(rows + [row])
            == if IsCodeRow(row) && CodeOf(row) !in IdSet(prev) then prev + [NewEmployeeOf(row)] else prev
  {
    SnocPrefix(rows, row);
  }

  /** Reading row `i` is one step of the scan over the first `i` rows. */
  lemma ScanStep(rows: seq<Row>, i: nat)
    requires i < |rows|
    ensures var prev := Extract(rows[..i]);
            var row := rows[i];
            Extract(rows[..i + 1])
            == if IsCodeRow(row) && CodeOf(row) !in IdSet(prev) then prev + [NewEmployeeOf(row)] else prev
  {
    PrefixSnoc(rows, i);
    ExtractSnoc(rows[..i], rows[i]);
  }

  lemma HasCodeRowSnoc(rows: seq<Row>, row: Row, id: string)
    ensures HasCodeRow(rows + [row], id) <==> HasCodeRow(rows, id) || (IsCodeRow(row) && CodeOf(row) == id)
  {
    var all := rows + [row];
    if HasCodeRow(rows, id) {
      var j :| 0 <= j < |rows| && IsCodeRow(rows[j]) && CodeOf(rows[j]) == id;
      assert all[j] == rows[j];
    }
    if IsCodeRow(row) && CodeOf(row) == id {
      assert all[|rows|] == row;
    }
    if HasCodeRow(all, id) {
      var j :| 0 <= j < |all| && IsCodeRow(all[j]) && CodeOf(all[j]) == id;
      if j < |rows| {
        assert rows[j] == all[j];
      }
    }
  }

  /** A code has been seen exactly when some code row read so far carries it. */
  lemma {:induction false} SeenIffCodeRow(rows: seq<Row>, id: string)
    ensures id in IdSet(Extract(rows)) <==> HasCodeRow(rows, id)
  {
    if rows != [] {
      var prefix := rows[..|rows| - 1];
      var row := rows[|rows| - 1];
      ButLast(rows);
      SeenIffCodeRow(prefix, id);
      ExtractSnoc(prefix, row);
      HasCodeRowSnoc(prefix, row, id);
      IdSetSnoc(Extract(prefix), NewEmployeeOf(row));
    }
  }

  /** The extraction is the first occurrence of every code, in the order the codes first appear. */
  lemma {:induction false} ExtractIsFirstOccurrences(rows: seq<Row>, n: nat)
    requires n <= |rows|
    ensures Extract(rows[..n]) == FirstOccurrences(rows, n)
  {
    if n > 0 {
      ExtractIsFirstOccurrences(rows, n - 1);
      assert rows[..n][..n - 1] == rows[..n - 1];
      SeenIffCodeRow(rows[..n - 1], CodeOf(rows[n - 1]));
    }
  }

  /** The whole sheet's extraction against the reference definition. */
  lemma ExtractMatchesReference(rows: seq<Row>)
    ensures Extract(rows) == FirstOccurrences(rows, |rows|)
  {
    ExtractIsFirstOccurrences(rows, |rows|);
    assert rows[..|rows|] == rows;
  }

  /** No two employees of `es` share an employeeId. */
  predicate DistinctIds(es: seq<NewEmployee>) {
    forall a, b :: 0 <= a < b < |es| ==> es[a].employeeId != es[b].employeeId
  }

  /** Appending an employee whose id is unseen keeps the ids distinct. */
  lemma DistinctSnoc(es: seq<NewEmployee>, e: NewEmployee)
    requires DistinctIds(es) && e.employeeId !in IdSet(es)
    ensures DistinctIds(es + [e])
  {
    IdSetMembers(es, e.employeeId);
    var all := es + [e];
    forall a, b | 0 <= a < b < |all|
      ensures all[a].employeeId != all[b].employeeId
    {
      assert all[a] == es[a];
      if b < |es| {
        assert all[b] == es[b];
      }
    }
  }

  /** No two extracted employees share an employeeId. */
  lemma {:induction false} NoDuplicateIds(rows: seq<Row>)
    ensures DistinctIds(Extract(rows))
  {
    if rows != [] {
      var prefix := rows[..|rows| - 1];
      var row := rows[|rows| - 1];
      ButLast(rows);
      NoDuplicateIds(prefix);
      ExtractSnoc(prefix, row);
      if IsCodeRow(row) && CodeOf(row) !in IdSet(Extract(prefix)) {
        DistinctSnoc(Extract(prefix), NewEmployeeOf(row));
      }
    }
  }

  /** Every code of the sheet is seeded: some extracted employee has it. */
  lemma EveryCodeSeeded(rows: seq<Row>, j: nat)
    requires j < |rows| && IsCodeRow(rows[j])
    ensures exists k :: 0 <= k < |Extract(rows)| && Extract(rows)[k].employeeId == CodeOf(rows[j])
  {
    SeenIffCodeRow(rows, CodeOf(rows[j]));
    IdSetMembers(Extract(rows), CodeOf(rows[j]));
  }

  /** A later row repeating a seen code adds nothing, whatever name it carries. */
  lemma RepeatedCodeIgnored(rows: seq<Row>, row: Row)
    requires IsCodeRow(row) && HasCodeRow(rows, CodeOf(row))
    ensures Extract(rows + [row]) == Extract(rows)
  {
    ExtractSnoc(rows, row);
    SeenIffCodeRow(rows, CodeOf(row));
  }

  /**
   * Every extracted employee comes from a code row of the sheet, with the
   * defaults: lower-cased id at the company domain, base salary 30000, active.
   */
  lemma {:induction false} SeededEmployeeFields(rows: seq<Row>, k: nat)
    requires k < |Extract(rows)|
    ensures var e := Extract(rows)[k];
            && e.email == ToLower(e.employeeId) + EmailDomain
            && e.baseSalary == 30000 && e.status == "active"
            && exists j :: 0 <= j < |rows| && IsCodeRow(rows[j]) && e.employeeId == CodeOf(rows[j])
                           && e.name == NameOf(rows[j], e.employeeId)
  {
    var prefix := rows[..|rows| - 1];
    var row := rows[|rows| - 1];
    var prev := Extract(prefix);
    if k < |prev| {
      SeededEmployeeFields(prefix, k);
      var j :| 0 <= j < |prefix| && IsCodeRow(prefix[j]) && prev[k].employeeId == CodeOf(prefix[j])
               && prev[k].name == NameOf(prefix[j], prev[k].employeeId);
      assert rows[j] == prefix[j];
      if IsCodeRow(row) && CodeOf(row) !in IdSet(prev) {
        assert (prev + [NewEmployeeOf(row)])[k] == prev[k];
      }
    } else {
      assert rows[|rows| - 1] == row;
    }
  }

  /** The extraction is empty exactly when the sheet has no code row. */
  lemma {:induction false} EmptyIffNoCodeRow(rows: seq<Row>)
    ensures Extract(rows) == [] <==> forall j :: 0 <= j < |rows| ==> !IsCodeRow(rows[j])
  {
    if rows != [] {
      var prefix := rows[..|rows| - 1];
      EmptyIffNoCodeRow(prefix);
      if Extract(rows) == [] {
        forall j | 0 <= j < |rows|
          ensures !IsCodeRow(rows[j])
        {
          if j < |prefix| {
            assert rows[j] == prefix[j];
          }
        }
      } else if Extract(prefix) != [] {
        var j :| 0 <= j < |prefix| && IsCodeRow(prefix[j]);
        assert rows[j] == prefix[j];
      }
    }
  }

  /**
   * A code cell of only blanks is truthy, so the extraction collects an employee
   * with the empty id (which the schema's required `employeeId` would later refuse).
   */
  lemma BlankCodeSeedsEmptyId()
    ensures var rows := [[CodeMarker, "", "", " "]];
            && Extract(rows) == [NewEmployeeOf(rows[0])]
            && Extract(rows)[0].employeeId == "" && Extract(rows)[0].email == EmailDomain
  {
    var rows := [[CodeMarker, "", "", " "]];
    assert rows[..0] == [];
    assert Trim(" ") == "";
  }

  /**
   * Lines 62-100: the scan with a set of seen codes, then the empty check.
   * The result is the reference extraction, or the script's error when it is empty.
   */
  method SeedEmployees(data: Grid) returns (result: Result<seq<NewEmployee>, string>)
    ensures Extract(data) == [] ==> result == Failure(NoEmployeesMessage)
    ensures Extract(data) != [] ==> result == Success(FirstOccurrences(data, |data|))
  {
    var employees: seq<NewEmployee> := [];
    var seenEmployeeIds: set<string> := {};
    for i := 0 to |data|
      invariant employees == Extract(data[..i])
      invariant seenEmployeeIds == IdSet(employees)
    {
      var row := data[i];
      ScanStep(data, i);
      if Cell(row, 0) == CodeMarker && Cell(row, 3) != "" {
        var employeeId := ToUpper(Trim(Cell(row, 3)));
        var employeeName := if Cell(row, 12) != "" then Trim(Cell(row, 12)) else "Employee " + employeeId;
        if employeeId !in seenEmployeeIds {
          var employee := NewEmployee(employeeId, employeeName, ToLower(employeeId) + EmailDomain,
                                      "9999999999", "General", "Employee", DefaultBaseSalary, "2023-01-01",
                                      BankAccount("0000000000", "NA", "NA000000"), "active");
          assert employee == NewEmployeeOf(row);
          IdSetSnoc(employees, employee);
          employees := employees + [employee];
          seenEmployeeIds := seenEmployeeIds + {employeeId};
        }
      }
    }
    assert data[..|data|] == data;
    ExtractMatchesReference(data);
    if |employees| == 0 {
      return Failure(NoEmployeesMessage);
    }
    result := Success(employees);
  }
}
