/**
 * The stored documents the handlers read and write (backend/src/models): only
 * the fields the modelled code reads or writes. Mongo's `_id` is a `nat`.
 */
module Models {
  import opened Attendance

  /** An employee as `Employee.findOne` and `populate("employee")` return it. */
  datatype Employee = Employee(id: nat, employeeId: string, name: string, baseSalary: real)

  /** The fields `/upload-excel` writes into an attendance document. */
  datatype AttendanceDoc = AttendanceDoc(employeeId: string, employee: nat, monthYear: string,
                                         daysPresent: nat, daysLeave: nat, halfDays: nat, totalDays: nat,
                                         dailyRecords: seq<DailyRecord>)

  /** The fields `/calculate` writes into a salary document; the three money figures are rounded. */
  datatype SalaryDoc = SalaryDoc(employeeId: string, employee: nat, monthYear: string, baseSalary: real,
                                 daysPresent: nat, daysLeave: nat, halfDays: nat,
                                 perDaySalary: int, deductions: int, netSalary: int)
}
