/**
 * The first sheet of an uploaded workbook, as the spreadsheet library hands
 * it over with `header: 1, defval: ""`: a row-major grid of string cells,
 * blank cells being "". Reading past the end of a row gives JavaScript's
 * `undefined`, which every test in the core treats like "".
 */
module Sheet {
  import opened Text

  type Row = seq<string>
  type Grid = seq<Row>

  /** `row[k]`, with a cell past the end of the row read as "". */
  function Cell(row: Row, k: nat): string {
    if k < |row| then row[k] else ""
  }

  /** `row.slice(2)`: the cells from offset 2 on (day data skips two label columns). */
  function SliceFrom2(row: Row): (r: Row)
    ensures |r| == if |row| >= 2 then |row| - 2 else 0
    ensures forall j :: 0 <= j < |r| ==> r[j] == row[j + 2]
  {
    if |row| >= 2 then row[2..] else []
  }

  /** The marker literal of a row: its first cell. */
  function Marker(row: Row): string { Cell(row, 0) }

  const CodeMarker: string := "Emp. Code:"

  /** `row[0] === "Emp. Code:" && row[3]`: an employee-code row with a non-blank code cell. */
  predicate IsCodeRow(row: Row) {
    Marker(row) == CodeMarker && Cell(row, 3) != ""
  }

  /** `cell ? String(cell).trim() : absent`. */
  function TrimmedOr(cell: string, absent: string): string {
    if cell != "" then Trim(cell) else absent
  }
}
