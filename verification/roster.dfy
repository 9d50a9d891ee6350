/**
 * Roster loading (main.py, `load_students`): the rows of the students file,
 * after its first row, folded into the ledger.
 */
module Roster {
  import opened Wrappers
  import opened Students

  /** One row of the students file as the CSV reader yields it. */
  type CsvRow = seq<string>

  /** Why loading aborted: the students file exists but has no row at all, so there is no first row to skip. */
  datatype LoadError = EmptyFile

  /** A row long enough to describe a student: ID, Name, Grade, Section. */
  predicate IsRosterRow(row: CsvRow)
  {
    |row| >= 4
  }

  /** The ledger entry a roster row creates: absent, never checked in. */
  function Enroll(row: CsvRow): (s: Student)
    requires IsRosterRow(row)
    ensures s.name == row[1] && s.grade == row[2] && s.section == row[3]
    ensures !s.present && s.timeIn.None?
  {
    Student(row[1], row[2], row[3], false, None)
  }

  /** Row `i` of `rows` is a roster row for card `id`. */
  ghost predicate RowFor(rows: seq<CsvRow>, i: int, id: string)
  {
    0 <= i < |rows| && IsRosterRow(rows[i]) && rows[i][0] == id
  }

  /** The last roster row of `rows` for card `id`, if there is one. */
  function LastRowFor(rows: seq<CsvRow>, id: string): (r: Option<CsvRow>)
    ensures r.Some? <==> exists i :: RowFor(rows, i, id)
    ensures r.Some? ==> exists i :: && RowFor(rows, i, id) && r.value == rows[i]
                                    && forall j :: i < j < |rows| ==> !RowFor(rows, j, id)
    decreases |rows|
  {
    if rows == [] then None
    else
      var init := rows[..|rows| - 1];
      var last := rows[|rows| - 1];
      if IsRosterRow(last) && last[0] == id then
        assert RowFor(rows, |rows| - 1, id);
        Some(last)
      else
        var r := LastRowFor(init, id);
        PrefixRowFor(rows, init, id);
        r
  }

  /** Roster rows of `rows` for `id` are those of its prefix, since its last row is not one. */
  lemma PrefixRowFor(rows: seq<CsvRow>, init: seq<CsvRow>, id: string)
    requires rows != [] && init == rows[..|rows| - 1] && !RowFor(rows, |rows| - 1, id)
    ensures forall i :: RowFor(rows, i, id) <==> RowFor(init, i, id)
    ensures (exists i :: RowFor(rows, i, id)) <==> (exists i :: RowFor(init, i, id))
  {
  }

  /**
   * The ledger after the loop of `load_students` has run over `rows`, starting
   * from `ledger`: short rows are skipped, fields past the fourth ignored, and a
   * later row for a card replaces an earlier one. A card is in the result exactly
   * when it was already there or some roster row names it; its entry comes from
   * the last such row, or is the old entry when no row names it.
   */
  function LoadInto(ledger: Ledger, rows: seq<CsvRow>): (r: Ledger)
    ensures forall id :: id in r <==> id in ledger || LastRowFor(rows, id).Some?
    ensures forall id :: id in r ==>
              r[id] == (if LastRowFor(rows, id).Some? then Enroll(LastRowFor(rows, id).value) else ledger[id])
    decreases |rows|
  {
    if rows == [] then ledger
    else
      var prev := LoadInto(ledger, rows[..|rows| - 1]);
      var row := rows[|rows| - 1];
      if IsRosterRow(row) then prev[row[0] := Enroll(row)] else prev
  }

  /**
   * `load_students` over the students file: a missing file leaves the ledger
   * empty, an empty file aborts, and otherwise the first row is skipped unread,
   * header or not, and the remaining rows are loaded in order.
   */
  method LoadStudents(file: Option<seq<CsvRow>>) returns (r: Result<Ledger, LoadError>)
    ensures file.None? ==> r == Success(map[])
    ensures file == Some([]) ==> r == Failure(EmptyFile)
    ensures file.Some? && file.value != [] ==> r == Success(LoadInto(map[], file.value[1..]))
  {
    if file.None? {
      return Success(map[]);
    }
    var lines := file.value;
    if lines == [] {
      return Failure(EmptyFile);
    }
    var rows := lines[1..];
    var students: Ledger := map[];
    var i := 0;
    while i < |rows|
      invariant 0 <= i <= |rows|
      invariant students == LoadInto(map[], rows[..i])
    {
      var row := rows[i];
      assert rows[..i + 1][..i] == rows[..i];
      if |row| >= 4 {
        students := students[row[0] := Enroll(row)];
      }
      i := i + 1;
    }
    assert rows[..|rows|] == rows;
    return Success(students);
  }

  /** A row with fewer than four fields loads nothing. */
  lemma ShortRowSkipped(ledger: Ledger, rows: seq<CsvRow>, row: CsvRow)
    requires !IsRosterRow(row)
    ensures LoadInto(ledger, rows + [row]) == LoadInto(ledger, rows)
  {
  }

  /** Fields past the fourth make no difference to what a row loads. */
  lemma ExtraFieldsIgnored(ledger: Ledger, rows: seq<CsvRow>, row: CsvRow)
    requires IsRosterRow(row)
    ensures LoadInto(ledger, rows + [row]) == LoadInto(ledger, rows + [row[..4]])
  {
  }

  /** A freshly loaded roster is well-formed and has every student absent and never checked in. */
  lemma LoadedRosterIsAbsent(rows: seq<CsvRow>)
    ensures WellFormed(LoadInto(map[], rows))
    ensures forall id :: id in LoadInto(map[], rows) ==>
              !LoadInto(map[], rows)[id].present && LoadInto(map[], rows)[id].timeIn.None?
  {
  }

  /** The cards of a freshly loaded roster are exactly those its roster rows name. */
  lemma LoadedRosterKeys(rows: seq<CsvRow>)
    ensures forall id :: id in LoadInto(map[], rows) <==> exists i :: RowFor(rows, i, id)
  {
  }
}
