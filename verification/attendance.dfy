/**
 * The attendance record store's row format (main.py, `save_attendance`): one
 * seven-column row per check-in or check-out.
 */
module Attendance {
  import opened Wrappers
  import opened Students

  /** Which kind of event a row records. */
  datatype Status = In | Out

  /** The attendance file's header row. */
  const Header: seq<string> := ["Date", "ID", "Name", "Grade", "Section", "TimeIn", "TimeOut"]

  const DateColumn := 0
  const IdColumn := 1
  const NameColumn := 2
  const GradeColumn := 3
  const SectionColumn := 4
  const TimeInColumn := 5
  const TimeOutColumn := 6

  /** A row of the attendance file, before CSV quoting. */
  type Row = seq<string>

  /**
   * The row `save_attendance(id, status, timeIn)` appends when the clock reads
   * `now`. An IN row takes its time-in from `now` and leaves the time-out empty;
   * an OUT row takes its time-in from the stored check-in and its time-out from
   * `now`. An OUT row without a stored check-in cannot be formatted (the program
   * raises on `None.strftime` before writing), so no row results.
   */
  function AttendanceRow(ledger: Ledger, id: string, status: Status, timeIn: Option<Stamp>, now: Stamp): (r: Option<Row>)
    requires id in ledger
    ensures r.None? <==> status == Out && timeIn.None?
    ensures r.Some? ==> |r.value| == |Header|
    ensures r.Some? ==> && r.value[DateColumn] == now.date
                        && r.value[IdColumn] == id
                        && r.value[NameColumn] == ledger[id].name
                        && r.value[GradeColumn] == ledger[id].grade
                        && r.value[SectionColumn] == ledger[id].section
    ensures r.Some? && status == In ==> r.value[TimeInColumn] == now.clock && r.value[TimeOutColumn] == ""
    ensures r.Some? && status == Out ==> r.value[TimeInColumn] == timeIn.value.clock && r.value[TimeOutColumn] == now.clock
  {
    var s := ledger[id];
    match status
    case In => Some([now.date, id, s.name, s.grade, s.section, now.clock, ""])
    case Out =>
      if timeIn.None? then None
      else Some([now.date, id, s.name, s.grade, s.section, timeIn.value.clock, now.clock])
  }

  /** An attendance event as a reader of the attendance file sees it; an open visit has no time-out. */
  datatype Entry = Entry(
    date: string,
    id: string,
    name: string,
    grade: string,
    section: string,
    timeIn: string,
    timeOut: Option<string>)

  /** Reads one row of the attendance file back: an empty TimeOut column marks a check-in. */
  function ReadRow(row: Row): (r: Option<Entry>)
    ensures r.Some? <==> |row| == |Header|
  {
    if |row| != |Header| then None
    else Some(Entry(row[DateColumn], row[IdColumn], row[NameColumn], row[GradeColumn], row[SectionColumn],
                    row[TimeInColumn], if row[TimeOutColumn] == "" then None else Some(row[TimeOutColumn])))
  }

  /**
   * Every row written reads back as the event it records: the roster fields of
   * the ledger entry, today's date, and a time-out exactly for OUT rows.
   */
  lemma RowReadsBack(ledger: Ledger, id: string, status: Status, timeIn: Option<Stamp>, now: Stamp)
    requires id in ledger && ValidStamp(now)
    requires status == Out ==> timeIn.Some?
    ensures AttendanceRow(ledger, id, status, timeIn, now).Some?
    ensures ReadRow(AttendanceRow(ledger, id, status, timeIn, now).value) ==
              Some(Entry(now.date, id, ledger[id].name, ledger[id].grade, ledger[id].section,
                         if status == In then now.clock else timeIn.value.clock,
                         if status == In then None else Some(now.clock)))
  {
  }
}
