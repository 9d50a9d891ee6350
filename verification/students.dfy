/** The attendance ledger's data model: one record per registered card. */
module Students {
  import opened Wrappers

  /**
   * A wall-clock reading, kept as the two strings the program formats from it:
   * the date (`%Y-%m-%d`) and the time of day (`%H:%M:%S`).
   */
  datatype Stamp = Stamp(date: string, clock: string)

  /** A stamp as `strftime` renders it: a ten-character date and an eight-character time. */
  predicate ValidStamp(t: Stamp)
  {
    |t.date| == 10 && |t.clock| == 8
  }

  /**
   * A student as the ledger holds it: the roster fields, whether the student is
   * currently checked in, and the time of the last check-in (`None` until the
   * first one).
   */
  datatype Student = Student(
    name: string,
    grade: string,
    section: string,
    present: bool,
    timeIn: Option<Stamp>)

  /** The in-memory ledger: card identifier to student. */
  type Ledger = map<string, Student>

  /** Every checked-in student has a stored check-in time. */
  predicate WellFormed(ledger: Ledger)
  {
    forall id :: id in ledger && ledger[id].present ==> ledger[id].timeIn.Some?
  }

  /** The roster fields of `a` and `b` agree. */
  predicate SameRoster(a: Student, b: Student)
  {
    a.name == b.name && a.grade == b.grade && a.section == b.section
  }
}
