/**
 * The attendance ledger's scan step (main.py, `main`): what one accepted card
 * identifier does to the ledger and which attendance row it produces.
 */
module Scanner {
  import opened Wrappers
  import opened Students
  import opened Attendance

  /** What a scan did: reported an unknown card, checked a student in, or checked one out. */
  datatype Action = UnknownCard | CheckedIn | CheckedOut

  /** The ledger after a scan, what the scan did, and the row it appended, if any. */
  datatype ScanResult = ScanResult(ledger: Ledger, action: Action, row: Option<Row>)

  /**
   * Handles the scanned identifier `id`. The program reads the clock twice per
   * scan: `scanTime` is the reading taken when the card is handled (stored as the
   * check-in time), `rowTime` the one `save_attendance` takes for the row.
   * `appendOk` says whether the attendance file could be opened and written;
   * when it could not, the error is reported and skipped, after the flag has
   * already been changed.
   *
   * An unknown identifier is only reported. An absent student is checked in: the
   * flag is set and `scanTime` stored. A present student is checked out: the flag
   * is cleared, the stored check-in time is kept as it was and handed to the row.
   */
  function Scan(ledger: Ledger, id: string, scanTime: Stamp, rowTime: Stamp, appendOk: bool): (r: ScanResult)
    ensures id !in ledger ==> r == ScanResult(ledger, UnknownCard, None)
    ensures r.ledger.Keys == ledger.Keys
    ensures forall k :: k in ledger && k != id ==> r.ledger[k] == ledger[k]
    ensures !appendOk ==> r.row.None?
    ensures id in ledger && !ledger[id].present ==>
              && r.action == CheckedIn
              && r.ledger[id] == ledger[id].(present := true, timeIn := Some(scanTime))
              && (appendOk ==> r.row == AttendanceRow(r.ledger, id, In, None, rowTime))
    ensures id in ledger && ledger[id].present ==>
              && r.action == CheckedOut
              && r.ledger[id] == ledger[id].(present := false)
              && (appendOk ==> r.row == AttendanceRow(r.ledger, id, Out, ledger[id].timeIn, rowTime))
  {
    if id !in ledger then
      ScanResult(ledger, UnknownCard, None)
    else if !ledger[id].present then
      var after := ledger[id := ledger[id].(present := true, timeIn := Some(scanTime))];
      ScanResult(after, CheckedIn, if appendOk then AttendanceRow(after, id, In, None, rowTime) else None)
    else
      var timeIn := ledger[id].timeIn;
      var after := ledger[id := ledger[id].(present := false)];
      ScanResult(after, CheckedOut, if appendOk then AttendanceRow(after, id, Out, timeIn, rowTime) else None)
  }

  /** A scan of a known card flips its presence flag and leaves the roster fields alone. */
  lemma ScanTogglesPresence(ledger: Ledger, id: string, scanTime: Stamp, rowTime: Stamp, appendOk: bool)
    requires id in ledger
    ensures var after := Scan(ledger, id, scanTime, rowTime, appendOk).ledger;
            && after[id].present == !ledger[id].present
            && SameRoster(after[id], ledger[id])
  {
  }

  /** Scanning keeps every checked-in student's check-in time stored. */
  lemma ScanPreservesWellFormed(ledger: Ledger, id: string, scanTime: Stamp, rowTime: Stamp, appendOk: bool)
    requires WellFormed(ledger)
    ensures WellFormed(Scan(ledger, id, scanTime, rowTime, appendOk).ledger)
  {
  }

  /**
   * Over a well-formed ledger, a scan writes a row exactly when the card is
   * known and the file can be written, and an OUT row carries the check-in time
   * stored by the matching IN.
   */
  lemma KnownScanWritesRow(ledger: Ledger, id: string, scanTime: Stamp, rowTime: Stamp, appendOk: bool)
    requires WellFormed(ledger)
    ensures Scan(ledger, id, scanTime, rowTime, appendOk).row.Some? <==> id in ledger && appendOk
    ensures id in ledger && ledger[id].present && appendOk ==>
              Scan(ledger, id, scanTime, rowTime, appendOk).row.value[TimeInColumn] == ledger[id].timeIn.value.clock
  {
  }

  /**
   * When the attendance file cannot be written, the scan still checks the
   * student in or out, but no row records it.
   */
  lemma FailedAppendStillToggles(ledger: Ledger, id: string, scanTime: Stamp, rowTime: Stamp)
    requires id in ledger
    ensures var r := Scan(ledger, id, scanTime, rowTime, false);
            r.row.None? && r.ledger[id].present == !ledger[id].present
  {
  }

  /**
   * A checked-in student whose check-in time is missing (a state no scan
   * produces) is still marked absent, but no OUT row can be written.
   */
  lemma CheckOutWithoutTimeInWritesNothing(ledger: Ledger, id: string, scanTime: Stamp, rowTime: Stamp, appendOk: bool)
    requires id in ledger && ledger[id].present && ledger[id].timeIn.None?
    ensures var r := Scan(ledger, id, scanTime, rowTime, appendOk);
            r.action == CheckedOut && !r.ledger[id].present && r.row.None?
  {
  }

  /**
   * Two scans of an absent student, with the file writable, check in and then
   * out: the first row is an open IN row, the second an OUT row whose time-in is
   * the first scan's time, and the student ends absent with that time still
   * stored.
   */
  lemma InThenOut(ledger: Ledger, id: string, t1: Stamp, w1: Stamp, t2: Stamp, w2: Stamp)
    requires id in ledger && !ledger[id].present
    ensures var first := Scan(ledger, id, t1, w1, true);
            var second := Scan(first.ledger, id, t2, w2, true);
            var s := ledger[id];
            && first.action == CheckedIn
            && first.row == Some([w1.date, id, s.name, s.grade, s.section, w1.clock, ""])
            && second.action == CheckedOut
            && second.row == Some([w2.date, id, s.name, s.grade, s.section, t1.clock, w2.clock])
            && second.ledger == ledger[id := s.(timeIn := Some(t1))]
  {
  }

  /**
   * The IN row's time-in is the second clock reading, the later OUT row's the
   * first: the two rows of one visit agree on the time-in when both readings do.
   */
  lemma VisitTimeInAgreesWhenClocksAgree(ledger: Ledger, id: string, t1: Stamp, w1: Stamp, t2: Stamp, w2: Stamp)
    requires id in ledger && !ledger[id].present
    ensures var first := Scan(ledger, id, t1, w1, true);
            var second := Scan(first.ledger, id, t2, w2, true);
            first.row.value[TimeInColumn] == second.row.value[TimeInColumn] <==> w1.clock == t1.clock
  {
  }

  /** Two scans of the same known card restore its presence flag; the ledger's keys never change. */
  lemma ScanTwiceRestoresPresence(ledger: Ledger, id: string, t1: Stamp, w1: Stamp, ok1: bool, t2: Stamp, w2: Stamp, ok2: bool)
    requires id in ledger
    ensures var after := Scan(Scan(ledger, id, t1, w1, ok1).ledger, id, t2, w2, ok2).ledger;
            after.Keys == ledger.Keys && after[id].present == ledger[id].present
  {
  }
}
