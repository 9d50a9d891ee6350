/**
 * The program's polling loop (main.py, `main`) with the serial port, the clock
 * and the files taken out: every incoming line goes through the line filter,
 * every accepted card identifier through the scan step, and the rows appended
 * to the attendance file are collected.
 */
module Session {
  import opened Wrappers
  import opened TagReader
  import opened Students
  import opened Attendance
  import opened Scanner

  /**
   * One decoded line from the serial port, with what its handling meets in the
   * environment: the clock readings at the scan and inside `save_attendance`,
   * and whether the attendance file can be written.
   */
  datatype Reading = Reading(line: string, scanTime: Stamp, rowTime: Stamp, appendOk: bool)

  /** A line once filtered: the card identifier it carries, if any, and its environment. */
  datatype Tick = Tick(card: Option<string>, scanTime: Stamp, rowTime: Stamp, appendOk: bool)

  /** The ledger after a run and the attendance rows appended during it, oldest first. */
  datatype Outcome = Outcome(ledger: Ledger, rows: seq<Row>)

  /** Passes every line through the line filter, keeping the order and the clock readings. */
  function Filter(readings: seq<Reading>): seq<Tick>
  {
    seq(|readings|, i requires 0 <= i < |readings| =>
      Tick(CardOf(readings[i].line), readings[i].scanTime, readings[i].rowTime, readings[i].appendOk))
  }

  /** The rows an optional row contributes to the attendance file. */
  function Appended(row: Option<Row>): seq<Row>
  {
    if row.Some? then [row.value] else []
  }

  /**
   * Handles one filtered line, giving the ledger after it and the row it
   * appends: a dropped line does nothing, a card identifier is scanned. The
   * set of cards never changes, and over a well-formed ledger a row is appended
   * exactly for a known card while the attendance file can be written.
   */
  function Handle(ledger: Ledger, tick: Tick): (r: (Ledger, Option<Row>))
    ensures tick.card.None? ==> r == (ledger, None)
    ensures r.0.Keys == ledger.Keys
    ensures r.1.Some? ==> tick.card.Some? && tick.card.value in ledger && tick.appendOk
    ensures WellFormed(ledger) && tick.card.Some? && tick.card.value in ledger && tick.appendOk ==> r.1.Some?
  {
    match tick.card
    case None => (ledger, None)
    case Some(id) =>
      var scan := Scan(ledger, id, tick.scanTime, tick.rowTime, tick.appendOk);
      (scan.ledger, scan.row)
  }

  /**
   * The loop over filtered lines, from `ledger`. It never adds or removes a
   * card and appends at most one row per line.
   */
  function Replay(ledger: Ledger, ticks: seq<Tick>): (r: Outcome)
    ensures r.ledger.Keys == ledger.Keys
    ensures |r.rows| <= |ticks|
    decreases |ticks|
  {
    if ticks == [] then Outcome(ledger, [])
    else
      var prev := Replay(ledger, ticks[..|ticks| - 1]);
      var (after, row) := Handle(prev.ledger, ticks[|ticks| - 1]);
      Outcome(after, prev.rows + Appended(row))
  }

  /** The loop over raw serial lines. */
  function Run(ledger: Ledger, readings: seq<Reading>): (r: Outcome)
    ensures r.ledger.Keys == ledger.Keys
    ensures |r.rows| <= |readings|
  {
    Replay(ledger, Filter(readings))
  }

  /** How many of `ticks` are scans of card `id`. */
  function ScansOf(ticks: seq<Tick>, id: string): nat
    decreases |ticks|
  {
    if ticks == [] then 0
    else ScansOf(ticks[..|ticks| - 1], id) + (if ticks[|ticks| - 1].card == Some(id) then 1 else 0)
  }

  /** How many of `ticks` are scans of a card in `known`. */
  function KnownScans(known: set<string>, ticks: seq<Tick>): nat
    decreases |ticks|
  {
    if ticks == [] then 0
    else
      var card := ticks[|ticks| - 1].card;
      KnownScans(known, ticks[..|ticks| - 1]) + (if card.Some? && card.value in known then 1 else 0)
  }

  /** How many of `ticks` are scans of a card in `known` whose row could be written. */
  function RecordedScans(known: set<string>, ticks: seq<Tick>): nat
    decreases |ticks|
  {
    if ticks == [] then 0
    else
      var last := ticks[|ticks| - 1];
      RecordedScans(known, ticks[..|ticks| - 1])
      + (if last.card.Some? && last.card.value in known && last.appendOk then 1 else 0)
  }

  /** The ledger after a replay is the ledger after its last line, handled after all the others. */
  lemma ReplayUnfold(ledger: Ledger, ticks: seq<Tick>)
    requires ticks != []
    ensures Replay(ledger, ticks).ledger == Handle(Replay(ledger, ticks[..|ticks| - 1]).ledger, ticks[|ticks| - 1]).0
  {
  }

  /**
   * One line toggles a card's presence flag exactly when it is a scan of that
   * card, never changes its roster fields, and leaves every other card alone.
   */
  lemma HandlePresence(ledger: Ledger, tick: Tick, id: string)
    requires id in ledger
    ensures id in Handle(ledger, tick).0
    ensures Handle(ledger, tick).0[id].present == (ledger[id].present != (tick.card == Some(id)))
    ensures SameRoster(Handle(ledger, tick).0[id], ledger[id])
    ensures tick.card != Some(id) ==> Handle(ledger, tick).0[id] == ledger[id]
  {
  }

  /** A run never changes a student's roster fields. */
  lemma {:induction false} ReplayKeepsRoster(ledger: Ledger, ticks: seq<Tick>, id: string)
    requires id in ledger
    ensures SameRoster(Replay(ledger, ticks).ledger[id], ledger[id])
    decreases |ticks|
  {
    if ticks != [] {
      ReplayKeepsRoster(ledger, ticks[..|ticks| - 1], id);
      ReplayUnfold(ledger, ticks);
    }
  }

  /** A run keeps the ledger well-formed: every checked-in student keeps a stored check-in time. */
  lemma {:induction false} ReplayPreservesWellFormed(ledger: Ledger, ticks: seq<Tick>)
    requires WellFormed(ledger)
    ensures WellFormed(Replay(ledger, ticks).ledger)
    decreases |ticks|
  {
    if ticks != [] {
      var init := ticks[..|ticks| - 1];
      var last := ticks[|ticks| - 1];
      ReplayPreservesWellFormed(ledger, init);
      ReplayUnfold(ledger, ticks);
      match last.card
      case None =>
      case Some(card) =>
        ScanPreservesWellFormed(Replay(ledger, init).ledger, card, last.scanTime, last.rowTime, last.appendOk);
    }
  }

  /** `n` is odd. */
  predicate Odd(n: nat)
  {
    n % 2 == 1
  }

  /**
   * After a run, a student is present exactly when they started present and
   * were scanned an even number of times, or started absent and were scanned
   * an odd number of times.
   */
  lemma {:induction false} PresenceParity(ledger: Ledger, ticks: seq<Tick>, id: string)
    requires id in ledger
    ensures Replay(ledger, ticks).ledger[id].present == (ledger[id].present != Odd(ScansOf(ticks, id)))
    decreases |ticks|
  {
    if ticks != [] {
      var init := ticks[..|ticks| - 1];
      var last := ticks[|ticks| - 1];
      PresenceParity(ledger, init, id);
      ReplayUnfold(ledger, ticks);
      HandlePresence(Replay(ledger, init).ledger, last, id);
    }
  }

  /**
   * Over a well-formed ledger, every scan of a known card appends exactly one
   * row when the file can be written, and none when it cannot.
   */
  lemma {:induction false} RowPerRecordedScan(ledger: Ledger, ticks: seq<Tick>)
    requires WellFormed(ledger)
    ensures |Replay(ledger, ticks).rows| == RecordedScans(ledger.Keys, ticks)
    decreases |ticks|
  {
    if ticks != [] {
      var init := ticks[..|ticks| - 1];
      var last := ticks[|ticks| - 1];
      RowPerRecordedScan(ledger, init);
      ReplayPreservesWellFormed(ledger, init);
      match last.card
      case None =>
      case Some(id) =>
        KnownScanWritesRow(Replay(ledger, init).ledger, id, last.scanTime, last.rowTime, last.appendOk);
    }
  }

  /** A run in which no known card is scanned changes nothing and appends nothing. */
  lemma {:induction false} UnknownScansChangeNothing(ledger: Ledger, ticks: seq<Tick>)
    requires KnownScans(ledger.Keys, ticks) == 0
    ensures Replay(ledger, ticks) == Outcome(ledger, [])
    decreases |ticks|
  {
    if ticks != [] {
      UnknownScansChangeNothing(ledger, ticks[..|ticks| - 1]);
    }
  }

  /**
   * Status lines and blank lines never reach the ledger: a run over them alone
   * changes nothing and appends nothing.
   */
  lemma StatusLinesChangeNothing(ledger: Ledger, readings: seq<Reading>)
    requires forall i :: 0 <= i < |readings| ==> CardOf(readings[i].line).None?
    ensures Run(ledger, readings) == Outcome(ledger, [])
  {
    var ticks := Filter(readings);
    NoCardsNoKnownScans(ledger.Keys, ticks);
    UnknownScansChangeNothing(ledger, ticks);
  }

  /** Lines that carry no card identifier count as no scan at all. */
  lemma {:induction false} NoCardsNoKnownScans(known: set<string>, ticks: seq<Tick>)
    requires forall i :: 0 <= i < |ticks| ==> ticks[i].card.None?
    ensures KnownScans(known, ticks) == 0
    decreases |ticks|
  {
    if ticks != [] {
      NoCardsNoKnownScans(known, ticks[..|ticks| - 1]);
    }
  }
}
