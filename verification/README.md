# RFID attendance ledger — a Dafny model

The program reads card identifiers that an RFID reader prints over a serial
line. It keeps an in-memory ledger from card identifier to student, checks a
student in on one scan and out on the next, and appends one row per event to
an attendance file. This project models the logic of that program as pure
functions, and leaves out the serial port, the clock and the files:

- `Text` — Python's `str.strip()` (with the exact `str.isspace` character set)
  and `str.startswith`, including the tuple form.
- `TagReader` — the line filter. A stripped line is a card identifier unless it
  is empty or starts with `RFID`, `Module` or `Connection`.
- `Students` — the student record, the ledger (`map<string, Student>`), the
  ledger invariant "a checked-in student has a stored check-in time", and the
  clock reading `Stamp`. A `Stamp` holds the two strings the program formats
  from a `datetime`: the `%Y-%m-%d` date and the `%H:%M:%S` time.
- `Attendance` — the seven-column row built by `save_attendance`. It also has a
  reference reader, `ReadRow`, that parses a row back into the event it records.
  The program itself never reads the attendance file. The reader exists only so
  that `RowReadsBack` can state what a written row means.
- `Scanner` — the scan step: an unknown card, a check-in, or a check-out. The
  step takes a flag saying whether the attendance file can be opened and
  written. When it cannot, the program reports the error and moves on (main.py:138-139),
  and the presence flag has already been changed.
- `Roster` — `load_students`: the rows after the first one, folded into the
  ledger, and the loop itself as a method.
- `Session` — the polling loop as a fold over a finite sequence of incoming
  lines: filter, scan, collect rows.

Time is an input. The program reads the clock twice for each scan. The first
reading is taken when the card is handled: it is stored as the check-in time
(main.py:120). The second is taken inside `save_attendance` for the row's date
and time (main.py:52-54). `Scan` takes both, as `scanTime` and `rowTime`. As a
result, an IN row's TimeIn is the second reading, while the later OUT row's
TimeIn is the first. `Scanner.VisitTimeInAgreesWhenClocksAgree` states when the
two rows agree.

Two points about the code are easy to miss:

- A check-out clears only the presence flag. The stored time-in stays (main.py:129-131).
- The unknown-card message suggests a `reg` command (main.py:137) that this
  code does not implement.

No ordering is claimed between TimeIn and TimeOut, because the wall clock can go backwards.

## Model

| member | source | states |
|---|---|---|
| Text.Strip | main.py:114 | the stripped line neither begins nor ends with a space |
| Text.StripCutsSpaces | main.py:114 | `strip()` removes only space characters, and only from the two ends of the line |
| Text.StripIdempotent | main.py:114 | stripping an already stripped line changes nothing |
| Text.StartsWithIffConcat | main.py:115 | `s.startswith(p)` holds exactly when `s` is `p` followed by something |
| Text.StartsWithAnyIff | main.py:115 | `startswith` with a tuple holds exactly when one of the tuple's prefixes matches |
| Text.StripUnique | main.py:114 | any stretch of the line that neither begins nor ends with a space, and outside which there are only spaces, is the stripped line |
| TagReader.CardOf | main.py:114-115 | a line yields a card identifier exactly when its stripped text is non-empty and starts with none of the status prefixes. The identifier is a stretch of the line with only spaces cut from its ends, and it neither begins nor ends with a space |
| TagReader.IsCardScanIff | main.py:115 | a stripped line counts as a scan exactly when it is non-empty and starts with none of "RFID", "Module", "Connection" |
| TagReader.StatusLinesAreNotScans | main.py:115 | any line that begins with a status prefix is rejected, whatever follows |
| TagReader.HexIdentifiersAreScans | main.py:115 | a non-empty upper-case hexadecimal identifier always passes, even one starting with 'C' |
| Attendance.AttendanceRow | main.py:51-88 | a row has the header's 7 columns, today's date, and the ID, name, grade and section from the ledger. An IN row has the current time as TimeIn and an empty TimeOut. An OUT row has the stored time-in as TimeIn and the current time as TimeOut. An OUT row with no stored time-in writes nothing |
| Attendance.RowReadsBack | main.py:65-88 | every written row reads back as the event it records, with a time-out exactly for OUT rows |
| Scanner.Scan | main.py:118-139 | an unknown ID leaves the ledger unchanged and writes no row. An absent student becomes present with the scan time stored, and gets an IN row if the file can be written. A present student becomes absent with the stored time-in kept, and gets an OUT row carrying it if the file can be written. No other key, and no roster field, changes |
| Scanner.ScanTogglesPresence | main.py:119-131 | a scan of a known card flips its presence flag and keeps name, grade and section |
| Scanner.ScanPreservesWellFormed | main.py:119-131 | after a scan, every checked-in student still has a stored check-in time |
| Scanner.KnownScanWritesRow | main.py:118-131 | over a well-formed ledger, a scan writes a row exactly when the card is known and the file can be written. An OUT row's TimeIn is the stored check-in time |
| Scanner.FailedAppendStillToggles | main.py:119-139 | when the attendance file cannot be written, a known card's presence flag still flips, but no row is written |
| Scanner.CheckOutWithoutTimeInWritesNothing | main.py:127-131 | a present student with no stored time-in is still marked absent, but no OUT row can be formatted |
| Scanner.InThenOut | main.py:119-131 | with the file writable, two scans of an absent student give an IN row and then an OUT row whose TimeIn is the first scan's time. The student ends absent, with that time still stored |
| Scanner.VisitTimeInAgreesWhenClocksAgree | main.py:52-54 | the IN and OUT rows of one visit have the same TimeIn exactly when the two clock readings of the check-in agree |
| Scanner.ScanTwiceRestoresPresence | main.py:119-131 | two scans of the same known card restore its presence flag |
| Roster.Enroll | main.py:39-46 | a roster row gives a student with its name, grade and section, absent and never checked in |
| Roster.LastRowFor | main.py:37-40 | the entry for a card comes from the last row of four or more fields that names it, if there is one |
| Roster.LoadInto | main.py:37-46 | a card is loaded exactly when it was already there or some row of four or more fields names it. Its entry comes from the last such row, and short rows and fields past the fourth do not matter |
| Roster.LoadStudents | main.py:32-46 | a missing file gives an empty ledger. An empty file aborts. Otherwise the first row is skipped unread, header or not, and the remaining rows are loaded in order |
| Roster.ShortRowSkipped | main.py:38 | a row with fewer than four fields loads nothing |
| Roster.ExtraFieldsIgnored | main.py:39 | fields past the fourth make no difference |
| Roster.LoadedRosterIsAbsent | main.py:44-45 | a freshly loaded roster is well-formed, with every student absent and never checked in |
| Roster.LoadedRosterKeys | main.py:37-40 | a freshly loaded roster holds exactly the cards its rows of four or more fields name |
| Session.Handle | main.py:115-139 | a dropped line changes nothing and appends nothing. A line never adds or removes a card. Over a well-formed ledger, a row is appended exactly when the line names a known card and the file can be written |
| Session.HandlePresence | main.py:119-131 | one line flips a card's presence flag exactly when it scans that card, never changes its roster fields, and leaves the entry untouched when it scans another card |
| Session.Replay | main.py:111-137 | the loop never adds or removes a card and appends at most one row per line |
| Session.Run | main.py:111-137 | the same for raw serial lines passed through the filter |
| Session.ReplayKeepsRoster | main.py:118-131 | the loop never changes a student's name, grade or section |
| Session.ReplayPreservesWellFormed | main.py:119-131 | the loop keeps every checked-in student's check-in time stored |
| Session.PresenceParity | main.py:119-131 | after the loop, a student is present exactly when their starting flag differs from the parity of the number of times their card was scanned |
| Session.RowPerRecordedScan | main.py:118-139 | over a well-formed ledger, the loop appends exactly one row per scan of a known card made while the file can be written |
| Session.UnknownScansChangeNothing | main.py:118-137 | a run with no scan of a known card changes nothing and appends nothing |
| Session.StatusLinesChangeNothing | main.py:114-115 | a run over status and blank lines alone changes nothing and appends nothing |

## Left out

- Serial port handling: opening the port, `in_waiting` polling, `readline`, the start-up delay and the endless loop (main.py:100-114). The loop is modelled over a finite sequence of lines.
- UTF-8 decoding of serial input (main.py:114). Lines arrive already decoded, and a decode failure, which only skips the line, is not modelled.
- `beep()` (main.py:10-19). It is platform sound output.
- File handling: the existence checks, creating the students file and the attendance file with their headers, CSV parsing and quoting, and appends (main.py:33-36, 56-63, 93-96). Files are sequences of rows of strings, and a missing students file is `None`.
- `datetime.now()` and `strftime` (main.py:52-54, 120, 128). Clock readings are supplied as `Stamp` values. The clock read at main.py:128 is used only for the console message, so it is dropped.
- Console output (main.py:47, 102, 108-109, 124-126, 132-137) and the kinds of exception (main.py:104-106, 138-139). Two failures inside `save_attendance` change behaviour, and both are modelled as "presence flag already changed, no row". The first is an `OSError` from opening or writing the attendance file, which is the `appendOk` flag. The second is an OUT row with no stored time-in; no scan can produce that state. A failure part-way through writing a row, which would leave a partial line, is not modelled.
