/** `ESP32DataLogger` of tomardatos.py: a line-driven recorder that opens a CSV file when the
    device announces a session, writes the header and the seven-field data lines into it and
    closes it when the session ends. Files are sequences of rows; a file handle that the
    logger lets go of, closed or not, is kept in `files`. */
module CsvLog {
  import opened Wrappers
  import Text
  import Device

  /** One file the logger opened, with the rows written through it. */
  datatype CsvFile = CsvFile(name: string, rows: seq<seq<string>>, isOpen: bool)

  /** The logger's fields. `csvFile` is the open handle (`csv_file` and its `csv_writer`,
      which are always set and cleared together); `files` holds the handles released so far. */
  datatype Logger = Logger(loggingActive: bool, sessionNumber: int, csvFile: Option<CsvFile>,
                           files: seq<CsvFile>)

  /** One line read from the port: `None` when its bytes are not valid UTF-8. `stamp` is the
      wall-clock `%Y%m%d_%H%M%S` text at that moment and `canOpen` whether opening a file for
      writing would succeed then. */
  datatype Received = Received(line: Option<string>, stamp: string, canOpen: bool)

  function Init(): Logger
  {
    Logger(false, 1, None, [])
  }

  function FileName(sessionNumber: int, stamp: string): string
  {
    "dataset_emg_session_" + Text.IntToString(sessionNumber) + "_" + stamp + ".csv"
  }

  // ---------------------------------------------------------------------------
  // Invariant
  // ---------------------------------------------------------------------------

  /** Number of released files that were closed. */
  function ClosedCount(files: seq<CsvFile>): nat
    decreases |files|
  {
    if |files| == 0 then 0
    else ClosedCount(files[..|files| - 1]) + (if files[|files| - 1].isOpen then 0 else 1)
  }

  /** A row the logger writes: a data line of seven fields or a header line. */
  predicate WellFormedRow(row: seq<string>)
  {
    |row| == 7 || (|row| > 0 && row[0] == "timestamp")
  }

  predicate WellFormedFile(f: CsvFile)
  {
    forall k :: 0 <= k < |f.rows| ==> WellFormedRow(f.rows[k])
  }

  /** What the line dispatch keeps: the session number counts the sessions closed at their
      end marker, a handle is held exactly while logging and it is open, and every row
      written is a header or has seven fields. */
  predicate Valid(l: Logger)
  {
    && l.sessionNumber == 1 + ClosedCount(l.files)
    && (l.csvFile.Some? <==> l.loggingActive)
    && (l.csvFile.Some? ==> l.csvFile.value.isOpen && WellFormedFile(l.csvFile.value))
    && (forall k :: 0 <= k < |l.files| ==> WellFormedFile(l.files[k]))
  }

  lemma InitValid()
    ensures Valid(Init()) && Init().sessionNumber == 1 && !Init().loggingActive
  {
  }

  // ---------------------------------------------------------------------------
  // File operations
  // ---------------------------------------------------------------------------

  /** The handle list after `csvFile` is let go of. */
  function Released(l: Logger, f: CsvFile): seq<CsvFile>
  {
    l.files + [f]
  }

  /** `create_csv_file`: on success a new empty open file, named after the current session
      number, becomes the handle; a handle already held is dropped without being closed. On
      failure nothing changes. */
  function CreateCsvFile(l: Logger, stamp: string, canOpen: bool): (r: (Logger, Option<string>))
    ensures r.1.Some? <==> canOpen
    ensures canOpen ==> r.1 == Some(FileName(l.sessionNumber, stamp))
                        && r.0.csvFile == Some(CsvFile(FileName(l.sessionNumber, stamp), [], true))
                        && r.0.files == l.files + (if l.csvFile.Some? then [l.csvFile.value] else [])
                        && r.0.loggingActive == l.loggingActive && r.0.sessionNumber == l.sessionNumber
    ensures !canOpen ==> r.0 == l
  {
    if canOpen then
      var name := FileName(l.sessionNumber, stamp);
      var kept := if l.csvFile.Some? then Released(l, l.csvFile.value) else l.files;
      (l.(csvFile := Some(CsvFile(name, [], true)), files := kept), Some(name))
    else (l, None)
  }

  /** `close_csv_file`: the held handle, if any, is closed and let go of. */
  function CloseCsvFile(l: Logger): (r: Logger)
    ensures r.csvFile.None?
    ensures l.csvFile.Some? ==> r.files == l.files + [l.csvFile.value.(isOpen := false)]
    ensures l.csvFile.None? ==> r == l
    ensures r.loggingActive == l.loggingActive && r.sessionNumber == l.sessionNumber
  {
    if l.csvFile.Some? then l.(csvFile := None, files := Released(l, l.csvFile.value.(isOpen := false)))
    else l
  }

  /** `writerow` on the held handle. */
  function WriteRow(l: Logger, row: seq<string>): Logger
    requires l.csvFile.Some?
  {
    var f := l.csvFile.value;
    l.(csvFile := Some(f.(rows := f.rows + [row])))
  }

  /** `process_data_line`: a line of exactly seven fields is written as one row; with no
      handle the write raises and is reported as a failure. */
  function ProcessDataLine(l: Logger, line: string): (r: (Logger, bool))
  {
    var parts := Text.Split(line, ',');
    if |parts| == 7 && l.csvFile.Some? then (WriteRow(l, parts), true) else (l, false)
  }

  lemma ProcessDataLineWrites(l: Logger, line: string)
    ensures var (r, ok) := ProcessDataLine(l, line);
            && (ok <==> |Text.Split(line, ',')| == 7 && l.csvFile.Some?)
            && (ok ==> r.csvFile == Some(l.csvFile.value.(rows := l.csvFile.value.rows + [Text.Split(line, ',')])))
            && (ok ==> Text.Join(r.csvFile.value.rows[|r.csvFile.value.rows| - 1], ',') == line)
            && r.files == l.files && r.loggingActive == l.loggingActive && r.sessionNumber == l.sessionNumber
            && (!ok ==> r == l)
  {
    Text.JoinOfSplit(line, ',');
  }

  // ---------------------------------------------------------------------------
  // Line dispatch
  // ---------------------------------------------------------------------------

  /** The body of the reading loop for one stripped line, in the source's order of checks:
      start marker, end marker, header, data while logging; anything else is only shown. */
  function HandleLine(l: Logger, line: string, stamp: string, canOpen: bool): Logger
  {
    if |line| == 0 then l
    else if Text.Contains(line, Device.SessionStart) then
      var (c, name) := CreateCsvFile(l, stamp, canOpen);
      if name.Some? then c.(loggingActive := true) else c
    else if Text.Contains(line, Device.SessionEnd) then
      if l.loggingActive then CloseCsvFile(l).(sessionNumber := l.sessionNumber + 1, loggingActive := false)
      else l
    else if Text.StartsWith(line, Device.HeaderPrefix) then
      if l.loggingActive && l.csvFile.Some? then WriteRow(l, Text.Split(line, ',')) else l
    else if l.loggingActive && ',' in line then ProcessDataLine(l, line).0
    else l
  }

  /** One line from the port: undecodable bytes are skipped, the rest is stripped first. */
  function Step(l: Logger, rcv: Received): Logger
  {
    if rcv.line.None? then l else HandleLine(l, Text.Strip(rcv.line.value), rcv.stamp, rcv.canOpen)
  }

  function Run(l: Logger, rs: seq<Received>): Logger
    decreases |rs|
  {
    if |rs| == 0 then l else Step(Run(l, rs[..|rs| - 1]), rs[|rs| - 1])
  }

  /** The `finally` block: an active file is closed; `logging_active` is left as it is. */
  function Finish(l: Logger): Logger
  {
    if l.loggingActive then CloseCsvFile(l) else l
  }

  /** `listen_and_log`: nothing happens if the port does not open; otherwise the lines that
      arrive before the user interrupts are handled in order, then the `finally` block runs. */
  function ListenAndLog(l: Logger, connected: bool, rs: seq<Received>): Logger
  {
    if connected then Finish(Run(l, rs)) else l
  }

  // ---------------------------------------------------------------------------
  // Properties
  // ---------------------------------------------------------------------------

  lemma ClosedCountAppend(files: seq<CsvFile>, f: CsvFile)
    ensures ClosedCount(files + [f]) == ClosedCount(files) + (if f.isOpen then 0 else 1)
  {
    assert (files + [f])[..|files|] == files;
  }

  /** A header line splits into fields of which the first is `timestamp`. */
  lemma HeaderRowIsWellFormed(line: string)
    requires Text.StartsWith(line, Device.HeaderPrefix)
    ensures WellFormedRow(Text.Split(line, ','))
  {
    var a := "timestamp";
    var rest := line[|a|..];
    assert Device.HeaderPrefix[..|a|] == a;
    assert line[..|a|] == a;
    assert line == a + rest;
    assert ',' !in a by {
      forall j | 0 <= j < |a| ensures a[j] != ',' {
      }
    }
    Text.SplitPrefix(a, rest, ',');
    assert rest[0] == Device.HeaderPrefix[|a|] == ',';
    assert Text.Split(rest, ',')[0] == "";
    assert a + "" == a;
  }

  /** Every line keeps the invariant. */
  lemma HandleKeepsValid(l: Logger, line: string, stamp: string, canOpen: bool)
    requires Valid(l)
    ensures Valid(HandleLine(l, line, stamp, canOpen))
  {
    if |line| == 0 {
    } else if Text.Contains(line, Device.SessionStart) {
      if canOpen && l.csvFile.Some? {
        ClosedCountAppend(l.files, l.csvFile.value);
      }
    } else if Text.Contains(line, Device.SessionEnd) {
      if l.loggingActive {
        ClosedCountAppend(l.files, l.csvFile.value.(isOpen := false));
      }
    } else if Text.StartsWith(line, Device.HeaderPrefix) {
      if l.loggingActive && l.csvFile.Some? {
        HeaderRowIsWellFormed(line);
      }
    }
  }

  lemma {:induction false} RunKeepsValid(l: Logger, rs: seq<Received>)
    requires Valid(l)
    ensures Valid(Run(l, rs))
    decreases |rs|
  {
    if |rs| > 0 {
      var q := Run(l, rs[..|rs| - 1]);
      RunKeepsValid(l, rs[..|rs| - 1]);
      var rcv := rs[|rs| - 1];
      if rcv.line.Some? {
        HandleKeepsValid(q, Text.Strip(rcv.line.value), rcv.stamp, rcv.canOpen);
      }
    }
  }

  /** A start marker opens a new file named after the current session number and starts
      logging, or changes nothing when the file cannot be opened. */
  lemma StartOpensFile(l: Logger, line: string, stamp: string, canOpen: bool)
    requires Text.Contains(line, Device.SessionStart)
    ensures var r := HandleLine(l, line, stamp, canOpen);
            && (canOpen ==> r.loggingActive && r.sessionNumber == l.sessionNumber
                            && r.csvFile == Some(CsvFile(FileName(l.sessionNumber, stamp), [], true)))
            && (!canOpen ==> r == l)
  {
  }

  /** A start marker while a session is being logged drops the file being written without
      closing it. */
  lemma RestartLeaksOpenFile(l: Logger, line: string, stamp: string)
    requires Valid(l) && l.loggingActive
    requires Text.Contains(line, Device.SessionStart)
    ensures var r := HandleLine(l, line, stamp, true);
            && r.files == l.files + [l.csvFile.value]
            && r.files[|r.files| - 1].isOpen
            && r.sessionNumber == l.sessionNumber
  {
  }

  /** An end marker closes the session being logged and moves to the next session number;
      with no session being logged it changes nothing. */
  lemma EndClosesSession(l: Logger, line: string, stamp: string, canOpen: bool)
    requires Valid(l)
    requires |line| > 0 && !Text.Contains(line, Device.SessionStart) && Text.Contains(line, Device.SessionEnd)
    ensures var r := HandleLine(l, line, stamp, canOpen);
            && (l.loggingActive ==> && !r.loggingActive && r.csvFile.None?
                                    && r.sessionNumber == l.sessionNumber + 1
                                    && r.files == l.files + [l.csvFile.value.(isOpen := false)])
            && (!l.loggingActive ==> r == l)
  {
  }

  /** The header line is written to the file only while logging. */
  lemma HeaderWrittenWhileLogging(l: Logger, line: string, stamp: string, canOpen: bool)
    requires Valid(l)
    requires !Text.Contains(line, Device.SessionStart) && !Text.Contains(line, Device.SessionEnd)
    requires Text.StartsWith(line, Device.HeaderPrefix)
    ensures var r := HandleLine(l, line, stamp, canOpen);
            && (l.loggingActive ==> r.csvFile == Some(l.csvFile.value.(rows := l.csvFile.value.rows + [Text.Split(line, ',')])))
            && (!l.loggingActive ==> r == l)
            && r.files == l.files
  {
  }

  /** While logging, any other line holding a comma goes to `process_data_line`. */
  lemma DataLineWhileLogging(l: Logger, line: string, stamp: string, canOpen: bool)
    requires l.loggingActive && ',' in line
    requires !Text.Contains(line, Device.SessionStart) && !Text.Contains(line, Device.SessionEnd)
    requires !Text.StartsWith(line, Device.HeaderPrefix)
    ensures HandleLine(l, line, stamp, canOpen) == ProcessDataLine(l, line).0
  {
  }

  /** While not logging no row is written: the released files stay as they are and a handle
      opened by a start marker is still empty. */
  lemma InactiveWritesNoData(l: Logger, line: string, stamp: string, canOpen: bool)
    requires Valid(l) && !l.loggingActive
    ensures var r := HandleLine(l, line, stamp, canOpen);
            && r.files == l.files
            && (r.csvFile.None? || r.csvFile.value.rows == [])
  {
  }

  /** The session number never decreases, and it grows only at an end marker that closes a
      session. */
  lemma SessionNumberGrowsAtEnd(l: Logger, line: string, stamp: string, canOpen: bool)
    ensures var r := HandleLine(l, line, stamp, canOpen);
            && (r.sessionNumber == l.sessionNumber || r.sessionNumber == l.sessionNumber + 1)
            && (r.sessionNumber != l.sessionNumber ==>
                  l.loggingActive && Text.Contains(line, Device.SessionEnd) && !r.loggingActive)
  {
  }

  /** On exit nothing is left open by the logger's own handle: a session still being logged
      has its file closed, without moving to the next session number. A port that does not
      open changes nothing. */
  lemma ExitClosesActiveFile(l: Logger, connected: bool, rs: seq<Received>)
    requires Valid(l)
    ensures var r := ListenAndLog(l, connected, rs);
            var last := Run(l, rs);
            && (!connected ==> r == l)
            && (connected ==> && r.csvFile.None?
                              && r.sessionNumber == last.sessionNumber
                              && (last.loggingActive ==> last.csvFile.Some? && r.files == last.files + [last.csvFile.value.(isOpen := false)])
                              && (!last.loggingActive ==> r == last))
  {
    RunKeepsValid(l, rs);
  }
}
