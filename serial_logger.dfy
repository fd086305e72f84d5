/** `ESP32DataLogger` of tomardatos.py: the file operations and the reading loop performed on
    the logger's fields, specified by the functions of `CsvLog`. */
module SerialLogger {
  import opened Wrappers
  import Text
  import Device
  import opened CsvLog

  class ESP32DataLogger {
    const port: string
    const baudrate: int
    var loggingActive: bool
    var sessionNumber: int
    var csvFile: Option<CsvFile>
    var files: seq<CsvFile>

    function Snap(): Logger
      reads this
    {
      Logger(loggingActive, sessionNumber, csvFile, files)
    }

    constructor(port: string, baudrate: int)
      ensures this.port == port && this.baudrate == baudrate
      ensures Snap() == Init() && Valid(Snap())
    {
      this.port := port;
      this.baudrate := baudrate;
      loggingActive := false;
      sessionNumber := 1;
      csvFile := None;
      files := [];
    }

    method CreateCsvFile(stamp: string, canOpen: bool) returns (filename: Option<string>)
      modifies this
      ensures (Snap(), filename) == CsvLog.CreateCsvFile(old(Snap()), stamp, canOpen)
    {
      var name := FileName(sessionNumber, stamp);
      if !canOpen {
        return None;
      }
      if csvFile.Some? {
        files := files + [csvFile.value];
      }
      csvFile := Some(CsvFile(name, [], true));
      filename := Some(name);
    }

    method CloseCsvFile()
      modifies this
      ensures Snap() == CsvLog.CloseCsvFile(old(Snap()))
    {
      if csvFile.Some? {
        files := files + [csvFile.value.(isOpen := false)];
        csvFile := None;
      }
    }

    method ProcessDataLine(line: string) returns (ok: bool)
      modifies this
      ensures (Snap(), ok) == CsvLog.ProcessDataLine(old(Snap()), line)
    {
      var parts := Text.Split(line, ',');
      if |parts| == 7 && csvFile.Some? {
        var f := csvFile.value;
        csvFile := Some(f.(rows := f.rows + [parts]));
        return true;
      }
      ok := false;
    }

    /** The body of the reading loop for one stripped, non-empty line. */
    method HandleLine(line: string, stamp: string, canOpen: bool)
      requires |line| > 0
      modifies this
      ensures Snap() == CsvLog.HandleLine(old(Snap()), line, stamp, canOpen)
    {
      if Text.Contains(line, Device.SessionStart) {
        var filename := CreateCsvFile(stamp, canOpen);
        if filename.Some? {
          loggingActive := true;
        }
      } else if Text.Contains(line, Device.SessionEnd) {
        if loggingActive {
          CloseCsvFile();
          sessionNumber := sessionNumber + 1;
          loggingActive := false;
        }
      } else if Text.StartsWith(line, Device.HeaderPrefix) {
        if loggingActive && csvFile.Some? {
          var f := csvFile.value;
          csvFile := Some(f.(rows := f.rows + [Text.Split(line, ',')]));
        }
      } else if loggingActive && ',' in line {
        var _ := ProcessDataLine(line);
      }
    }

    /** `listen_and_log` over the lines that arrive before the user interrupts it; `connected`
        says whether the port opened. */
    method ListenAndLog(connected: bool, received: seq<Received>)
      modifies this
      ensures Snap() == CsvLog.ListenAndLog(old(Snap()), connected, received)
    {
      if !connected {
        return;
      }
      var i := 0;
      while i < |received|
        invariant 0 <= i <= |received|
        invariant Snap() == Run(old(Snap()), received[..i])
      {
        assert received[..i + 1][..i] == received[..i];
        var rcv := received[i];
        if rcv.line.Some? {
          var line := Text.Strip(rcv.line.value);
          if |line| > 0 {
            HandleLine(line, rcv.stamp, rcv.canOpen);
          }
        }
        i := i + 1;
      }
      assert received[..i] == received;
      if loggingActive {
        CloseCsvFile();
      }
    }
  }
}
