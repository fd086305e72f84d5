/** `EMGProcessor` of system_data/emg_processor.py (and its copy in Toma_de_datos): the line
    handler and the reader loop performed on the processor's fields, specified by the
    functions of `EmgIngest`. */
module EmgProcessor {
  import opened Wrappers
  import opened Values
  import Text
  import opened EmgIngest

  class EMGProcessor {
    var connected: bool
    var stopReading: bool
    var sessionActive: bool
    var lastEmgData: Option<Frame>
    var lastDetectionTime: Option<int>
    var currentMovement: Movement
    var dataQueue: seq<Frame>

    function Snap(): Processor
      reads this
    {
      Processor(connected, stopReading, sessionActive, lastEmgData, lastDetectionTime, currentMovement, dataQueue)
    }

    constructor()
      ensures Snap() == Init() && Valid(Snap())
    {
      connected := false;
      stopReading := false;
      sessionActive := true;
      lastEmgData := None;
      lastDetectionTime := None;
      currentMovement := Movement(0, "AUTO");
      dataQueue := [];
    }

    /** `connect()`, given whether the serial port opened. */
    method Connect(portOpened: bool) returns (ok: bool)
      modifies this
      ensures Snap() == EmgIngest.Connect(old(Snap()), portOpened) && ok == portOpened
    {
      if portOpened {
        connected := true;
        stopReading := false;
        return true;
      }
      connected := false;
      ok := false;
    }

    method Disconnect()
      modifies this
      ensures Snap() == EmgIngest.Disconnect(old(Snap()))
    {
      stopReading := true;
      connected := false;
    }

    /** `_process_serial_line`: the line is classified in the source's order of checks
        (`EmgIngest.Classify`), then handled. */
    method ProcessSerialLine(line: string, now: int, receivedAt: string)
      modifies this
      ensures Snap() == EmgIngest.ProcessSerialLine(old(Snap()), line, now, receivedAt)
    {
      var kind := Classify(line);
      match kind
      case StartMarker =>
        sessionActive := true;
      case EndMarker =>
        sessionActive := false;
      case StatusLine =>
        lastDetectionTime := Some(now);
      case DataLine =>
        var frame := ParseFrame(Text.Split(line, ','), receivedAt);
        if frame.Some? {
          var f := frame.value;
          lastEmgData := Some(f);
          lastDetectionTime := Some(now);
          currentMovement := Movement(f.movementId, f.movementName);
          if |dataQueue| < QueueCapacity {
            dataQueue := dataQueue + [f];
          }
        }
      case _ =>
    }

    /** `_read_serial_data` over the lines that arrive, in order. */
    method ReadSerialData(readings: seq<Reading>)
      modifies this
      ensures Snap() == EmgIngest.ReadSerialData(old(Snap()), readings)
    {
      var i := 0;
      while i < |readings| && !stopReading && connected
        invariant 0 <= i <= |readings|
        invariant connected == old(connected) && stopReading == old(stopReading)
        invariant i > 0 ==> connected && !stopReading
        invariant Snap() == ProcessAll(old(Snap()), readings[..i])
      {
        assert readings[..i + 1][..i] == readings[..i];
        var line := Text.Strip(readings[i].line);
        if |line| > 0 {
          ProcessSerialLine(line, readings[i].now, readings[i].receivedAt);
        }
        i := i + 1;
      }
      assert connected && !stopReading ==> readings[..i] == readings;
    }

    function IsSensorConnected(now: int): (live: bool)
      reads this
      ensures live == EmgIngest.IsSensorConnected(Snap(), now)
    {
      connected && lastDetectionTime.Some? && now - lastDetectionTime.value <= LivenessWindowMs
    }

    function GetLatestEmgData(): (d: Option<Dict>)
      reads this
      ensures d == LatestEmgData(Snap())
    {
      LatestEmgData(Snap())
    }

    function GetEmgFeatures(): (features: Dict)
      reads this
      ensures features == EmgIngest.GetEmgFeatures(Snap())
    {
      EmgIngest.GetEmgFeatures(Snap())
    }

    function ProcessFrame(now: int): (r: FrameResult)
      reads this
      ensures r == EmgIngest.ProcessFrame(Snap(), now)
    {
      FrameResult(GetEmgFeatures(), IsSensorConnected(now))
    }
  }
}
