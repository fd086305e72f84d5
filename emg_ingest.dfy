/** The line handling of `EMGProcessor` in system_data/emg_processor.py (and its copy in
    Toma_de_datos) as values: a snapshot of the processor's fields, the classification and
    parsing of one device line, the reader thread as a pass over a sequence of lines, and the
    accessors the applications poll. The class in emg_processor.dfy performs the same
    operations in place. Times are milliseconds; the ISO receipt time of a line is a
    parameter. */
module EmgIngest {
  import opened Wrappers
  import opened Values
  import Text
  import Device

  /** `queue.Queue(maxsize=100)`. */
  const QueueCapacity: nat := 100

  /** The sensor counts as live while its last line is at most 5.0 s old. */
  const LivenessWindowMs: int := 5000

  /** `current_movement`: `{"id": ..., "name": ...}`. */
  datatype Movement = Movement(id: int, name: string)

  /** The `emg_data` dictionary built from an accepted line. Its `esp32_timestamp` is the
      receipt time `receivedAt`, not the device's field 0, and its `mode` is always
      "automatic". */
  datatype Frame = Frame(
    timestamp: int,
    sessionTime: int,
    emg1: real,
    emg2: real,
    emg3: real,
    movementId: int,
    movementName: string,
    receivedAt: string)

  /** The processor's fields that the line handler and the accessors use. */
  datatype Processor = Processor(
    connected: bool,
    stopReading: bool,
    sessionActive: bool,
    lastEmgData: Option<Frame>,
    lastDetectionTime: Option<int>,
    currentMovement: Movement,
    queue: seq<Frame>)

  function Init(): Processor
  {
    Processor(false, false, true, None, None, Movement(0, "AUTO"), [])
  }

  /** The bounded queue never holds more than its capacity. */
  predicate Valid(p: Processor)
  {
    |p.queue| <= QueueCapacity
  }

  /** `connect()`, whose serial port either opened or not; on success the reader thread is
      started, which clears `stop_reading`. */
  function Connect(p: Processor, portOpened: bool): Processor
  {
    if portOpened then p.(connected := true, stopReading := false) else p.(connected := false)
  }

  /** The flags `disconnect()` sets. */
  function Disconnect(p: Processor): Processor
  {
    p.(stopReading := true, connected := false)
  }

  // ---------------------------------------------------------------------------
  // One line
  // ---------------------------------------------------------------------------

  /** What `_process_serial_line` takes a line to be, in the order it checks. */
  datatype LineKind = StartMarker | EndMarker | HeaderLine | BannerLine | StatusLine | DataLine | OtherLine

  function Classify(line: string): LineKind
  {
    if line == Device.SessionStart then StartMarker
    else if line == Device.SessionEnd then EndMarker
    else if Text.Contains(line, Device.HeaderPrefix) then HeaderLine
    else if Text.Contains(line, "SISTEMA EMG AUTOM\U{00C1}TICO") || Text.Contains(line, "===") then BannerLine
    else if Text.StartsWith(line, "SISTEMA:") then StatusLine
    else if Text.Contains(line, ",") && |Text.Split(line, ',')| >= 6 then DataLine
    else OtherLine
  }

  /** `int(field) if field.isdigit() else 0`. */
  function MovementIdOf(field: string): nat
  {
    if Text.IsDigits(field) then Text.DigitsValue(field) else 0
  }

  /** The frame built from the fields of a data line, or `None` where one of the `int`/`float`
      conversions raises and the line is dropped. */
  function ParseFrame(parts: seq<string>, receivedAt: string): Option<Frame>
    requires |parts| >= 6
  {
    var timestamp := Text.ParseInt(parts[0]);
    var sessionTime := Text.ParseInt(parts[1]);
    var emg1 := Text.ParseFloat(parts[2]);
    var emg2 := Text.ParseFloat(parts[3]);
    var emg3 := Text.ParseFloat(parts[4]);
    if timestamp.Some? && sessionTime.Some? && emg1.Some? && emg2.Some? && emg3.Some? then
      Some(Frame(timestamp.value, sessionTime.value, emg1.value, emg2.value, emg3.value,
                 MovementIdOf(parts[5]), if |parts| > 6 then parts[6] else "AUTO", receivedAt))
    else None
  }

  /** A data line is kept exactly when its first five fields parse: the frame then has a
      movement id that is never negative (0 unless field 5 is all digits) and a movement
      name that is field 6, or "AUTO" when there are only six fields. */
  lemma ParseFrameAccepts(parts: seq<string>, receivedAt: string)
    requires |parts| >= 6
    ensures var r := ParseFrame(parts, receivedAt);
            && (r.Some? <==> Text.ParseInt(parts[0]).Some? && Text.ParseInt(parts[1]).Some?
                             && Text.ParseFloat(parts[2]).Some? && Text.ParseFloat(parts[3]).Some?
                             && Text.ParseFloat(parts[4]).Some?)
            && (r.Some? ==> r.value.movementId >= 0 && (r.value.movementId > 0 ==> Text.IsDigits(parts[5])))
            && (r.Some? ==> r.value.movementName == (if |parts| > 6 then parts[6] else "AUTO"))
            && (r.Some? ==> r.value.receivedAt == receivedAt)
  {
  }

  /** The frame a line yields: only a data line whose fields parse yields one. */
  function LineFrame(line: string, receivedAt: string): Option<Frame>
  {
    if Classify(line) == DataLine then ParseFrame(Text.Split(line, ','), receivedAt) else None
  }

  /** What an accepted frame does: it replaces the cache, the liveness clock and the current
      movement, and joins the queue unless the queue is full. */
  function Accept(p: Processor, f: Frame, now: int): Processor
  {
    p.(lastEmgData := Some(f),
       lastDetectionTime := Some(now),
       currentMovement := Movement(f.movementId, f.movementName),
       queue := if |p.queue| < QueueCapacity then p.queue + [f] else p.queue)
  }

  /** `_process_serial_line(line)` at time `now`, when the clock reads `receivedAt`. */
  function ProcessSerialLine(p: Processor, line: string, now: int, receivedAt: string): Processor
  {
    match Classify(line)
    case StartMarker => p.(sessionActive := true)
    case EndMarker => p.(sessionActive := false)
    case StatusLine => p.(lastDetectionTime := Some(now))
    case DataLine =>
      var f := ParseFrame(Text.Split(line, ','), receivedAt);
      if f.Some? then Accept(p, f.value, now) else p
    case _ => p
  }

  /** What one line changes: the exact markers set and clear the session flag; only a frame
      that parses touches the cache, the current movement and the queue; a frame or a status
      line refreshes the liveness clock; the connection flags never change. */
  lemma LineEffects(p: Processor, line: string, now: int, receivedAt: string)
    ensures var r := ProcessSerialLine(p, line, now, receivedAt);
            && r.connected == p.connected && r.stopReading == p.stopReading
            && r.sessionActive == (if line == Device.SessionStart then true else if line == Device.SessionEnd then false
                                   else p.sessionActive)
            && (LineFrame(line, receivedAt).Some? ==> r == Accept(p, LineFrame(line, receivedAt).value, now))
            && (LineFrame(line, receivedAt).None? ==>
                  r.lastEmgData == p.lastEmgData && r.currentMovement == p.currentMovement && r.queue == p.queue)
            && r.lastDetectionTime == (if LineFrame(line, receivedAt).Some? || Classify(line) == StatusLine then Some(now)
                                       else p.lastDetectionTime)
  {
    var kind := Classify(line);
    match kind {
      case DataLine =>
        assert LineFrame(line, receivedAt) == ParseFrame(Text.Split(line, ','), receivedAt);
      case _ =>
        assert LineFrame(line, receivedAt).None?;
    }
  }

  // ---------------------------------------------------------------------------
  // The reader thread
  // ---------------------------------------------------------------------------

  /** A line as read from the port, with the time it was read. */
  datatype Reading = Reading(line: string, now: int, receivedAt: string)

  /** One pass of the reader loop: the line is stripped and, unless empty, handled. */
  function Step(p: Processor, rd: Reading): Processor
  {
    var line := Text.Strip(rd.line);
    if |line| > 0 then ProcessSerialLine(p, line, rd.now, rd.receivedAt) else p
  }

  function ProcessAll(p: Processor, rs: seq<Reading>): Processor
    decreases |rs|
  {
    if |rs| == 0 then p else Step(ProcessAll(p, rs[..|rs| - 1]), rs[|rs| - 1])
  }

  /** `_read_serial_data`: lines are handled while the reader is connected and not told to
      stop; handling a line changes neither flag. */
  function ReadSerialData(p: Processor, rs: seq<Reading>): Processor
  {
    if p.connected && !p.stopReading then ProcessAll(p, rs) else p
  }

  /** The frames the readings yield, in order. */
  function FrameOf(rd: Reading): seq<Frame>
  {
    var line := Text.Strip(rd.line);
    if |line| > 0 && LineFrame(line, rd.receivedAt).Some? then [LineFrame(line, rd.receivedAt).value] else []
  }

  function FramesOf(rs: seq<Reading>): seq<Frame>
    decreases |rs|
  {
    if |rs| == 0 then [] else FramesOf(rs[..|rs| - 1]) + FrameOf(rs[|rs| - 1])
  }

  /** The first `n` elements, or all of them when there are fewer. */
  function Take(s: seq<Frame>, n: int): (r: seq<Frame>)
    ensures |r| <= |s| && (n >= 0 ==> |r| <= n)
  {
    if n <= 0 then [] else if n >= |s| then s else s[..n]
  }

  lemma TakeAppend(a: seq<Frame>, b: seq<Frame>, n: int)
    requires n >= 0
    ensures Take(a, n) + Take(b, n - |Take(a, n)|) == Take(a + b, n)
  {
    if n >= |a| {
      if n < |a| + |b| {
        assert (a + b)[..n] == a + b[..n - |a|];
      }
    } else {
      assert (a + b)[..n] == a[..n];
    }
  }

  lemma StepQueue(p: Processor, rd: Reading)
    ensures Step(p, rd).queue == p.queue + Take(FrameOf(rd), QueueCapacity - |p.queue|)
    ensures FrameOf(rd) != [] ==> Step(p, rd).lastEmgData == Some(FrameOf(rd)[0])
    ensures FrameOf(rd) != [] ==> Step(p, rd).currentMovement == Movement(FrameOf(rd)[0].movementId, FrameOf(rd)[0].movementName)
    ensures FrameOf(rd) == [] ==> Step(p, rd).lastEmgData == p.lastEmgData && Step(p, rd).currentMovement == p.currentMovement
    ensures Step(p, rd).connected == p.connected && Step(p, rd).stopReading == p.stopReading
  {
    LineEffects(p, Text.Strip(rd.line), rd.now, rd.receivedAt);
  }

  /** Reading a sequence of lines queues the first frames they yield until the queue is full
      and drops the rest; the connection flags do not change. */
  lemma {:induction false} ReadingQueuesFirstFrames(p: Processor, rs: seq<Reading>)
    requires Valid(p)
    ensures ProcessAll(p, rs).queue == p.queue + Take(FramesOf(rs), QueueCapacity - |p.queue|)
    ensures Valid(ProcessAll(p, rs))
    ensures ProcessAll(p, rs).connected == p.connected && ProcessAll(p, rs).stopReading == p.stopReading
    decreases |rs|
  {
    if |rs| > 0 {
      var init, last := rs[..|rs| - 1], rs[|rs| - 1];
      ReadingQueuesFirstFrames(p, init);
      var q := ProcessAll(p, init);
      assert ProcessAll(p, rs) == Step(q, last);
      assert FramesOf(rs) == FramesOf(init) + FrameOf(last);
      StepQueue(q, last);
      QueueGrowth(p.queue, q.queue, ProcessAll(p, rs).queue, FramesOf(init), FrameOf(last));
    }
  }

  /** The queue after two batches of frames is the queue after their concatenation. */
  lemma QueueGrowth(start: seq<Frame>, middle: seq<Frame>, end: seq<Frame>, a: seq<Frame>, b: seq<Frame>)
    requires |start| <= QueueCapacity
    requires middle == start + Take(a, QueueCapacity - |start|)
    requires end == middle + Take(b, QueueCapacity - |middle|)
    ensures end == start + Take(a + b, QueueCapacity - |start|)
    ensures |end| <= QueueCapacity
  {
    TakeAppend(a, b, QueueCapacity - |start|);
  }

  /** After a sequence of lines the cache and the current movement hold the last frame they
      yield, or what they held before when they yield none. */
  lemma {:induction false} ReadingKeepsLatestFrame(p: Processor, rs: seq<Reading>)
    ensures ProcessAll(p, rs).lastEmgData ==
              if |FramesOf(rs)| == 0 then p.lastEmgData else Some(FramesOf(rs)[|FramesOf(rs)| - 1])
    ensures ProcessAll(p, rs).currentMovement ==
              if |FramesOf(rs)| == 0 then p.currentMovement
              else Movement(FramesOf(rs)[|FramesOf(rs)| - 1].movementId, FramesOf(rs)[|FramesOf(rs)| - 1].movementName)
    decreases |rs|
  {
    if |rs| > 0 {
      var init, last := rs[..|rs| - 1], rs[|rs| - 1];
      ReadingKeepsLatestFrame(p, init);
      var q := ProcessAll(p, init);
      assert ProcessAll(p, rs) == Step(q, last);
      assert FramesOf(rs) == FramesOf(init) + FrameOf(last);
      StepQueue(q, last);
    }
  }

  /** A full queue stays as it is: new frames are dropped. */
  lemma FullQueueDropsFrames(p: Processor, rs: seq<Reading>)
    requires |p.queue| == QueueCapacity
    ensures ProcessAll(p, rs).queue == p.queue
  {
    ReadingQueuesFirstFrames(p, rs);
  }

  // ---------------------------------------------------------------------------
  // Accessors
  // ---------------------------------------------------------------------------

  /** `is_sensor_connected()` at time `now`. */
  predicate IsSensorConnected(p: Processor, now: int)
  {
    p.connected && p.lastDetectionTime.Some? && now - p.lastDetectionTime.value <= LivenessWindowMs
  }

  /** Right after an accepted frame the sensor is live exactly while connected and within
      5 s of that frame. */
  lemma AcceptedFrameIsLive(p: Processor, line: string, now: int, receivedAt: string, t: int)
    requires LineFrame(line, receivedAt).Some?
    ensures IsSensorConnected(ProcessSerialLine(p, line, now, receivedAt), t) <==>
              p.connected && t - now <= LivenessWindowMs
  {
    LineEffects(p, line, now, receivedAt);
  }

  /** After `disconnect()` the sensor is never live, and the reader handles no more lines. */
  lemma DisconnectEndsLiveness(p: Processor, rs: seq<Reading>, t: int)
    ensures ReadSerialData(Disconnect(p), rs) == Disconnect(p)
    ensures !IsSensorConnected(Disconnect(p), t)
    ensures Valid(p) ==> !IsSensorConnected(ProcessAll(Disconnect(p), rs), t)
  {
    if Valid(p) {
      ReadingQueuesFirstFrames(Disconnect(p), rs);
    }
  }

  /** The dictionary `get_latest_emg_data()` returns for a frame. */
  function FrameDict(f: Frame): Dict
  {
    map[Timestamp := IntValue(f.timestamp), SessionTime := IntValue(f.sessionTime),
        Emg1 := FloatValue(f.emg1), Emg2 := FloatValue(f.emg2), Emg3 := FloatValue(f.emg3),
        MovementId := IntValue(f.movementId), MovementName := StrValue(f.movementName),
        Esp32Timestamp := StrValue(f.receivedAt), Mode := StrValue("automatic")]
  }

  /** `get_latest_emg_data()`. */
  function LatestEmgData(p: Processor): Option<Dict>
  {
    if p.lastEmgData.Some? then Some(FrameDict(p.lastEmgData.value)) else None
  }

  /** The features dictionary with the given values. */
  function FeatureDict(emg1: real, emg2: real, emg3: real, sessionTime: int, esp32Timestamp: int): Dict
  {
    map[Emg1Raw := FloatValue(emg1), Emg2Raw := FloatValue(emg2), Emg3Raw := FloatValue(emg3),
        SessionTime := IntValue(sessionTime), Esp32Timestamp := IntValue(esp32Timestamp),
        Mode := StrValue("automatic")]
  }

  /** `get_emg_features()`. */
  function GetEmgFeatures(p: Processor): Dict
  {
    match p.lastEmgData
    case None => FeatureDict(0.0, 0.0, 0.0, 0, 0)
    case Some(f) => FeatureDict(f.emg1, f.emg2, f.emg3, f.sessionTime, f.timestamp)
  }

  /** The features always hold the same six keys: zeros before any frame, and otherwise the
      three channels, the session time and the device's own timestamp (field 0) of the
      latest frame. */
  lemma FeaturesOfLatestFrame(p: Processor)
    ensures GetEmgFeatures(p).Keys == {Emg1Raw, Emg2Raw, Emg3Raw, SessionTime, Esp32Timestamp, Mode}
    ensures GetEmgFeatures(p)[Mode] == StrValue("automatic")
    ensures p.lastEmgData.None? ==>
              GetEmgFeatures(p)[Emg1Raw] == FloatValue(0.0) && GetEmgFeatures(p)[Emg2Raw] == FloatValue(0.0)
              && GetEmgFeatures(p)[Emg3Raw] == FloatValue(0.0) && GetEmgFeatures(p)[SessionTime] == IntValue(0)
              && GetEmgFeatures(p)[Esp32Timestamp] == IntValue(0)
    ensures p.lastEmgData.Some? ==>
              GetEmgFeatures(p)[Emg1Raw] == FloatValue(p.lastEmgData.value.emg1)
              && GetEmgFeatures(p)[Emg2Raw] == FloatValue(p.lastEmgData.value.emg2)
              && GetEmgFeatures(p)[Emg3Raw] == FloatValue(p.lastEmgData.value.emg3)
              && GetEmgFeatures(p)[SessionTime] == IntValue(p.lastEmgData.value.sessionTime)
              && GetEmgFeatures(p)[Esp32Timestamp] == IntValue(p.lastEmgData.value.timestamp)
  {
  }

  /** `detect_gesture(features)`: the application, not the device, decides the gesture. */
  function DetectGesture(features: Dict): (r: (int, string))
    ensures r == (0, "AUTO")
  {
    (0, "AUTO")
  }

  /** `process_frame()`: the features and the liveness, with no image. */
  datatype FrameResult = FrameResult(features: Dict, connected: bool)

  function ProcessFrame(p: Processor, now: int): (r: FrameResult)
    ensures r.features == GetEmgFeatures(p) && r.connected == IsSensorConnected(p, now)
  {
    FrameResult(GetEmgFeatures(p), IsSensorConnected(p, now))
  }

  // ---------------------------------------------------------------------------
  // Lines as the device writes them
  // ---------------------------------------------------------------------------

  /** Classification of a device line: a data line. */
  lemma DeviceLineIsData(timestamp: int, sessionTime: int, emg1: int, emg2: int, emg3: int,
                         movementId: nat, movementName: string)
    requires Device.IsLabel(movementName)
    ensures Classify(Device.Line(timestamp, sessionTime, emg1, emg2, emg3, movementId, movementName)) == DataLine
  {
    var line := Device.Line(timestamp, sessionTime, emg1, emg2, emg3, movementId, movementName);
    Device.LineFields(timestamp, sessionTime, emg1, emg2, emg3, movementId, movementName);
    assert line != Device.SessionStart && line != Device.SessionEnd by {
      assert line[0] != Device.SessionStart[0] && line[0] != Device.SessionEnd[0];
    }
    assert !Text.StartsWith(line, "SISTEMA:") by {
      assert line[0] != 'S';
    }
    assert Device.HeaderPrefix[0] == 't';
    Text.NotContainsAbsent(line, Device.HeaderPrefix, 't');
    Text.NotContainsAbsent(line, "SISTEMA EMG AUTOM\U{00C1}TICO", ' ');
    Text.NotContainsAbsent(line, "===", '=');
  }

  /** A line written by the device is read back as the frame it encodes, whatever state the
      processor is in. */
  lemma DeviceLineRoundTrip(p: Processor, timestamp: int, sessionTime: int, emg1: int, emg2: int, emg3: int,
                            movementId: nat, movementName: string, now: int, receivedAt: string)
    requires Device.IsLabel(movementName)
    ensures var f := Frame(timestamp, sessionTime, emg1 as real, emg2 as real, emg3 as real,
                           movementId, movementName, receivedAt);
            var line := Device.Line(timestamp, sessionTime, emg1, emg2, emg3, movementId, movementName);
            LineFrame(line, receivedAt) == Some(f) && ProcessSerialLine(p, line, now, receivedAt) == Accept(p, f, now)
  {
    var line := Device.Line(timestamp, sessionTime, emg1, emg2, emg3, movementId, movementName);
    DeviceLineFrame(timestamp, sessionTime, emg1, emg2, emg3, movementId, movementName, receivedAt);
    LineEffects(p, line, now, receivedAt);
  }

  lemma DeviceLineFrame(timestamp: int, sessionTime: int, emg1: int, emg2: int, emg3: int,
                        movementId: nat, movementName: string, receivedAt: string)
    requires Device.IsLabel(movementName)
    ensures LineFrame(Device.Line(timestamp, sessionTime, emg1, emg2, emg3, movementId, movementName), receivedAt)
            == Some(Frame(timestamp, sessionTime, emg1 as real, emg2 as real, emg3 as real,
                          movementId, movementName, receivedAt))
  {
    var line := Device.Line(timestamp, sessionTime, emg1, emg2, emg3, movementId, movementName);
    DeviceLineIsData(timestamp, sessionTime, emg1, emg2, emg3, movementId, movementName);
    Device.LineFields(timestamp, sessionTime, emg1, emg2, emg3, movementId, movementName);
    DeviceFieldsParse(timestamp, sessionTime, emg1, emg2, emg3, movementId, movementName, receivedAt);
    assert LineFrame(line, receivedAt)
           == ParseFrame(Device.Fields(timestamp, sessionTime, emg1, emg2, emg3, movementId, movementName), receivedAt);
  }

  /** The fields the device prints convert back to the values printed. */
  lemma DeviceFieldsParse(timestamp: int, sessionTime: int, emg1: int, emg2: int, emg3: int,
                          movementId: nat, movementName: string, receivedAt: string)
    ensures ParseFrame(Device.Fields(timestamp, sessionTime, emg1, emg2, emg3, movementId, movementName), receivedAt)
            == Some(Frame(timestamp, sessionTime, emg1 as real, emg2 as real, emg3 as real,
                          movementId, movementName, receivedAt))
  {
    var parts := Device.Fields(timestamp, sessionTime, emg1, emg2, emg3, movementId, movementName);
    Text.ParseIntOfIntToString(timestamp);
    Text.ParseIntOfIntToString(sessionTime);
    Text.ParseFloatOfIntToString(emg1);
    Text.ParseFloatOfIntToString(emg2);
    Text.ParseFloatOfIntToString(emg3);
    Text.DigitsValueOfNatToString(movementId);
    assert MovementIdOf(parts[5]) == movementId;
  }

  /** The device's own header line is ignored: it is never taken for a data line. */
  lemma DeviceHeaderIgnored(p: Processor, now: int, receivedAt: string)
    ensures ProcessSerialLine(p, Device.Header, now, receivedAt) == p
  {
    assert Text.StartsWith(Device.Header, Device.HeaderPrefix);
    Text.PrefixIsContained(Device.Header, Device.HeaderPrefix);
  }
}
