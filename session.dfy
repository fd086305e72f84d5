/** The gesture session controller of system_data/session_controller.py as values: a
    snapshot of the controller's fields, a pure function for each operation and each
    private helper, and the properties of the schedule they run. The class in
    session_controller.dfy performs the same operations in place and is specified by these
    functions. */
module Session {
  import opened Wrappers
  import Text
  import Schedule

  datatype SessionState = Idle | Preparing | Countdown | Recording | Resting | Completed | Paused | Error

  /** What `configure_session` stores; `total_gestures` and `samples_per_gesture_target`
      are derived from it. */
  datatype SessionConfig = SessionConfig(
    selectedGestures: seq<string>,
    seriesCount: int,
    durationPerGesture: int,
    restTime: int)
  {
    function TotalGestures(): nat { |selectedGestures| }
    function SamplesPerGestureTarget(): int { 30 * durationPerGesture }
  }

  /** `session_stats`; `total_recordings_planned` is a key that only `configure_session` adds. */
  datatype SessionStats = SessionStats(
    startTime: Option<int>,
    totalSamples: nat,
    gesturesCompleted: map<string, int>,
    seriesCompleted: nat,
    totalRecordingsPlanned: Option<int>)

  /** `get_current_gesture_info`: nothing (`'NINGUNO'`, index -1, series 0, cycle 0) or the
      gesture under the cursor, with 1-based series and cycle numbers. */
  datatype GestureInfo =
    | NoGesture
    | Current(gestureName: string, gestureIndex: nat, seriesNumber: nat, cycleNumber: nat, totalCycles: int)
  {
    function Name(): string { if NoGesture? then "NINGUNO" else gestureName }
    function Index(): int { if NoGesture? then -1 else gestureIndex }
    function Cycle(): nat { if NoGesture? then 0 else cycleNumber }
  }

  datatype ErrorKind = NoGesturesSelected | DurationOutOfRange | CannotStartIn(state: SessionState) | NotConfigured

  /** The callbacks the controller invokes, in the order it invokes them. */
  datatype Event =
    | StateChanged(from: SessionState, to: SessionState)
    | GestureChanged(info: GestureInfo)
    | CountdownTick(remaining: int)
    | RecordingStarted(info: GestureInfo)
    | RecordingEnded(info: GestureInfo, samples: nat)
    | SessionCompleted(stats: SessionStats)
    | ErrorRaised(kind: ErrorKind)

  /** `get_session_status`. */
  datatype SessionStatus = SessionStatus(
    state: SessionState,
    currentGesture: GestureInfo,
    countdownRemaining: int,
    progressPercentage: real,
    sessionStats: SessionStats,
    recordingActive: bool,
    samplesThisRecording: nat,
    estimatedTimeRemaining: string)

  /** The controller's fields; `countdownStartTime` and `restStartTime` are the attributes
      the source creates and deletes with `hasattr`/`delattr`. Times are milliseconds. */
  datatype Controller = Controller(
    state: SessionState,
    config: Option<SessionConfig>,
    currentGestureIndex: nat,
    currentSeries: nat,
    currentCycle: nat,
    totalCyclesUserDefined: int,
    samplesCapturedThisRecording: nat,
    countdownRemaining: int,
    recordingStartTime: int,
    lastUpdateTime: int,
    countdownStartTime: Option<int>,
    restStartTime: Option<int>,
    sessionStats: SessionStats,
    events: seq<Event>)

  function GestureCount(c: Controller): nat
  {
    if c.config.Some? then |c.config.value.selectedGestures| else 0
  }

  function Init(): (c: Controller)
    ensures c.state == Idle && c.config.None? && c.events == []
  {
    Controller(Idle, None, 0, 0, 0, 0, 0, 0, 0, 0, None, None, SessionStats(None, 0, map[], 0, None), [])
  }

  // ---------------------------------------------------------------------------
  // Invariants
  // ---------------------------------------------------------------------------

  /** What holds of every controller reachable from `Init` through the operations below. */
  predicate Valid(c: Controller)
  {
    && c.state != Preparing
    && (c.config.None? ==> c.state in {Idle, Error} && c.sessionStats.totalRecordingsPlanned.None?)
    && (c.config.Some? ==> ConfiguredValid(c))
    && (c.state != Countdown ==> c.countdownStartTime.None?)
    && (c.state in {Countdown, Recording} ==> c.currentGestureIndex < GestureCount(c))
    && (c.state == Resting ==> c.restStartTime.Some?)
  }

  predicate ConfiguredValid(c: Controller)
    requires c.config.Some?
  {
    var g := c.config.value.selectedGestures;
    && |g| >= 1
    && 1 <= c.config.value.durationPerGesture <= 60
    && c.currentGestureIndex <= |g|
    && c.sessionStats.totalRecordingsPlanned == Some(|g| * c.totalCyclesUserDefined)
    && (forall k :: 0 <= k < |g| ==> g[k] in c.sessionStats.gesturesCompleted)
  }

  /** The cursor agrees with the state: inside the planned cycles while a session runs, past
      them once it is complete. Every operation but `configure_session` keeps this; a
      reconfiguration in the middle of a session can break it. */
  predicate OnSchedule(c: Controller)
  {
    && (c.state in {Countdown, Recording, Resting, Paused} ==> c.currentCycle < c.totalCyclesUserDefined)
    && (c.state == Completed ==> c.currentCycle >= c.totalCyclesUserDefined)
  }

  /** The recordings the controller will still make if it is only ticked, paused and resumed:
      the one under way (counting down or recording) and those `_start_next_recording` goes
      on to start. */
  function Pending(c: Controller): seq<Schedule.Cursor>
    requires Valid(c)
  {
    var n := GestureCount(c);
    match c.state
    case Countdown =>
      [Schedule.Cursor(c.currentGestureIndex, c.currentCycle)]
        + Schedule.Visits(c.currentGestureIndex + 1, c.currentCycle, n, c.totalCyclesUserDefined)
    case Recording =>
      [Schedule.Cursor(c.currentGestureIndex, c.currentCycle)]
        + Schedule.Visits(c.currentGestureIndex + 1, c.currentCycle, n, c.totalCyclesUserDefined)
    case Resting => Schedule.Visits(c.currentGestureIndex, c.currentCycle, n, c.totalCyclesUserDefined)
    case Paused => Schedule.Visits(c.currentGestureIndex, c.currentCycle, n, c.totalCyclesUserDefined)
    case _ => []
  }

  /** The recordings the event log reports as finished (`on_recording_end`), in order. */
  function Finished(events: seq<Event>): seq<Schedule.Cursor>
    decreases |events|
  {
    if |events| == 0 then [] else Finished(events[..|events| - 1]) + EndedCursor(events[|events| - 1])
  }

  function EndedCursor(e: Event): seq<Schedule.Cursor>
  {
    match e
    case RecordingEnded(Current(_, i, _, cycleNumber, _), _) =>
      if cycleNumber >= 1 then [Schedule.Cursor(i, cycleNumber - 1)] else []
    case _ => []
  }

  // ---------------------------------------------------------------------------
  // Private helpers of the controller
  // ---------------------------------------------------------------------------

  /** `_change_state`: the stored countdown start does not survive a change to any other state. */
  function ChangeState(c: Controller, newState: SessionState): Controller
  {
    c.(state := newState,
       countdownStartTime := if newState == Countdown then c.countdownStartTime else None,
       events := c.events + [StateChanged(c.state, newState)])
  }

  /** `_trigger_error`. */
  function TriggerError(c: Controller, kind: ErrorKind): Controller
  {
    var c1 := ChangeState(c, Error);
    c1.(events := c1.events + [ErrorRaised(kind)])
  }

  /** `get_current_gesture_info`. */
  function CurrentGesture(c: Controller): (info: GestureInfo)
    ensures info.Current? <==> c.config.Some? && c.currentGestureIndex < GestureCount(c)
    ensures info.Current? ==> info.gestureIndex == c.currentGestureIndex && info.cycleNumber == c.currentCycle + 1
    ensures info.Current? ==> info.gestureName == c.config.value.selectedGestures[c.currentGestureIndex]
  {
    if c.config.None? || c.currentGestureIndex >= |c.config.value.selectedGestures| then NoGesture
    else Current(c.config.value.selectedGestures[c.currentGestureIndex], c.currentGestureIndex,
                 c.currentSeries + 1, c.currentCycle + 1, c.totalCyclesUserDefined)
  }

  /** `_complete_session`. */
  function CompleteSession(c: Controller): Controller
  {
    var c1 := ChangeState(c, Completed);
    c1.(events := c1.events + [SessionCompleted(c1.sessionStats)])
  }

  /** `_start_next_recording`: move the cursor as `Schedule.NextRecording` decides and either
      complete, or announce the gesture and count down `rest_time`. */
  function StartNextRecording(c: Controller): Controller
    requires c.config.Some?
  {
    var st := Schedule.NextRecording(c.currentGestureIndex, c.currentCycle,
                                     |c.config.value.selectedGestures|, c.totalCyclesUserDefined);
    var c1 := c.(currentGestureIndex := st.index, currentCycle := st.cycle);
    if st.completed then CompleteSession(c1)
    else
      var info := CurrentGesture(c1);
      ChangeState(c1.(events := c1.events + [GestureChanged(info)], countdownRemaining := c.config.value.restTime),
                  Countdown)
  }

  /** `_start_recording`. */
  function StartRecording(c: Controller, now: int): Controller
  {
    var c1 := c.(recordingStartTime := now, samplesCapturedThisRecording := 0);
    var info := CurrentGesture(c1);
    var c2 := ChangeState(c1, Recording);
    c2.(events := c2.events + [RecordingStarted(info)])
  }

  /** `_update_countdown`: the start of the countdown is the first tick seen in it. */
  function UpdateCountdown(c: Controller, now: int): Controller
    requires c.config.Some?
  {
    var start := c.countdownStartTime.GetOr(now);
    var remaining := Schedule.CountdownRemaining(c.config.value.restTime, now - start);
    var c1 := c.(countdownStartTime := Some(start), countdownRemaining := remaining,
                 events := c.events + [CountdownTick(remaining)]);
    if remaining <= 0 then StartRecording(c1, now) else c1
  }

  /** `_stop_recording`: count the gesture as completed, report it, move to the next gesture
      and rest. */
  function StopRecording(c: Controller, now: int): Controller
    requires CurrentGesture(c).Name() in c.sessionStats.gesturesCompleted
  {
    var info := CurrentGesture(c);
    var name := info.Name();
    var done := c.sessionStats.gesturesCompleted;
    var c1 := c.(sessionStats := c.sessionStats.(gesturesCompleted := done[name := done[name] + 1]),
                 events := c.events + [RecordingEnded(info, c.samplesCapturedThisRecording)],
                 currentGestureIndex := c.currentGestureIndex + 1);
    ChangeState(c1, Resting).(restStartTime := Some(now))
  }

  /** `_update_recording`. */
  function UpdateRecording(c: Controller, now: int): Controller
    requires c.config.Some? && CurrentGesture(c).Name() in c.sessionStats.gesturesCompleted
  {
    if now - c.recordingStartTime >= c.config.value.durationPerGesture * 1000 then StopRecording(c, now) else c
  }

  /** `_update_resting`: a fixed rest of one second. */
  function UpdateResting(c: Controller, now: int): Controller
    requires c.config.Some?
  {
    var start := c.restStartTime.GetOr(now);
    var c1 := c.(restStartTime := Some(start));
    if now - start >= Schedule.RestMs then StartNextRecording(ChangeState(c1, Preparing)) else c1
  }

  // ---------------------------------------------------------------------------
  // Public operations
  // ---------------------------------------------------------------------------

  function ZeroCounts(gestures: seq<string>): (m: map<string, int>)
    ensures forall k :: 0 <= k < |gestures| ==> gestures[k] in m && m[gestures[k]] == 0
    ensures forall x :: x in m ==> x in gestures
  {
    map x | x in gestures :: 0
  }

  /** `configure_session`: an empty gesture list or a duration outside [1, 60] s is an error
      and changes nothing but the state; otherwise the configuration, the cycle count
      (`user_cycles` if positive, else `series_count`), the counters and the statistics are
      replaced and the state is kept. The rest time is not checked. */
  function Configure(c: Controller, gestures: seq<string>, seriesCount: int, durationPerGesture: int,
                     restTime: int, userCycles: int): (r: (Controller, bool))
    ensures r.1 <==> |gestures| >= 1 && 1 <= durationPerGesture <= 60
    ensures !r.1 ==> r.0 == c.(state := Error, countdownStartTime := None, events := r.0.events)
    ensures !r.1 ==> r.0.events == c.events + [StateChanged(c.state, Error),
              ErrorRaised(if |gestures| == 0 then NoGesturesSelected else DurationOutOfRange)]
    ensures r.1 ==> r.0.state == c.state && r.0.events == c.events
    ensures r.1 ==> r.0.totalCyclesUserDefined == (if userCycles > 0 then userCycles else seriesCount)
    ensures r.1 ==> r.0.sessionStats.totalRecordingsPlanned == Some(|gestures| * r.0.totalCyclesUserDefined)
    ensures r.1 ==> r.0.currentGestureIndex == 0 && r.0.currentSeries == 0 && r.0.currentCycle == 0
                    && r.0.samplesCapturedThisRecording == 0 && r.0.sessionStats.totalSamples == 0
    ensures r.1 ==> r.0.config == Some(SessionConfig(gestures, seriesCount, durationPerGesture, restTime))
  {
    if |gestures| == 0 then (TriggerError(c, NoGesturesSelected), false)
    else if durationPerGesture < 1 || durationPerGesture > 60 then (TriggerError(c, DurationOutOfRange), false)
    else
      var total := if userCycles > 0 then userCycles else seriesCount;
      (c.(config := Some(SessionConfig(gestures, seriesCount, durationPerGesture, restTime)),
          totalCyclesUserDefined := total,
          currentGestureIndex := 0, currentSeries := 0, currentCycle := 0,
          samplesCapturedThisRecording := 0,
          sessionStats := SessionStats(None, 0, ZeroCounts(gestures), 0, Some(|gestures| * total))),
       true)
  }

  /** `start_session`: only from IDLE with a configuration; otherwise an error. */
  function Start(c: Controller, now: int): (r: (Controller, bool))
    ensures r.1 <==> c.state == Idle && c.config.Some?
    ensures !r.1 ==> r.0 == TriggerError(c, if c.state != Idle then CannotStartIn(c.state) else NotConfigured)
    ensures r.1 ==> r.0.state in {Countdown, Completed} && r.0.config == c.config
  {
    if c.state != Idle then (TriggerError(c, CannotStartIn(c.state)), false)
    else if c.config.None? then (TriggerError(c, NotConfigured), false)
    else
      var c1 := c.(sessionStats := c.sessionStats.(startTime := Some(now)),
                   currentGestureIndex := 0, currentSeries := 0, currentCycle := 0);
      (StartNextRecording(ChangeState(c1, Preparing)), true)
  }

  /** `stop_session` (which always reports success): nothing happens in IDLE, otherwise the
      state becomes IDLE. */
  function Stop(c: Controller): (r: Controller)
    ensures r.state == Idle
    ensures c.state == Idle ==> r == c
    ensures c.state != Idle ==> r == c.(state := Idle, countdownStartTime := None,
                                        events := c.events + [StateChanged(c.state, Idle)])
  {
    if c.state == Idle then c else ChangeState(c, Idle)
  }

  /** `pause_session`. */
  function Pause(c: Controller): (r: (Controller, bool))
    ensures r.1 <==> c.state in {Countdown, Recording, Resting}
    ensures !r.1 ==> r.0 == c
    ensures r.1 ==> r.0 == c.(state := Paused, countdownStartTime := None,
                              events := c.events + [StateChanged(c.state, Paused)])
  {
    if c.state in {Countdown, Recording, Resting} then (ChangeState(c, Paused), true) else (c, false)
  }

  /** `resume_session`: a fresh countdown at the cursor, through `_start_next_recording`. */
  function Resume(c: Controller): (r: (Controller, bool))
    requires c.state == Paused ==> c.config.Some?
    ensures r.1 <==> c.state == Paused
    ensures !r.1 ==> r.0 == c
    ensures r.1 ==> r.0.state in {Countdown, Completed} && r.0.sessionStats == c.sessionStats
    ensures r.1 && r.0.state == Countdown ==>
              r.0.countdownRemaining == c.config.value.restTime && r.0.countdownStartTime.None?
  {
    if c.state == Paused then (StartNextRecording(ChangeState(c, Preparing)), true) else (c, false)
  }

  /** `increment_sample_count`. */
  function Increment(c: Controller): (r: (Controller, bool))
    ensures r.1 <==> c.state == Recording
    ensures !r.1 ==> r.0 == c
    ensures r.1 ==> r.0 == c.(samplesCapturedThisRecording := c.samplesCapturedThisRecording + 1,
                              sessionStats := c.sessionStats.(totalSamples := c.sessionStats.totalSamples + 1))
  {
    if c.state == Recording then
      (c.(samplesCapturedThisRecording := c.samplesCapturedThisRecording + 1,
          sessionStats := c.sessionStats.(totalSamples := c.sessionStats.totalSamples + 1)), true)
    else (c, false)
  }

  /** The state part of `update`: advance the current phase, then remember the tick time. */
  function Tick(c: Controller, now: int): (r: Controller)
    requires Valid(c)
  {
    var c1 := match c.state
      case Countdown => UpdateCountdown(c, now)
      case Recording => UpdateRecording(c, now)
      case Resting => UpdateResting(c, now)
      case _ => c;
    c1.(lastUpdateTime := now)
  }

  /** `_calculate_time_remaining`. */
  function TimeRemaining(c: Controller): (s: string)
    ensures c.config.None? || c.state in {Idle, Completed} ==> s == "0:00:00"
  {
    Schedule.ZeroHms();
    if c.config.None? || c.state in {Idle, Completed} then "0:00:00"
    else
      var n := |c.config.value.selectedGestures|;
      var perRecording := c.config.value.durationPerGesture + c.config.value.restTime;
      Schedule.FormatHms(Schedule.RemainingRecordings(n, c.currentGestureIndex, c.totalCyclesUserDefined, c.currentCycle)
                         * perRecording)
  }

  /** `get_session_status`; it raises unless a configuration has added the planned count. */
  function Status(c: Controller): (s: SessionStatus)
    requires c.sessionStats.totalRecordingsPlanned.Some?
    ensures 0.0 <= s.progressPercentage <= 100.0
    ensures s.recordingActive <==> c.state == Recording
  {
    var planned := c.sessionStats.totalRecordingsPlanned.value;
    var progress := if planned > 0
      then Schedule.Progress(c.currentCycle * GestureCount(c) + c.currentGestureIndex, planned)
      else 0.0;
    SessionStatus(c.state, CurrentGesture(c), c.countdownRemaining, progress, c.sessionStats,
                  c.state == Recording, c.samplesCapturedThisRecording, TimeRemaining(c))
  }

  // ---------------------------------------------------------------------------
  // The event log
  // ---------------------------------------------------------------------------

  lemma {:induction false} FinishedAppend(a: seq<Event>, b: seq<Event>)
    ensures Finished(a + b) == Finished(a) + Finished(b)
    decreases |b|
  {
    if |b| == 0 {
      assert a + b == a;
    } else {
      var ab, init, e := a + b, b[..|b| - 1], b[|b| - 1];
      assert ab[..|ab| - 1] == a + init;
      assert ab[|ab| - 1] == e;
      FinishedAppend(a, init);
      assert Finished(ab) == Finished(a + init) + EndedCursor(e);
      assert Finished(b) == Finished(init) + EndedCursor(e);
    }
  }

  lemma {:induction false} FinishedNone(extra: seq<Event>)
    requires forall k :: 0 <= k < |extra| ==> !extra[k].RecordingEnded?
    ensures Finished(extra) == []
    decreases |extra|
  {
    if |extra| > 0 {
      FinishedNone(extra[..|extra| - 1]);
    }
  }

  /** Events other than `on_recording_end` add no finished recording. */
  lemma FinishedSkips(es: seq<Event>, extra: seq<Event>)
    requires forall k :: 0 <= k < |extra| ==> !extra[k].RecordingEnded?
    ensures Finished(es + extra) == Finished(es)
  {
    FinishedAppend(es, extra);
    FinishedNone(extra);
  }

  // ---------------------------------------------------------------------------
  // Invariants kept by each operation
  // ---------------------------------------------------------------------------

  lemma InitValid()
    ensures Valid(Init()) && OnSchedule(Init()) && Pending(Init()) == []
  {
  }

  /** `_start_next_recording` starts the first recording the scheduler has left from the
      cursor, or completes when there is none. */
  lemma StartNextRecordingFollowsVisits(c: Controller)
    requires c.config.Some? && ConfiguredValid(c) && c.countdownStartTime.None?
    ensures Valid(StartNextRecording(c)) && OnSchedule(StartNextRecording(c))
    ensures StartNextRecording(c).state in {Countdown, Completed}
    ensures Pending(StartNextRecording(c))
            == Schedule.Visits(c.currentGestureIndex, c.currentCycle, GestureCount(c), c.totalCyclesUserDefined)
    ensures Finished(StartNextRecording(c).events) == Finished(c.events)
  {
    var n := GestureCount(c);
    var st := Schedule.NextRecording(c.currentGestureIndex, c.currentCycle, n, c.totalCyclesUserDefined);
    if st.completed {
      StartNextRecordingCompletes(c);
      FinishedSkips(c.events, [StateChanged(c.state, Completed), SessionCompleted(c.sessionStats)]);
    } else {
      var info := StartNextRecordingCountsDown(c);
      FinishedSkips(c.events, [GestureChanged(info), StateChanged(c.state, Countdown)]);
    }
  }

  /** `_start_next_recording` when the scheduler reports the session complete. */
  lemma StartNextRecordingCompletes(c: Controller)
    requires c.config.Some? && ConfiguredValid(c) && c.countdownStartTime.None?
    requires Schedule.NextRecording(c.currentGestureIndex, c.currentCycle, GestureCount(c), c.totalCyclesUserDefined).completed
    ensures var r := StartNextRecording(c);
            && r.state == Completed && Valid(r) && OnSchedule(r) && Pending(r) == []
            && r.events == c.events + [StateChanged(c.state, Completed), SessionCompleted(c.sessionStats)]
  {
  }

  /** `_start_next_recording` when a recording is left: a countdown at the scheduler's cursor. */
  lemma StartNextRecordingCountsDown(c: Controller) returns (info: GestureInfo)
    requires c.config.Some? && ConfiguredValid(c) && c.countdownStartTime.None?
    requires !Schedule.NextRecording(c.currentGestureIndex, c.currentCycle, GestureCount(c), c.totalCyclesUserDefined).completed
    ensures var st := Schedule.NextRecording(c.currentGestureIndex, c.currentCycle, GestureCount(c), c.totalCyclesUserDefined);
            var r := StartNextRecording(c);
            && r.state == Countdown && Valid(r) && OnSchedule(r)
            && Pending(r) == [Schedule.Cursor(st.index, st.cycle)]
                             + Schedule.Visits(st.index + 1, st.cycle, GestureCount(c), c.totalCyclesUserDefined)
            && r.events == c.events + [GestureChanged(info), StateChanged(c.state, Countdown)]
  {
    var st := Schedule.NextRecording(c.currentGestureIndex, c.currentCycle, GestureCount(c), c.totalCyclesUserDefined);
    info := CurrentGesture(c.(currentGestureIndex := st.index, currentCycle := st.cycle));
  }

  /** A rejected configuration leaves an error; an accepted one, made while no session is
      running, leaves the controller consistent with cursor (0, 0). */
  lemma ConfigureKeepsValid(c: Controller, gestures: seq<string>, seriesCount: int, durationPerGesture: int,
                            restTime: int, userCycles: int)
    requires Valid(c)
    ensures var r := Configure(c, gestures, seriesCount, durationPerGesture, restTime, userCycles);
            Valid(r.0) && (!r.1 || c.state in {Idle, Error} ==> OnSchedule(r.0))
  {
  }

  /** A successful start runs the whole plan: the recordings still to come are exactly
      `Schedule.Plan` from cursor (0, 0), and none is reported finished yet. */
  lemma StartRunsPlan(c: Controller, now: int)
    requires Valid(c)
    ensures var r := Start(c, now);
            Valid(r.0) && OnSchedule(r.0)
            && (r.1 ==> Pending(r.0) == Schedule.Plan(GestureCount(c), 0, c.totalCyclesUserDefined)
                        && Finished(r.0.events) == Finished(c.events))
  {
    var r := Start(c, now);
    if r.1 {
      var c1 := c.(sessionStats := c.sessionStats.(startTime := Some(now)),
                   currentGestureIndex := 0, currentSeries := 0, currentCycle := 0);
      var c2 := ChangeState(c1, Preparing);
      StartNextRecordingFollowsVisits(c2);
      FinishedSkips(c.events, [StateChanged(Idle, Preparing)]);
      Schedule.SessionFollowsPlan(GestureCount(c), c.totalCyclesUserDefined);
    }
  }

  lemma StopKeepsValid(c: Controller)
    requires Valid(c)
    ensures Valid(Stop(c)) && OnSchedule(Stop(c)) && Pending(Stop(c)) == []
  {
  }

  /** Pausing keeps the pending recordings: the one interrupted is started again, from its
      countdown, on resume. */
  lemma PauseKeepsSchedule(c: Controller)
    requires Valid(c) && OnSchedule(c)
    ensures var r := Pause(c).0;
            Valid(r) && OnSchedule(r) && Pending(r) == Pending(c) && Finished(r.events) == Finished(c.events)
  {
    var r := Pause(c);
    if r.1 {
      FinishedSkips(c.events, [StateChanged(c.state, Paused)]);
      var n, i, cy := GestureCount(c), c.currentGestureIndex, c.currentCycle;
      var p := r.0;
      assert p.config == c.config && p.currentGestureIndex == i && p.currentCycle == cy;
      assert p.totalCyclesUserDefined == c.totalCyclesUserDefined && p.sessionStats == c.sessionStats;
      assert Valid(p);
      assert Pending(p) == Schedule.Visits(i, cy, n, c.totalCyclesUserDefined);
      if c.state != Resting {
        assert Schedule.NextRecording(i, cy, n, c.totalCyclesUserDefined) == Schedule.Step(i, cy, false);
        assert Schedule.Visits(i, cy, n, c.totalCyclesUserDefined)
               == [Schedule.Cursor(i, cy)] + Schedule.Visits(i + 1, cy, n, c.totalCyclesUserDefined);
      }
    }
  }

  lemma ResumeKeepsSchedule(c: Controller)
    requires Valid(c) && OnSchedule(c)
    ensures var r := Resume(c).0;
            Valid(r) && OnSchedule(r) && Pending(r) == Pending(c) && Finished(r.events) == Finished(c.events)
  {
    if c.state == Paused {
      var c1 := ChangeState(c, Preparing);
      assert c1 == c.(state := Preparing, countdownStartTime := None, events := c.events + [StateChanged(Paused, Preparing)]);
      assert ConfiguredValid(c1);
      StartNextRecordingFollowsVisits(c1);
      FinishedSkips(c.events, [StateChanged(Paused, Preparing)]);
      assert Resume(c).0 == StartNextRecording(c1);
    }
  }

  lemma IncrementKeepsSchedule(c: Controller)
    requires Valid(c)
    ensures var r := Increment(c).0;
            Valid(r) && (OnSchedule(c) ==> OnSchedule(r)) && Pending(r) == Pending(c) && r.events == c.events
  {
  }

  /** A tick that ends a recording reports it finished and removes it from the pending
      recordings; every other tick leaves both unchanged. So the finished recordings
      followed by the pending ones stay the same along a session. */
  lemma TickKeepsSchedule(c: Controller, now: int)
    requires Valid(c)
    ensures Valid(Tick(c, now))
    ensures OnSchedule(c) ==> OnSchedule(Tick(c, now))
    ensures Finished(Tick(c, now).events) + Pending(Tick(c, now)) == Finished(c.events) + Pending(c)
    ensures Finished(c.events) <= Finished(Tick(c, now).events)
  {
    match c.state {
      case Countdown => TickCountdown(c, now);
      case Recording =>
        if now - c.recordingStartTime >= c.config.value.durationPerGesture * 1000 {
          TickEndsRecording(c, now);
        }
      case Resting => TickResting(c, now);
      case _ =>
    }
  }

  lemma TickCountdown(c: Controller, now: int)
    requires Valid(c) && c.state == Countdown
    ensures Valid(Tick(c, now))
    ensures OnSchedule(c) ==> OnSchedule(Tick(c, now))
    ensures Pending(Tick(c, now)) == Pending(c)
    ensures Finished(Tick(c, now).events) == Finished(c.events)
  {
    var r := TickCountdownShape(c, now);
    CountdownFrame(c, r);
    FinishedSkips(c.events, r.events[|c.events|..]);
    assert r.events == c.events + r.events[|c.events|..];
  }

  /** A state counting down or recording at the same cursor, under the same configuration,
      is valid, on schedule when the old one was, and has the same pending recordings. */
  lemma CountdownFrame(c: Controller, r: Controller)
    requires Valid(c) && c.state in {Countdown, Recording}
    requires r.state in {Countdown, Recording} && (r.state == Recording ==> r.countdownStartTime.None?)
    requires r.config == c.config && r.currentGestureIndex == c.currentGestureIndex && r.currentCycle == c.currentCycle
    requires r.totalCyclesUserDefined == c.totalCyclesUserDefined && r.sessionStats == c.sessionStats
    ensures Valid(r) && (OnSchedule(c) ==> OnSchedule(r)) && Pending(r) == Pending(c)
  {
  }

  /** The two outcomes of a countdown tick: still counting, or recording with a fresh
      per-recording count; in both, only non-finishing events are added. */
  lemma TickCountdownShape(c: Controller, now: int) returns (r: Controller)
    requires Valid(c) && c.state == Countdown
    ensures r == Tick(c, now)
    ensures r.state in {Countdown, Recording} && (r.state == Recording ==> r.countdownStartTime.None?)
    ensures r.config == c.config && r.currentGestureIndex == c.currentGestureIndex && r.currentCycle == c.currentCycle
    ensures r.totalCyclesUserDefined == c.totalCyclesUserDefined && r.sessionStats == c.sessionStats
    ensures r.restStartTime == c.restStartTime
    ensures |r.events| >= |c.events| && r.events[..|c.events|] == c.events
    ensures forall k :: |c.events| <= k < |r.events| ==> !r.events[k].RecordingEnded?
  {
    var start := c.countdownStartTime.GetOr(now);
    var remaining := Schedule.CountdownRemaining(c.config.value.restTime, now - start);
    var c1 := c.(countdownStartTime := Some(start), countdownRemaining := remaining,
                 events := c.events + [CountdownTick(remaining)]);
    assert Tick(c, now) == UpdateCountdown(c, now).(lastUpdateTime := now);
    if remaining <= 0 {
      var c2 := c1.(recordingStartTime := now, samplesCapturedThisRecording := 0);
      var extra := [CountdownTick(remaining), StateChanged(Countdown, Recording), RecordingStarted(CurrentGesture(c2))];
      r := c2.(state := Recording, countdownStartTime := None, events := c.events + extra, lastUpdateTime := now);
      assert UpdateCountdown(c, now) == StartRecording(c1, now);
    } else {
      r := c1.(lastUpdateTime := now);
    }
  }

  lemma TickResting(c: Controller, now: int)
    requires Valid(c) && c.state == Resting
    ensures Valid(Tick(c, now))
    ensures OnSchedule(c) ==> OnSchedule(Tick(c, now))
    ensures Pending(Tick(c, now)) == Pending(c)
    ensures Finished(Tick(c, now).events) == Finished(c.events)
  {
    var start := c.restStartTime.GetOr(now);
    var c1 := c.(restStartTime := Some(start));
    assert Tick(c, now) == UpdateResting(c, now).(lastUpdateTime := now);
    if now - start >= Schedule.RestMs {
      var c2 := ChangeState(c1, Preparing);
      assert UpdateResting(c, now) == StartNextRecording(c2);
      StartNextRecordingFollowsVisits(c2);
      FinishedSkips(c.events, [StateChanged(Resting, Preparing)]);
      var u := StartNextRecording(c2);
      LastUpdateIrrelevant(u, now);
    } else {
      assert Tick(c, now) == c1.(lastUpdateTime := now);
    }
  }

  /** Remembering the tick time changes none of the properties. */
  lemma LastUpdateIrrelevant(c: Controller, now: int)
    ensures Valid(c.(lastUpdateTime := now)) == Valid(c)
    ensures OnSchedule(c.(lastUpdateTime := now)) == OnSchedule(c)
    ensures Valid(c) ==> Pending(c.(lastUpdateTime := now)) == Pending(c)
  {
  }

  /** The end of a recording: the finished cursor is the head of the pending recordings. */
  /** The tick that ends a recording: the new state and the two events it logs. */
  lemma TickEndsRecordingShape(c: Controller, now: int)
    requires Valid(c) && c.state == Recording
    requires now - c.recordingStartTime >= c.config.value.durationPerGesture * 1000
    ensures Valid(Tick(c, now)) && Tick(c, now).state == Resting
    ensures (OnSchedule(c) ==> OnSchedule(Tick(c, now)))
    ensures Pending(c) == [Schedule.Cursor(c.currentGestureIndex, c.currentCycle)] + Pending(Tick(c, now))
    ensures Tick(c, now).events
            == c.events + [RecordingEnded(CurrentGesture(c), c.samplesCapturedThisRecording), StateChanged(Recording, Resting)]
  {
  }

  /** The two events that end a recording add its cursor to the finished ones. */
  lemma FinishedOfEndedRecording(events: seq<Event>, info: GestureInfo, samples: nat)
    requires info.Current? && info.cycleNumber >= 1
    ensures Finished(events + [RecordingEnded(info, samples), StateChanged(Recording, Resting)])
            == Finished(events) + [Schedule.Cursor(info.gestureIndex, info.cycleNumber - 1)]
  {
    var ended := [RecordingEnded(info, samples), StateChanged(Recording, Resting)];
    FinishedAppend(events, ended);
    assert ended == [ended[0]] + [ended[1]];
    FinishedAppend([ended[0]], [ended[1]]);
    assert [ended[0]][..0] == [];
    FinishedNone([ended[1]]);
  }

  lemma TickEndsRecording(c: Controller, now: int)
    requires Valid(c) && c.state == Recording
    requires now - c.recordingStartTime >= c.config.value.durationPerGesture * 1000
    ensures Valid(Tick(c, now)) && Tick(c, now).state == Resting
    ensures (OnSchedule(c) ==> OnSchedule(Tick(c, now)))
    ensures Pending(c) == [Schedule.Cursor(c.currentGestureIndex, c.currentCycle)] + Pending(Tick(c, now))
    ensures Finished(Tick(c, now).events) == Finished(c.events) + [Schedule.Cursor(c.currentGestureIndex, c.currentCycle)]
    ensures Finished(Tick(c, now).events) + Pending(Tick(c, now)) == Finished(c.events) + Pending(c)
  {
    TickEndsRecordingShape(c, now);
    EndedBookkeeping(c, Tick(c, now));
  }

  /** A state whose log adds the end of the current recording, and whose pending recordings
      are the old ones without it, keeps finished-then-pending unchanged. */
  lemma EndedBookkeeping(c: Controller, r: Controller)
    requires Valid(c) && Valid(r) && c.state == Recording
    requires Pending(c) == [Schedule.Cursor(c.currentGestureIndex, c.currentCycle)] + Pending(r)
    requires r.events
             == c.events + [RecordingEnded(CurrentGesture(c), c.samplesCapturedThisRecording), StateChanged(Recording, Resting)]
    ensures Finished(r.events) == Finished(c.events) + [Schedule.Cursor(c.currentGestureIndex, c.currentCycle)]
    ensures Finished(r.events) + Pending(r) == Finished(c.events) + Pending(c)
  {
    FinishedOfEndedRecording(c.events, CurrentGesture(c), c.samplesCapturedThisRecording);
  }

  // ---------------------------------------------------------------------------
  // Timing of the phases
  // ---------------------------------------------------------------------------

  /** The countdown started at its first tick ends, and the recording starts with an empty
      per-recording count, once the whole rest time has elapsed (whole seconds, truncated). */
  lemma CountdownTiming(c: Controller, now: int)
    requires Valid(c) && c.state == Countdown
    requires now >= c.countdownStartTime.GetOr(now)
    ensures var r := Tick(c, now);
            var start := c.countdownStartTime.GetOr(now);
            && r.countdownRemaining == Schedule.CountdownRemaining(c.config.value.restTime, now - start)
            && (r.state == Recording <==> now - start >= c.config.value.restTime * 1000)
            && (r.state == Recording ==> r.samplesCapturedThisRecording == 0 && r.recordingStartTime == now)
            && (r.state == Countdown ==> r.countdownStartTime == Some(start))
  {
    var start := c.countdownStartTime.GetOr(now);
    var r := TickCountdownShape(c, now);
    Schedule.CountdownExpires(c.config.value.restTime, now - start);
  }

  /** A recording ends once `duration_per_gesture` seconds have passed since it started; it
      is then counted for its gesture, reported, and the cursor moves to the next gesture. */
  lemma RecordingTiming(c: Controller, now: int)
    requires Valid(c) && c.state == Recording
    ensures var r := Tick(c, now);
            var name := c.config.value.selectedGestures[c.currentGestureIndex];
            && (r.state == Resting <==> now - c.recordingStartTime >= c.config.value.durationPerGesture * 1000)
            && (r.state == Recording ==> r == c.(lastUpdateTime := now))
            && (r.state == Resting ==>
                  && r.currentGestureIndex == c.currentGestureIndex + 1
                  && r.currentCycle == c.currentCycle
                  && r.restStartTime == Some(now)
                  && r.sessionStats.gesturesCompleted
                     == c.sessionStats.gesturesCompleted[name := c.sessionStats.gesturesCompleted[name] + 1]
                  && r.events == c.events + [RecordingEnded(CurrentGesture(c), c.samplesCapturedThisRecording),
                                             StateChanged(Recording, Resting)])
  {
  }

  /** The rest lasts a fixed second, whatever the configured rest time; then the next
      countdown starts from the full rest time, or the session completes. */
  lemma RestingTiming(c: Controller, now: int)
    requires Valid(c) && c.state == Resting
    ensures var r := Tick(c, now);
            && (r.state == Resting <==> now - c.restStartTime.value < Schedule.RestMs)
            && (r.state != Resting ==> r.state in {Countdown, Completed})
            && (r.state == Countdown ==> r.countdownRemaining == c.config.value.restTime
                                         && r.countdownStartTime.None?)
  {
    if now - c.restStartTime.value >= Schedule.RestMs {
      StartNextRecordingFollowsVisits(ChangeState(c, Preparing));
    }
  }

  // ---------------------------------------------------------------------------
  // A session run
  // ---------------------------------------------------------------------------

  /** What drives a started session: `update()` ticks, pause and resume, and sample counts. */
  datatype Action = TickAt(now: int) | PauseRequest | ResumeRequest | SampleCaptured

  function Apply(c: Controller, a: Action): (r: Controller)
    requires Valid(c)
    ensures Valid(r)
  {
    match a
    case TickAt(now) => TickKeepsSchedule(c, now); Tick(c, now)
    case PauseRequest => PauseKeepsValid(c); Pause(c).0
    case ResumeRequest => Resume(c).0
    case SampleCaptured => IncrementKeepsSchedule(c); Increment(c).0
  }

  lemma PauseKeepsValid(c: Controller)
    requires Valid(c)
    ensures Valid(Pause(c).0)
  {
  }

  function Run(c: Controller, actions: seq<Action>): (r: Controller)
    requires Valid(c)
    ensures Valid(r)
    decreases |actions|
  {
    if |actions| == 0 then c else Run(Apply(c, actions[0]), actions[1..])
  }

  /** Along any run, the finished recordings followed by the pending ones do not change. */
  lemma {:induction false} RunKeepsSchedule(c: Controller, actions: seq<Action>)
    requires Valid(c) && OnSchedule(c)
    ensures OnSchedule(Run(c, actions))
    ensures Finished(Run(c, actions).events) + Pending(Run(c, actions)) == Finished(c.events) + Pending(c)
    ensures Finished(c.events) <= Finished(Run(c, actions).events)
    decreases |actions|
  {
    if |actions| > 0 {
      var c1 := Apply(c, actions[0]);
      match actions[0] {
        case TickAt(now) => TickKeepsSchedule(c, now);
        case PauseRequest => PauseKeepsSchedule(c);
        case ResumeRequest => ResumeKeepsSchedule(c);
        case SampleCaptured => IncrementKeepsSchedule(c);
      }
      RunKeepsSchedule(c1, actions[1..]);
    }
  }

  /** Schedule order. After a successful start, however the session is ticked, paused and
      resumed, the recordings it reports finished are a prefix of the plan (gesture by
      gesture, cycle by cycle); once it is COMPLETED they are the whole plan. */
  lemma SessionFinishesPlanInOrder(c: Controller, now: int, actions: seq<Action>)
    requires Valid(c) && Start(c, now).1
    ensures var s := Start(c, now).0;
            var r := Run(s, actions);
            var plan := Schedule.Plan(GestureCount(c), 0, c.totalCyclesUserDefined);
            && Finished(c.events) <= Finished(r.events)
            && Finished(r.events)[|Finished(c.events)|..] <= plan
            && (r.state == Completed ==> Finished(r.events)[|Finished(c.events)|..] == plan)
  {
    var s := Start(c, now).0;
    var r := Run(s, actions);
    var plan := Schedule.Plan(GestureCount(c), 0, c.totalCyclesUserDefined);
    StartRunsPlan(c, now);
    RunKeepsSchedule(s, actions);
    assert Finished(r.events) + Pending(r) == Finished(c.events) + plan;
    PrefixSplit(Finished(c.events), plan, Finished(r.events), Pending(r));
  }

  lemma PrefixSplit<T>(a: seq<T>, b: seq<T>, x: seq<T>, y: seq<T>)
    requires x + y == a + b && |a| <= |x|
    ensures a <= x && x[|a|..] <= b && (y == [] ==> x[|a|..] == b)
  {
    assert (x + y)[..|a|] == a;
    assert x[..|a|] == a;
    assert x[|a|..] + y == b;
  }

  /** A run of [A, B] with two cycles that reaches COMPLETED has recorded A, B, A, B
      (`TwoGesturesTwoCyclesTicked` shows that ticks alone reach COMPLETED). */
  lemma TwoGesturesTwoCyclesSession(c: Controller, now: int, actions: seq<Action>)
    requires Valid(c) && Start(c, now).1
    requires GestureCount(c) == 2 && c.totalCyclesUserDefined == 2
    requires Run(Start(c, now).0, actions).state == Completed
    ensures Finished(c.events) <= Finished(Run(Start(c, now).0, actions).events)
    ensures var g := c.config.value.selectedGestures;
            var r := Run(Start(c, now).0, actions);
            var done := Finished(r.events)[|Finished(c.events)|..];
            && (forall k :: 0 <= k < |done| ==> done[k].gesture < 2)
            && Schedule.Names(g, done) == [g[0], g[1], g[0], g[1]]
  {
    var g := c.config.value.selectedGestures;
    var r := Run(Start(c, now).0, actions);
    SessionFinishesPlanInOrder(c, now, actions);
    var plan := Schedule.Plan(2, 0, 2);
    assert Finished(r.events)[|Finished(c.events)|..] == plan;
    Schedule.SessionFollowsPlan(2, 2);
    Schedule.TwoGesturesTwoCycles(g);
  }

  // ---------------------------------------------------------------------------
  // Reaching COMPLETED
  // ---------------------------------------------------------------------------

  /** `n` calls of `update()` at `t`, `t + d`, `t + 2d`, ... */
  function Ticks(t: int, d: int, n: nat): (acts: seq<Action>)
    ensures |acts| == n
    decreases n
  {
    if n == 0 then [] else [TickAt(t)] + Ticks(t + d, d, n - 1)
  }

  /** The first of the actions is one tick. */
  lemma RunTick(c: Controller, now: int, rest: seq<Action>)
    requires Valid(c)
    ensures Valid(Tick(c, now)) && Run(c, [TickAt(now)] + rest) == Run(Tick(c, now), rest)
  {
    TickKeepsSchedule(c, now);
    assert ([TickAt(now)] + rest)[1..] == rest;
  }

  /** Ticks change neither the configuration nor the number of cycles. */
  lemma TickKeepsConfig(c: Controller, now: int)
    requires Valid(c)
    ensures Tick(c, now).config == c.config && Tick(c, now).totalCyclesUserDefined == c.totalCyclesUserDefined
  {
  }

  /** Ticks `d` ms apart are slow enough for every phase to end at the next tick: the rest
      time, the recording duration and the fixed one-second rest each fit in `d`. */
  predicate Spaced(c: Controller, d: int)
    requires c.config.Some?
  {
    d >= Schedule.RestMs && d >= c.config.value.durationPerGesture * 1000 && d >= c.config.value.restTime * 1000
  }

  /** Ticks per recording at such a spacing: the tick that starts the countdown (skipped
      when the rest time is not positive), the one that starts the recording, the one that
      ends it and the one that ends the rest. */
  function TicksPerRecording(c: Controller): nat
    requires c.config.Some?
  {
    if c.config.value.restTime > 0 then 4 else 3
  }

  /** A running or completed session ticked every `d` ms, last at `last`: every phase under
      way started at the last tick, except a countdown whose start the next tick will take. */
  predicate Paced(c: Controller, last: int, d: int)
  {
    && Valid(c) && OnSchedule(c) && c.config.Some? && Spaced(c, d)
    && c.state in {Countdown, Recording, Resting, Completed}
    && (c.state == Countdown && c.countdownStartTime.Some? ==>
          c.countdownStartTime == Some(last) && c.config.value.restTime > 0)
    && (c.state == Recording ==> c.recordingStartTime == last)
    && (c.state == Resting ==> c.restStartTime == Some(last))
  }

  /** The ticks `p` recordings take, each started from a fresh countdown. */
  function TicksFor(c: Controller, p: int): int
    requires c.config.Some?
  {
    if c.config.value.restTime > 0 then 4 * p else 3 * p
  }

  /** The ticks such a session still needs before it is COMPLETED. */
  function TicksLeft(c: Controller): int
    requires Valid(c) && c.config.Some?
  {
    var p := |Pending(c)|;
    match c.state
    case Countdown => if c.countdownStartTime.None? then TicksFor(c, p) else TicksFor(c, p) - 1
    case Recording => 2 + TicksFor(c, p - 1)
    case Resting => 1 + TicksFor(c, p)
    case _ => 0
  }

  /** Nothing is left exactly when the session is complete. */
  lemma PacedLeft(c: Controller, last: int, d: int)
    requires Paced(c, last, d)
    ensures TicksLeft(c) >= 0 && (TicksLeft(c) == 0 <==> c.state == Completed)
  {
    if c.state in {Countdown, Recording} {
      CurrentGestureIsPendingHead(c);
    }
  }

  /** One tick of a paced session: it stays paced, completed stays completed, and otherwise
      one tick fewer is left. */
  lemma PacedTick(c: Controller, last: int, d: int) returns (r: Controller)
    requires Paced(c, last, d)
    ensures r == Tick(c, last + d) && Paced(r, last + d, d)
    ensures c.state == Completed ==> r.state == Completed
    ensures c.state != Completed ==> TicksLeft(r) == TicksLeft(c) - 1
  {
    var now := last + d;
    TickKeepsSchedule(c, now);
    TickKeepsConfig(c, now);
    r := Tick(c, now);
    match c.state {
      case Countdown =>
        CountdownTiming(c, now);
        TickCountdown(c, now);
        CurrentGestureIsPendingHead(c);
      case Recording =>
        RecordingTiming(c, now);
        TickEndsRecording(c, now);
      case Resting =>
        RestingTiming(c, now);
        TickResting(c, now);
        if r.state == Countdown {
          CurrentGestureIsPendingHead(r);
        }
      case Completed =>
    }
  }

  /** `update()` as a total step: a session that is not `Valid` is left as it is. */
  function Step(c: Controller, now: int): Controller
  {
    if Valid(c) then Tick(c, now) else c
  }

  /** `step` applied `n` times, at `t`, `t + d`, `t + 2d`, ... */
  function Iterate(step: (Controller, int) -> Controller, c: Controller, t: int, d: int, n: nat): Controller
    decreases n
  {
    if n == 0 then c else Iterate(step, step(c, t), t + d, d, n - 1)
  }

  /** Running the actions `Ticks(t, d, n)` is iterating `Step` `n` times. */
  lemma {:induction false} RunTicks(c: Controller, t: int, d: int, n: nat)
    requires Valid(c)
    ensures Run(c, Ticks(t, d, n)) == Iterate(Step, c, t, d, n)
    decreases n
  {
    if n > 0 {
      RunTick(c, t, Ticks(t + d, d, n - 1));
      assert Step(c, t) == Tick(c, t);
      RunTicks(Tick(c, t), t + d, d, n - 1);
    }
  }

  /** One step `d` ms after the last keeps a paced session paced and counts down the ticks
      it needs. */
  predicate Advances(step: (Controller, int) -> Controller, c: Controller, last: int, d: int)
    requires Paced(c, last, d)
  {
    var r := step(c, last + d);
    && Paced(r, last + d, d)
    && (c.state == Completed ==> r.state == Completed)
    && (c.state != Completed ==> TicksLeft(r) == TicksLeft(c) - 1)
  }

  /** `Tick` advances every paced session. */
  lemma TickAdvances(c: Controller, last: int, d: int)
    requires Paced(c, last, d)
    ensures Advances(Step, c, last, d)
  {
    var r := PacedTick(c, last, d);
    assert Step(c, last + d) == r;
  }

  /** Liveness, for any step that advances paced sessions: a paced session last stepped at
      `last`, stepped `TicksLeft` more times at the same spacing, is COMPLETED. */
  lemma {:induction false} PacedRunCompletes(step: (Controller, int) -> Controller, c: Controller, last: int, d: int, n: nat)
    requires forall x, l {:trigger Advances(step, x, l, d)} :: Paced(x, l, d) ==> Advances(step, x, l, d)
    requires Paced(c, last, d) && n >= TicksLeft(c)
    ensures Iterate(step, c, last + d, d, n).state == Completed
    decreases n
  {
    PacedLeft(c, last, d);
    if n > 0 {
      assert Advances(step, c, last, d);
      PacedRunCompletes(step, step(c, last + d), last + d, d, n - 1);
    }
  }

  /** A successful start, ticked `TicksPerRecording` times per planned recording at such a
      spacing, completes the session after recording the whole plan in order. */
  lemma TickedSessionCompletes(c: Controller, now: int, t: int, d: int, n: nat)
    requires Valid(c) && Start(c, now).1 && Spaced(c, d)
    requires n >= TicksPerRecording(c) * |Schedule.Plan(GestureCount(c), 0, c.totalCyclesUserDefined)|
    ensures Finished(c.events) <= Finished(Run(Start(c, now).0, Ticks(t, d, n)).events)
    ensures var r := Run(Start(c, now).0, Ticks(t, d, n));
            && r.state == Completed
            && Finished(r.events)[|Finished(c.events)|..] == Schedule.Plan(GestureCount(c), 0, c.totalCyclesUserDefined)
  {
    StartRunsPlan(c, now);
    var s := Start(c, now).0;
    SessionFinishesPlanInOrder(c, now, Ticks(t, d, n));
    var c1 := c.(sessionStats := c.sessionStats.(startTime := Some(now)),
                 currentGestureIndex := 0, currentSeries := 0, currentCycle := 0);
    assert s == StartNextRecording(ChangeState(c1, Preparing));
    assert Paced(s, t - d, d);
    assert t - d + d == t;
    forall x, l | Paced(x, l, d)
      ensures Advances(Step, x, l, d)
    {
      TickAdvances(x, l, d);
    }
    PacedRunCompletes(Step, s, t - d, d, n);
    RunTicks(s, t, d, n);
  }

  /** [A, B] with two cycles, ticked sixteen times at such a spacing, records A, B, A, B
      and completes. */
  lemma TwoGesturesTwoCyclesTicked(c: Controller, now: int, t: int, d: int)
    requires Valid(c) && Start(c, now).1 && Spaced(c, d)
    requires GestureCount(c) == 2 && c.totalCyclesUserDefined == 2
    ensures Finished(c.events) <= Finished(Run(Start(c, now).0, Ticks(t, d, 16)).events)
    ensures var g := c.config.value.selectedGestures;
            var r := Run(Start(c, now).0, Ticks(t, d, 16));
            var done := Finished(r.events)[|Finished(c.events)|..];
            && r.state == Completed
            && (forall k :: 0 <= k < |done| ==> done[k].gesture < 2)
            && Schedule.Names(g, done) == [g[0], g[1], g[0], g[1]]
  {
    var g := c.config.value.selectedGestures;
    Schedule.SessionFollowsPlan(2, 2);
    Schedule.TwoGesturesTwoCycles(g);
    assert |Schedule.Plan(2, 0, 2)| == 4;
    TickedSessionCompletes(c, now, t, d, 16);
    TwoGesturesTwoCyclesSession(c, now, Ticks(t, d, 16));
  }

  /** Configured with gestures "A" and "B", one-second recordings, no rest time and two
      cycles, and started at 0, the session is COMPLETED by the twelfth tick one second
      apart, having recorded A, B, A, B. */
  lemma ExampleSessionCompletes()
    ensures var c := Configure(Init(), ["A", "B"], 1, 1, 0, 2).0;
            var r := Run(Start(c, 0).0, Ticks(0, 1000, 12));
            && Start(c, 0).1
            && r.state == Completed
            && Finished(r.events) == Schedule.Plan(2, 0, 2)
  {
    var c := Configure(Init(), ["A", "B"], 1, 1, 0, 2).0;
    InitValid();
    ConfigureKeepsValid(Init(), ["A", "B"], 1, 1, 0, 2);
    assert Finished(c.events) == [];
    Schedule.SessionFollowsPlan(2, 2);
    Schedule.TwoGesturesTwoCycles(["A", "B"]);
    assert |Schedule.Plan(2, 0, 2)| == 4;
    TickedSessionCompletes(c, 0, 0, 1000, 12);
  }

  // ---------------------------------------------------------------------------
  // What the status reports
  // ---------------------------------------------------------------------------

  /** The gesture reported while counting down or recording is the head of the pending
      recordings. */
  lemma CurrentGestureIsPendingHead(c: Controller)
    requires Valid(c) && c.state in {Countdown, Recording}
    ensures Pending(c) != []
    ensures var head := Pending(c)[0];
            && head.gesture < GestureCount(c)
            && CurrentGesture(c) == Current(c.config.value.selectedGestures[head.gesture], head.gesture,
                                            c.currentSeries + 1, head.cycle + 1, c.totalCyclesUserDefined)
  {
  }

  /** Progress reaches 100 in the rest after the last recording, stays below 100 while a
      recording is under way, and is 100 at completion. */
  lemma ProgressTracksPending(c: Controller)
    requires Valid(c) && c.config.Some? && c.totalCyclesUserDefined >= 1
    ensures c.state == Resting ==> (Status(c).progressPercentage == 100.0 <==> Pending(c) == [])
    ensures OnSchedule(c) && c.state in {Countdown, Recording} ==> Status(c).progressPercentage < 100.0
    ensures OnSchedule(c) && c.state == Completed ==> Status(c).progressPercentage == 100.0
  {
    var n, t := GestureCount(c), c.totalCyclesUserDefined;
    var i, cy := c.currentGestureIndex, c.currentCycle;
    Schedule.MulMonotone(1, t, n);
    assert n * t >= 1;
    Schedule.ProgressFullIffNothingLeft(i, cy, n, t);
    if OnSchedule(c) && c.state in {Countdown, Recording} {
      assert Schedule.Visits(i, cy, n, t) != [];
    }
  }

  /** The estimated time remaining counts exactly the pending recordings, each taking the
      recording duration plus the configured rest time. */
  lemma TimeRemainingCountsPending(c: Controller)
    requires Valid(c) && OnSchedule(c) && c.state in {Countdown, Recording, Resting, Paused}
    ensures Schedule.ParseHms(TimeRemaining(c))
            == Some(|Pending(c)| * (c.config.value.durationPerGesture + c.config.value.restTime))
  {
    var n, t := GestureCount(c), c.totalCyclesUserDefined;
    var i, cy := c.currentGestureIndex, c.currentCycle;
    var seconds := Schedule.RemainingRecordings(n, i, t, cy)
                   * (c.config.value.durationPerGesture + c.config.value.restTime);
    assert TimeRemaining(c) == Schedule.FormatHms(seconds);
    PendingLength(c);
    Schedule.HmsRoundTrip(seconds);
  }

  lemma PendingLength(c: Controller)
    requires Valid(c) && OnSchedule(c) && c.state in {Countdown, Recording, Resting, Paused}
    ensures |Pending(c)| == Schedule.RemainingRecordings(GestureCount(c), c.currentGestureIndex,
                                                         c.totalCyclesUserDefined, c.currentCycle)
  {
    var n, t := GestureCount(c), c.totalCyclesUserDefined;
    var i, cy := c.currentGestureIndex, c.currentCycle;
    if c.state in {Countdown, Recording} {
      Schedule.RemainingCountsVisits(i + 1, cy, n, t);
    } else {
      Schedule.RemainingCountsVisits(i, cy, n, t);
    }
  }
}
