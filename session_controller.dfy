/** `GestureSessionController` of system_data/session_controller.py: the operations of the
    `Session` functions, performed step by step on the controller's fields. Each method is
    specified by the function of the same name, so every property proved there holds of the
    object. The callbacks are the ghost log `events`; times are milliseconds. */
module SessionController {
  import opened Wrappers
  import Schedule
  import opened Session

  class GestureSessionController {
    var state: SessionState
    var config: Option<SessionConfig>
    var currentGestureIndex: nat
    var currentSeries: nat
    var currentCycle: nat
    var totalCyclesUserDefined: int
    var samplesCapturedThisRecording: nat
    var countdownRemaining: int
    var recordingStartTime: int
    var lastUpdateTime: int
    var countdownStartTime: Option<int>
    var restStartTime: Option<int>
    var sessionStats: SessionStats
    ghost var events: seq<Event>

    /** The fields as a `Session.Controller` value. */
    ghost function Snap(): Controller
      reads this
    {
      Controller(state, config, currentGestureIndex, currentSeries, currentCycle, totalCyclesUserDefined,
                 samplesCapturedThisRecording, countdownRemaining, recordingStartTime, lastUpdateTime,
                 countdownStartTime, restStartTime, sessionStats, events)
    }

    ghost predicate Valid()
      reads this
    {
      Session.Valid(Snap())
    }

    constructor()
      ensures Snap() == Session.Init()
      ensures Valid()
    {
      state := Idle;
      config := None;
      currentGestureIndex := 0;
      currentSeries := 0;
      currentCycle := 0;
      totalCyclesUserDefined := 0;
      samplesCapturedThisRecording := 0;
      countdownRemaining := 0;
      recordingStartTime := 0;
      lastUpdateTime := 0;
      countdownStartTime := None;
      restStartTime := None;
      sessionStats := SessionStats(None, 0, map[], 0, None);
      events := [];
    }

    method ConfigureSession(selectedGestures: seq<string>, seriesCount: int, durationPerGesture: int,
                            restTime: int, userCycles: int) returns (ok: bool)
      modifies this
      ensures (Snap(), ok) == Session.Configure(old(Snap()), selectedGestures, seriesCount, durationPerGesture,
                                                 restTime, userCycles)
    {
      ghost var c0 := Snap();
      if |selectedGestures| == 0 {
        TriggerError(NoGesturesSelected);
        return false;
      }
      if durationPerGesture < 1 || durationPerGesture > 60 {
        TriggerError(DurationOutOfRange);
        return false;
      }
      config := Some(SessionConfig(selectedGestures, seriesCount, durationPerGesture, restTime));
      totalCyclesUserDefined := if userCycles > 0 then userCycles else seriesCount;
      currentGestureIndex := 0;
      currentSeries := 0;
      currentCycle := 0;
      samplesCapturedThisRecording := 0;
      sessionStats := SessionStats(None, 0, Session.ZeroCounts(selectedGestures), 0,
                                   Some(|selectedGestures| * totalCyclesUserDefined));
      ok := true;
      assert Snap() == c0.(config := config, totalCyclesUserDefined := totalCyclesUserDefined,
                           currentGestureIndex := 0, currentSeries := 0, currentCycle := 0,
                           samplesCapturedThisRecording := 0, sessionStats := sessionStats);
    }

    /** `start_session`; `now` is the start time recorded in the statistics. */
    method StartSession(now: int) returns (ok: bool)
      modifies this
      ensures (Snap(), ok) == Session.Start(old(Snap()), now)
    {
      if state != Idle {
        TriggerError(CannotStartIn(state));
        return false;
      }
      if config.None? {
        TriggerError(NotConfigured);
        return false;
      }
      ghost var c0 := Snap();
      sessionStats := sessionStats.(startTime := Some(now));
      currentGestureIndex := 0;
      currentSeries := 0;
      currentCycle := 0;
      ghost var c1 := Snap();
      assert c1 == c0.(sessionStats := c0.sessionStats.(startTime := Some(now)),
                       currentGestureIndex := 0, currentSeries := 0, currentCycle := 0);
      ChangeState(Preparing);
      assert Snap() == Session.ChangeState(c1, Preparing);
      StartNextRecording();
      ok := true;
    }

    method StopSession() returns (ok: bool)
      modifies this
      ensures Snap() == Session.Stop(old(Snap())) && ok
    {
      if state == Idle {
        return true;
      }
      ChangeState(Idle);
      ok := true;
    }

    method PauseSession() returns (ok: bool)
      modifies this
      ensures (Snap(), ok) == Session.Pause(old(Snap()))
    {
      if state in {Countdown, Recording, Resting} {
        ChangeState(Paused);
        return true;
      }
      ok := false;
    }

    method ResumeSession() returns (ok: bool)
      requires state == Paused ==> config.Some?
      modifies this
      ensures (Snap(), ok) == Session.Resume(old(Snap()))
    {
      if state == Paused {
        ChangeState(Preparing);
        StartNextRecording();
        return true;
      }
      ok := false;
    }

    /** `update()` at time `now`. */
    method Update(now: int) returns (status: SessionStatus)
      requires Valid() && sessionStats.totalRecordingsPlanned.Some?
      modifies this
      ensures Snap() == Session.Tick(old(Snap()), now)
      ensures sessionStats.totalRecordingsPlanned.Some? && status == Session.Status(Snap())
    {
      if state == Countdown {
        UpdateCountdown(now);
      } else if state == Recording {
        UpdateRecording(now);
      } else if state == Resting {
        UpdateResting(now);
      }
      lastUpdateTime := now;
      status := GetSessionStatus();
    }

    method IncrementSampleCount() returns (ok: bool)
      modifies this
      ensures (Snap(), ok) == Session.Increment(old(Snap()))
    {
      if state == Recording {
        samplesCapturedThisRecording := samplesCapturedThisRecording + 1;
        sessionStats := sessionStats.(totalSamples := sessionStats.totalSamples + 1);
        return true;
      }
      ok := false;
    }

    function GetCurrentGestureInfo(): (info: GestureInfo)
      reads this
      ensures info == Session.CurrentGesture(Snap())
    {
      if config.None? || currentGestureIndex >= |config.value.selectedGestures| then NoGesture
      else Current(config.value.selectedGestures[currentGestureIndex], currentGestureIndex,
                   currentSeries + 1, currentCycle + 1, totalCyclesUserDefined)
    }

    function CalculateTimeRemaining(): (s: string)
      reads this
      ensures s == Session.TimeRemaining(Snap())
    {
      if config.None? || state in {Idle, Completed} then "0:00:00"
      else
        var n := |config.value.selectedGestures|;
        Schedule.FormatHms(Schedule.RemainingRecordings(n, currentGestureIndex, totalCyclesUserDefined, currentCycle)
                           * (config.value.durationPerGesture + config.value.restTime))
    }

    function GetSessionStatus(): (s: SessionStatus)
      requires sessionStats.totalRecordingsPlanned.Some?
      reads this
      ensures s == Session.Status(Snap())
    {
      var planned := sessionStats.totalRecordingsPlanned.value;
      var n := if config.Some? then |config.value.selectedGestures| else 0;
      var progress := if planned > 0 then Schedule.Progress(currentCycle * n + currentGestureIndex, planned) else 0.0;
      SessionStatus(state, GetCurrentGestureInfo(), countdownRemaining, progress, sessionStats,
                    state == Recording, samplesCapturedThisRecording, CalculateTimeRemaining())
    }

    // Private helpers

    method ChangeState(newState: SessionState)
      modifies this
      ensures Snap() == Session.ChangeState(old(Snap()), newState)
    {
      var oldState := state;
      state := newState;
      if newState != Countdown {
        countdownStartTime := None;
      }
      events := events + [StateChanged(oldState, newState)];
    }

    method TriggerError(kind: ErrorKind)
      modifies this
      ensures Snap() == Session.TriggerError(old(Snap()), kind)
    {
      ChangeState(Error);
      events := events + [ErrorRaised(kind)];
    }

    method CompleteSession()
      modifies this
      ensures Snap() == Session.CompleteSession(old(Snap()))
    {
      ChangeState(Completed);
      events := events + [SessionCompleted(sessionStats)];
    }

    method StartNextRecording()
      requires config.Some?
      modifies this
      ensures Snap() == Session.StartNextRecording(old(Snap()))
    {
      ghost var c0 := Snap();
      ghost var st := Schedule.NextRecording(currentGestureIndex, currentCycle,
                                             |config.value.selectedGestures|, totalCyclesUserDefined);
      if currentCycle >= totalCyclesUserDefined {
        assert st == Schedule.Step(currentGestureIndex, currentCycle, true);
        CompleteSession();
        return;
      }
      if currentGestureIndex >= |config.value.selectedGestures| {
        currentGestureIndex := 0;
        currentCycle := currentCycle + 1;
        if currentCycle >= totalCyclesUserDefined {
          assert Snap() == c0.(currentGestureIndex := st.index, currentCycle := st.cycle) && st.completed;
          CompleteSession();
          return;
        }
      }
      ghost var c1 := Snap();
      assert c1 == c0.(currentGestureIndex := st.index, currentCycle := st.cycle) && !st.completed;
      var info := GetCurrentGestureInfo();
      events := events + [GestureChanged(info)];
      countdownRemaining := config.value.restTime;
      assert Snap() == c1.(events := c1.events + [GestureChanged(info)], countdownRemaining := c0.config.value.restTime);
      ChangeState(Countdown);
    }

    method UpdateCountdown(now: int)
      requires config.Some?
      modifies this
      ensures Snap() == Session.UpdateCountdown(old(Snap()), now)
    {
      if countdownStartTime.None? {
        countdownStartTime := Some(now);
      }
      var elapsed := now - countdownStartTime.value;
      countdownRemaining := Schedule.CountdownRemaining(config.value.restTime, elapsed);
      events := events + [CountdownTick(countdownRemaining)];
      if countdownRemaining <= 0 {
        StartRecording(now);
      }
    }

    method StartRecording(now: int)
      modifies this
      ensures Snap() == Session.StartRecording(old(Snap()), now)
    {
      recordingStartTime := now;
      samplesCapturedThisRecording := 0;
      var info := GetCurrentGestureInfo();
      ChangeState(Recording);
      events := events + [RecordingStarted(info)];
    }

    method UpdateRecording(now: int)
      requires config.Some? && Session.CurrentGesture(Snap()).Name() in sessionStats.gesturesCompleted
      modifies this
      ensures Snap() == Session.UpdateRecording(old(Snap()), now)
    {
      var elapsed := now - recordingStartTime;
      if elapsed >= config.value.durationPerGesture * 1000 {
        StopRecording(now);
      }
    }

    method StopRecording(now: int)
      requires Session.CurrentGesture(Snap()).Name() in sessionStats.gesturesCompleted
      modifies this
      ensures Snap() == Session.StopRecording(old(Snap()), now)
    {
      var info := GetCurrentGestureInfo();
      var name := info.Name();
      var done := sessionStats.gesturesCompleted;
      sessionStats := sessionStats.(gesturesCompleted := done[name := done[name] + 1]);
      events := events + [RecordingEnded(info, samplesCapturedThisRecording)];
      currentGestureIndex := currentGestureIndex + 1;
      ChangeState(Resting);
      restStartTime := Some(now);
    }

    method UpdateResting(now: int)
      requires config.Some?
      modifies this
      ensures Snap() == Session.UpdateResting(old(Snap()), now)
    {
      if restStartTime.None? {
        restStartTime := Some(now);
      }
      var elapsed := now - restStartTime.value;
      if elapsed >= Schedule.RestMs {
        ChangeState(Preparing);
        StartNextRecording();
      }
    }
  }
}
