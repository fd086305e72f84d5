/** The recording glue of the two applications: the handlers that decide whether a frame
    becomes a sample, which label it gets, and how sessions are started, paused and stopped.
    `AutoApp` is `AutoEMGApp` of Toma_de_datos/main_app.py; `MainApp` is `MainGestureApp`
    of system_data/main_app.py. Each owns a session controller and a dataset manager, given
    here as their `Session` and `Dataset` snapshots. */
module Capture {
  import opened Wrappers
  import opened Values
  import Text
  import Session
  import Dataset
  import EmgIngest

  // ---------------------------------------------------------------------------
  // Labels
  // ---------------------------------------------------------------------------

  /** The gestures `_start_auto_session` always configures. */
  const AutoGestures: seq<string> := ["CERRAR_MANO", "PINZA", "SALUDAR", "TOMAR_OBJ"]

  /** The gestures `MainGestureApp` offers, in check-box order. */
  const AvailableGestures: seq<string> := ["REPOSO", "CERRAR_MANO", "PINZA", "SALUDAR", "TOMAR_OBJETO"]

  /** `gesture_mapping.get(name, 0)` of `_on_emg_data_ready`. */
  function AutoGestureId(name: string): int
  {
    if name == "CERRAR_MANO" then 1
    else if name == "PINZA" then 2
    else if name == "SALUDAR" then 3
    else if name == "TOMAR_OBJ" then 4
    else 0
  }

  /** The automatic gestures are numbered 1 to 4 in list order; any other name is 0. */
  lemma AutoGestureIds(name: string)
    ensures forall k :: 0 <= k < |AutoGestures| ==> AutoGestureId(AutoGestures[k]) == k + 1
    ensures name !in AutoGestures ==> AutoGestureId(name) == 0
  {
  }

  /** The position of `x` in `xs`, which holds it. */
  function FirstIndex(xs: seq<string>, x: string): (i: nat)
    requires x in xs
    ensures i < |xs| && xs[i] == x && forall j :: 0 <= j < i ==> xs[j] != x
    decreases |xs|
  {
    if xs[0] == x then 0 else FirstIndex(xs[1..], x) + 1
  }

  /** `available_gestures.index(name) if name in available_gestures else 0`. */
  function MainGestureId(name: string): nat
  {
    if name in AvailableGestures then FirstIndex(AvailableGestures, name) else 0
  }

  /** Each offered gesture is labelled with its position in the list (so REPOSO is 0, like
      any name not in the list). */
  lemma MainGestureIds(name: string)
    ensures forall k :: 0 <= k < |AvailableGestures| ==> MainGestureId(AvailableGestures[k]) == k
    ensures name !in AvailableGestures ==> MainGestureId(name) == 0
  {
    forall k | 0 <= k < |AvailableGestures| ensures MainGestureId(AvailableGestures[k]) == k {
      var i := FirstIndex(AvailableGestures, AvailableGestures[k]);
      assert |AvailableGestures[i]| == |AvailableGestures[k]|;
    }
  }

  /** The checked gestures, in the order of the list. */
  function Selected(gestures: seq<string>, checked: set<string>): (r: seq<string>)
    ensures forall x :: x in r <==> x in gestures && x in checked
    decreases |gestures|
  {
    if |gestures| == 0 then []
    else (if gestures[0] in checked then [gestures[0]] else []) + Selected(gestures[1..], checked)
  }

  // ---------------------------------------------------------------------------
  // The EMG worker (Toma_de_datos/main_app.py)
  // ---------------------------------------------------------------------------

  /** What `EMGMonitorWorker.run` emits on each 50 ms turn: the latest raw frame or `{}`,
      the features, and whether the sensor is live. Nothing says whether a new frame arrived
      since the last turn. */
  function WorkerEmit(p: EmgIngest.Processor, now: int): (Dict, Dict, bool)
  {
    var raw := EmgIngest.LatestEmgData(p);
    (if raw.Some? then raw.value else map[], EmgIngest.GetEmgFeatures(p), EmgIngest.IsSensorConnected(p, now))
  }

  /** `clean_features`: each value from `features`, else from the raw frame, else 0, through
      `float(...)` or `int(...)`; `None` when a conversion raises. */
  function CleanFeatures(features: Dict, raw: Dict): Option<Dict>
  {
    var e1 := PyFloat(Get(features, Emg1Raw, Get(raw, Emg1, IntValue(0))));
    var e2 := PyFloat(Get(features, Emg2Raw, Get(raw, Emg2, IntValue(0))));
    var e3 := PyFloat(Get(features, Emg3Raw, Get(raw, Emg3, IntValue(0))));
    var st := PyInt(Get(features, SessionTime, Get(raw, SessionTime, IntValue(0))));
    var ts := PyInt(Get(features, Esp32Timestamp, Get(raw, Timestamp, IntValue(0))));
    if e1.None? || e2.None? || e3.None? || st.None? || ts.None? then None
    else Some(map[Emg1Raw := FloatValue(e1.value), Emg2Raw := FloatValue(e2.value), Emg3Raw := FloatValue(e3.value),
                  SessionTime := IntValue(st.value), Esp32Timestamp := IntValue(ts.value)])
  }

  /** The features of the EMG processor always clean: the result is the frame's readings (or
      zeros), and the dataset manager accepts it with the same values. */
  lemma EmgFeaturesClean(p: EmgIngest.Processor, raw: Dict)
    ensures var features := EmgIngest.GetEmgFeatures(p);
            var clean := CleanFeatures(features, raw);
            && clean.Some?
            && Dataset.Convert(clean.value).Some?
            && Dataset.Convert(clean.value).value == Dataset.Convert(features).value
            && (p.lastEmgData.Some? ==> var f := p.lastEmgData.value;
                  Dataset.Convert(clean.value).value == Dataset.Readings(f.emg1, f.emg2, f.emg3, f.sessionTime, f.timestamp))
            && (p.lastEmgData.None? ==> Dataset.Convert(clean.value).value == Dataset.Readings(0.0, 0.0, 0.0, 0, 0))
  {
    EmgIngest.FeaturesOfLatestFrame(p);
  }

  // ---------------------------------------------------------------------------
  // AutoEMGApp (Toma_de_datos/main_app.py)
  // ---------------------------------------------------------------------------

  datatype AutoApp = AutoApp(controller: Session.Controller, recorder: Dataset.Recorder,
                             autoCaptureActive: bool, isSensorConnected: bool, currentFeatures: Dict)

  function AutoInit(): AutoApp
  {
    AutoApp(Session.Init(), Dataset.Init(), false, false, map[])
  }

  /** Whether `_on_emg_data_ready` goes on to record: RECORDING, automatic capture on, and
      non-empty features. The connection is not looked at. */
  predicate AutoCaptures(app: AutoApp, features: Dict)
  {
    app.controller.state == Session.Recording && app.autoCaptureActive && |features| > 0
  }

  /** `_on_emg_data_ready(raw_data, features, is_connected)`; `isoNow` is the receipt time the
      record gets. The label is read from the controller at this moment; the controller's
      count goes up only when the sample was added. A failed conversion raises and is caught:
      nothing is recorded. */
  function OnEmgDataReady(app: AutoApp, raw: Dict, features: Dict, isConnected: bool, isoNow: string): AutoApp
  {
    var a := app.(isSensorConnected := isConnected, currentFeatures := features);
    if !AutoCaptures(app, features) then a
    else
      var info := Session.CurrentGesture(app.controller);
      var clean := CleanFeatures(features, raw);
      if clean.None? then a
      else
        var (r, ok) := Dataset.AddSample(app.recorder, clean.value, AutoGestureId(info.Name()), info.Name(),
                                         info.Cycle(), None, isoNow);
        if ok then a.(recorder := r, controller := Session.Increment(app.controller).0) else a
  }

  /** A sample is added only when `AutoCaptures` holds, and the controller counts exactly
      the samples added. */
  lemma AutoRecordsOnlyWhileCapturing(app: AutoApp, raw: Dict, features: Dict, isConnected: bool, isoNow: string)
    ensures var r := OnEmgDataReady(app, raw, features, isConnected, isoNow);
            && r.isSensorConnected == isConnected && r.currentFeatures == features
            && r.autoCaptureActive == app.autoCaptureActive
            && (!AutoCaptures(app, features) ==> r.recorder == app.recorder && r.controller == app.controller)
            && (r.recorder == app.recorder ==> r.controller == app.controller)
            && (r.recorder != app.recorder ==>
                  && AutoCaptures(app, features)
                  && r.recorder.dataset == app.recorder.dataset + [r.recorder.dataset[|app.recorder.dataset|]]
                  && r.controller.sessionStats.totalSamples == app.controller.sessionStats.totalSamples + 1)
  {
  }

  /** The sample added carries the controller's current gesture, its automatic number and
      its cycle number, read when the data arrived. */
  lemma AutoRecordLabel(app: AutoApp, raw: Dict, features: Dict, isConnected: bool, isoNow: string)
    ensures var r := OnEmgDataReady(app, raw, features, isConnected, isoNow);
            var info := Session.CurrentGesture(app.controller);
            r.recorder != app.recorder ==>
              && |r.recorder.dataset| == |app.recorder.dataset| + 1
              && var d := r.recorder.dataset[|app.recorder.dataset|];
                 && GestureName in d && d[GestureName] == StrValue(info.Name())
                 && GestureId in d && d[GestureId] == IntValue(AutoGestureId(info.Name()))
                 && SeriesNumber in d && d[SeriesNumber] == IntValue(info.Cycle())
  {
    var info := Session.CurrentGesture(app.controller);
    var clean := CleanFeatures(features, raw);
    if AutoCaptures(app, features) && clean.Some? {
      var res := Dataset.AddSample(app.recorder, clean.value, AutoGestureId(info.Name()), info.Name(),
                                   info.Cycle(), None, isoNow);
      if res.1 {
        Dataset.RecordFields(clean.value, AutoGestureId(info.Name()), info.Name(), info.Cycle(), None, isoNow,
                             PyStrOfText(app.recorder.sessionId), |app.recorder.dataset| + 1);
      }
    }
  }

  /** While capturing, every turn of the EMG worker adds a sample with the latest frame's
      readings (zeros before the first frame), whether or not a new frame arrived since the
      previous turn. */
  lemma EveryEmissionIsRecorded(app: AutoApp, p: EmgIngest.Processor, now: int, isoNow: string)
    requires app.controller.state == Session.Recording && app.autoCaptureActive
    ensures var (raw, features, live) := WorkerEmit(p, now);
            var r := OnEmgDataReady(app, raw, features, live, isoNow);
            && |r.recorder.dataset| == |app.recorder.dataset| + 1
            && r.controller.sessionStats.totalSamples == app.controller.sessionStats.totalSamples + 1
            && var d := r.recorder.dataset[|app.recorder.dataset|];
               var e := EmgIngest.GetEmgFeatures(p);
               && Emg1Raw in d && d[Emg1Raw] == e[Emg1Raw]
               && Emg2Raw in d && d[Emg2Raw] == e[Emg2Raw]
               && Emg3Raw in d && d[Emg3Raw] == e[Emg3Raw]
  {
    var (raw, features, live) := WorkerEmit(p, now);
    EmgIngest.FeaturesOfLatestFrame(p);
    EmgFeaturesClean(p, raw);
    var info := Session.CurrentGesture(app.controller);
    var clean := CleanFeatures(features, raw).value;
    Dataset.RecordFields(clean, AutoGestureId(info.Name()), info.Name(), info.Cycle(), None, isoNow,
                         PyStrOfText(app.recorder.sessionId), |app.recorder.dataset| + 1);
  }

  /** `_start_auto_session`: configure the four automatic gestures (three series by
      default); on success (the data is cleared by a new dataset session, the controller is
      started) automatic capture is switched on whether or not the start succeeded. */
  function StartAutoSession(app: AutoApp, duration: int, cycles: int, restTime: int, stamp: string, now: int): AutoApp
  {
    var (c1, ok) := Session.Configure(app.controller, AutoGestures, 3, duration, restTime, cycles);
    if !ok then app.(controller := c1)
    else
      var r := Dataset.StartNewSession(app.recorder, stamp, now).0;
      var c2 := Session.Start(c1, now).0;
      app.(controller := c2, recorder := r, autoCaptureActive := true)
  }

  lemma StartAutoSessionEffects(app: AutoApp, duration: int, cycles: int, restTime: int, stamp: string, now: int)
    ensures var r := StartAutoSession(app, duration, cycles, restTime, stamp, now);
            && (1 <= duration <= 60 ==>
                  && r.autoCaptureActive && r.recorder.dataset == [] && r.recorder.totalSamples == 0
                  && r.controller.config.Some? && r.controller.config.value.selectedGestures == AutoGestures
                  && (r.controller.state == Session.Countdown <==> app.controller.state == Session.Idle)
                  && (app.controller.state != Session.Idle ==> r.controller.state == Session.Error))
            && (!(1 <= duration <= 60) ==>
                  r.recorder == app.recorder && r.autoCaptureActive == app.autoCaptureActive
                  && r.controller.state == Session.Error)
  {
    var (c1, ok) := Session.Configure(app.controller, AutoGestures, 3, duration, restTime, cycles);
    if ok && app.controller.state == Session.Idle {
      // At least one cycle is planned, so the first recording is left: a countdown.
      assert c1.totalCyclesUserDefined >= 1;
    }
  }

  /** `_stop_session`. */
  function StopAutoSession(app: AutoApp): (r: AutoApp)
    ensures r.controller.state == Session.Idle && !r.autoCaptureActive && r.recorder == app.recorder
  {
    app.(controller := Session.Stop(app.controller), autoCaptureActive := false)
  }

  /** After a stop no emission is recorded until the next start. */
  lemma StoppedAppRecordsNothing(app: AutoApp, raw: Dict, features: Dict, isConnected: bool, isoNow: string)
    ensures var s := StopAutoSession(app);
            OnEmgDataReady(s, raw, features, isConnected, isoNow).recorder == app.recorder
  {
  }

  /** `closeEvent` of the automatic application: a session that is not IDLE is stopped;
      automatic capture is left as it was. */
  function AutoCloseEvent(app: AutoApp): (r: AutoApp)
    ensures r.controller.state == Session.Idle && r.recorder == app.recorder
    ensures r.autoCaptureActive == app.autoCaptureActive
    ensures app.controller.state == Session.Idle ==> r == app
  {
    if app.controller.state != Session.Idle then app.(controller := Session.Stop(app.controller)) else app
  }

  // ---------------------------------------------------------------------------
  // MainGestureApp (system_data/main_app.py)
  // ---------------------------------------------------------------------------

  datatype MainApp = MainApp(controller: Session.Controller, recorder: Dataset.Recorder,
                             isSensorConnected: bool, currentFeatures: Dict)

  function MainInit(): MainApp
  {
    MainApp(Session.Init(), Dataset.Init(), false, map[])
  }

  /** Whether `_on_frame_ready` records: RECORDING, non-empty features, a live sensor. */
  predicate MainCaptures(app: MainApp, features: Dict, isConnected: bool)
  {
    app.controller.state == Session.Recording && |features| > 0 && isConnected
  }

  /** `_on_frame_ready(frame, features, is_connected)`: the sample count is incremented after
      `add_sample` whatever it returned. */
  function OnFrameReady(app: MainApp, features: Dict, isConnected: bool, isoNow: string): MainApp
  {
    var a := app.(isSensorConnected := isConnected, currentFeatures := features);
    if !MainCaptures(app, features, isConnected) then a
    else
      var info := Session.CurrentGesture(app.controller);
      var r := Dataset.AddSample(app.recorder, features, MainGestureId(info.Name()), info.Name(),
                                 info.Cycle(), None, isoNow).0;
      a.(recorder := r, controller := Session.Increment(app.controller).0)
  }

  /** A frame is recorded only when `MainCaptures` holds, labelled with the controller's
      current gesture and its position in the offered list; the controller's count goes up
      on every such frame, added or not. */
  lemma MainRecordsOnlyWhileCapturing(app: MainApp, features: Dict, isConnected: bool, isoNow: string)
    ensures var r := OnFrameReady(app, features, isConnected, isoNow);
            && r.isSensorConnected == isConnected && r.currentFeatures == features
            && (!MainCaptures(app, features, isConnected) ==> r.recorder == app.recorder && r.controller == app.controller)
            && (MainCaptures(app, features, isConnected) ==>
                  r.controller.sessionStats.totalSamples == app.controller.sessionStats.totalSamples + 1)
            && (r.recorder != app.recorder ==>
                  var info := Session.CurrentGesture(app.controller);
                  && MainCaptures(app, features, isConnected)
                  && |r.recorder.dataset| == |app.recorder.dataset| + 1
                  && var d := r.recorder.dataset[|app.recorder.dataset|];
                     && GestureName in d && d[GestureName] == StrValue(info.Name())
                     && GestureId in d && d[GestureId] == IntValue(MainGestureId(info.Name()))
                     && SeriesNumber in d && d[SeriesNumber] == IntValue(info.Cycle()))
  {
    if MainCaptures(app, features, isConnected) {
      var info := Session.CurrentGesture(app.controller);
      var res := Dataset.AddSample(app.recorder, features, MainGestureId(info.Name()), info.Name(),
                                   info.Cycle(), None, isoNow);
      if res.1 {
        Dataset.RecordFields(features, MainGestureId(info.Name()), info.Name(), info.Cycle(), None, isoNow,
                             PyStrOfText(app.recorder.sessionId), |app.recorder.dataset| + 1);
      }
    }
  }

  /** Unlike the automatic application, the count can run ahead of the samples: a frame whose
      reading does not convert is not added but is still counted. */
  lemma MainCountsUnaddedFrame(app: MainApp, isoNow: string)
    requires app.controller.state == Session.Recording
    ensures var features := map[Emg1Raw := StrValue("x")];
            var r := OnFrameReady(app, features, true, isoNow);
            && r.recorder == app.recorder
            && r.controller.sessionStats.totalSamples == app.controller.sessionStats.totalSamples + 1
  {
    var features := map[Emg1Raw := StrValue("x")];
    assert Text.ParseFloat("x").None?;
    assert Dataset.Raw(features, Emg1Raw).None?;
  }

  /** `_start_session` with the check boxes `checked` ticked: refused without a live sensor
      or a selected gesture; otherwise configured with one series and the user's cycles,
      and, if that succeeds, a new dataset session (which clears the data) before the
      controller's start is tried. */
  function StartSession(app: MainApp, checked: set<string>, cycles: int, duration: int, restTime: int,
                        stamp: string, now: int): MainApp
  {
    var selected := Selected(AvailableGestures, checked);
    if !app.isSensorConnected || |selected| == 0 then app
    else
      var (c1, ok) := Session.Configure(app.controller, selected, 1, duration, restTime, cycles);
      if !ok then app.(controller := c1)
      else
        var r := Dataset.StartNewSession(app.recorder, stamp, now).0;
        app.(controller := Session.Start(c1, now).0, recorder := r)
  }

  lemma StartSessionRefusals(app: MainApp, checked: set<string>, cycles: int, duration: int, restTime: int,
                             stamp: string, now: int)
    ensures var r := StartSession(app, checked, cycles, duration, restTime, stamp, now);
            && (!app.isSensorConnected ==> r == app)
            && ((forall g :: g in AvailableGestures ==> g !in checked) ==> r == app)
  {
    if forall g :: g in AvailableGestures ==> g !in checked {
      var selected := Selected(AvailableGestures, checked);
      if |selected| > 0 {
        assert selected[0] in selected;
      }
    }
  }

  /** A start pressed while a session is under way (in PAUSE, say, when the start button
      reads "REANUDAR") reconfigures the controller and clears the data, and then the
      controller refuses to start and goes to ERROR. */
  lemma RefusedStartClearsData(app: MainApp, checked: set<string>, cycles: int, duration: int, restTime: int,
                               stamp: string, now: int)
    requires app.isSensorConnected && "PINZA" in checked && 1 <= duration <= 60
    requires app.controller.state != Session.Idle
    ensures var r := StartSession(app, checked, cycles, duration, restTime, stamp, now);
            && r.recorder.dataset == [] && r.recorder.totalSamples == 0
            && r.controller.state == Session.Error
  {
    assert "PINZA" == AvailableGestures[2];
    assert "PINZA" in Selected(AvailableGestures, checked);
  }

  /** `_pause_session`: resume when paused, pause otherwise. */
  function PauseSession(app: MainApp): MainApp
    requires Session.Valid(app.controller)
  {
    if app.controller.state == Session.Paused then app.(controller := Session.Resume(app.controller).0)
    else app.(controller := Session.Pause(app.controller).0)
  }

  lemma PauseSessionToggles(app: MainApp)
    requires Session.Valid(app.controller)
    ensures var r := PauseSession(app);
            && (app.controller.state == Session.Paused ==> r.controller.state in {Session.Countdown, Session.Completed})
            && (app.controller.state in {Session.Countdown, Session.Recording, Session.Resting} ==>
                  r.controller.state == Session.Paused)
            && (app.controller.state !in {Session.Countdown, Session.Recording, Session.Resting, Session.Paused} ==>
                  r == app)
            && r.recorder == app.recorder
  {
  }

  /** `_stop_session`: the session is stopped only when the user confirms; the data is kept. */
  function MainStopSession(app: MainApp, confirmed: bool): (r: MainApp)
    ensures r.recorder == app.recorder
    ensures confirmed ==> r.controller.state == Session.Idle
    ensures !confirmed ==> r == app
  {
    if confirmed then app.(controller := Session.Stop(app.controller)) else app
  }

  /** `closeEvent`: any session that is not IDLE is stopped. */
  function CloseEvent(app: MainApp): (r: MainApp)
    ensures r.controller.state == Session.Idle && r.recorder == app.recorder
    ensures app.controller.state == Session.Idle ==> r == app
  {
    if app.controller.state != Session.Idle then app.(controller := Session.Stop(app.controller)) else app
  }
}
