# EMG-Classifier-RT capture pipeline in Dafny

This project models the capture side of EMG-Classifier-RT. That side turns the lines an
ESP32 sends over a serial port into labelled, numbered samples, on a timed gesture
schedule. The pieces are:

- **Session scheduler**: `GestureSessionController` of system_data/session_controller.py.
  - A state machine over IDLE, PREPARING, COUNTDOWN, RECORDING, RESTING, PAUSED, COMPLETED
    and ERROR.
  - It walks a cursor (gesture index, cycle) over the selected gestures, once per cycle.
  - On each `update()` it counts down `rest_time`, records for `duration_per_gesture` and
    rests for one second.
  - It keeps sample counters and reports progress and the time remaining.
- **Dataset recorder**: `GestureDatasetManager` of system_data/dataset_manager.py.
  - It appends numbered sample records and keeps `total_samples` beside the list.
  - It starts and clears sessions, loads files, and projects the CSV columns into a fixed
    order.
- **EMG line ingestor**: `EMGProcessor` of system_data/emg_processor.py.
  - It classifies each device line and parses the data fields.
  - It keeps the latest frame, a liveness clock and a bounded queue of 100.
- **Serial CSV logger**: `ESP32DataLogger` of tomardatos.py.
  - It opens a CSV file at `CSV_START`, writes the header and seven-field data lines, and
    closes the file at `CSV_END`.
- **ESP32 sliding window**: `loop()` and `predictGesture` of API/esp32_client_example.cpp.
  - Three arrays of 250 readings are filled at a shared index.
  - When they are full they are sent, then shifted left by 50.
- **Application glue**: `AutoEMGApp` of Toma_de_datos/main_app.py and `MainGestureApp` of
  system_data/main_app.py.
  - These handlers decide whether a frame becomes a sample and which label it gets.
  - They also start, pause and stop sessions.

Toma_de_datos/dataset_manager.py and Toma_de_datos/emg_processor.py are byte-identical to
their system_data counterparts. The same model covers both copies, and the rows below cite the
system_data copy for both.

## Layout

Every piece of state the source changes in place has two modules:

- A pure module with a snapshot datatype, functions and lemmas:
  - `Session` in session.dfy;
  - `Dataset` in dataset.dfy;
  - `EmgIngest` in emg_ingest.dfy;
  - `CsvLog` in csv_log.dfy;
  - `Window` in window.dfy;
  - `Capture` in capture.dfy.
- A class module that performs the same operations on fields and arrays:
  - `SessionController` in session_controller.dfy;
  - `DatasetManager` in dataset_manager.dfy;
  - `EmgProcessor` in emg_processor.dfy;
  - `SerialLogger` in serial_logger.dfy;
  - `SlidingWindow` in sliding_window.dfy;
  - `CaptureApps` in capture_apps.dfy.

Each class method ensures that the new snapshot of its fields is the pure function applied
to the old snapshot. What the source promises is then proved about those functions.

The shared modules are:

- `Schedule` (schedule.dfy): the cursor arithmetic of the scheduler, the recording plan,
  progress, the countdown and the H:MM:SS format.
- `Text` (text.dfy): Python's `split`, `in`, `startswith`, `isdigit`, `strip`, `int()`,
  `float()` and `str()`, with every whitespace character `str.isspace()` accepts and ASCII digits.
- `Values` (values.dfy): dictionary values (`int`, `float`, `str`, `None`) and Python's
  conversions between them.
- `Ordering` (ordering.dfy): `sorted(set(...))` and the order-preserving column filter.
- `Device` (device.dfy): the line protocol of the capture firmware.
- `Wrappers` (wrappers.dfy): `Option`.

Time is modelled as integer milliseconds. Each call that reads the clock takes the time as
a parameter (`now`), and a timestamp text (an ISO time, a `%Y%m%d_%H%M%S` stamp) is also a
parameter. Callbacks into the user interface are a ghost event log (`Controller.events`).

## Model

| member | source | states |
|---|---|---|
| Session.Init | system_data/session_controller.py:25-55 | The controller starts IDLE, unconfigured, with an empty event log. |
| Session.InitValid | system_data/session_controller.py:25-55 | The initial controller satisfies the reachability invariant, is on schedule and has no pending recordings. |
| Session.CurrentGesture | system_data/session_controller.py:218-239 | A gesture is current exactly when the session is configured and the index is inside the list. It is then the name at the index, with that index and cycle number `current_cycle + 1`; otherwise it is the "NINGUNO" placeholder. |
| Session.ZeroCounts | system_data/session_controller.py:109 | The per-gesture completion map holds 0 for every selected gesture and has no other keys. |
| Session.Configure | system_data/session_controller.py:59-120 | Success holds iff the list is non-empty and the duration is in [1,60]. On failure the state becomes ERROR, with the state change and the error in the log (the empty-list error first) and nothing else changed. On success the state and log are unchanged; cycles are `user_cycles` if positive, else `series_count`; planned recordings are gestures × cycles; the cursor and counters are 0; the config is stored as given (rest time unchecked). |
| Session.ConfigureKeepsValid | system_data/session_controller.py:59-120 | Configuring keeps the invariant. Stays on schedule when it fails or when it runs from IDLE or ERROR. |
| Session.Start | system_data/session_controller.py:122-149 | Success holds iff the state is IDLE and the session is configured. Otherwise the result is the ERROR transition with "cannot start in state" (checked first) or "not configured". On success the state is COUNTDOWN or COMPLETED and the config is kept. |
| Session.StartRunsPlan | system_data/session_controller.py:122-149 | A successful start leaves the whole plan pending: every gesture of cycle 0, then cycle 1, and so on. No recording has been logged as finished yet. |
| Session.Stop | system_data/session_controller.py:151-165 | The state is IDLE afterwards. From IDLE nothing changes and nothing is logged (idempotent). Otherwise exactly one IDLE transition is logged. |
| Session.StopKeepsValid | system_data/session_controller.py:151-165 | Stopping keeps the invariant and leaves nothing pending. |
| Session.Pause | system_data/session_controller.py:167-173 | Success holds iff the state is COUNTDOWN, RECORDING or RESTING; the state then becomes PAUSED with one transition logged. Otherwise nothing changes. |
| Session.PauseKeepsValid | system_data/session_controller.py:167-173 | Pausing keeps the invariant. |
| Session.PauseKeepsSchedule | system_data/session_controller.py:167-173 | Pausing a session on schedule keeps it on schedule, with the same pending recordings and the same finished ones. |
| Session.Resume | system_data/session_controller.py:175-182 | Success holds iff the state is PAUSED; otherwise nothing changes. A resume ends in COUNTDOWN or COMPLETED with the statistics untouched. A countdown restarts from the full `rest_time` with no start tick yet, so the elapsed time is not preserved. |
| Session.ResumeKeepsSchedule | system_data/session_controller.py:175-182 | Resuming keeps the schedule: the same pending recordings at the same cursor, and no recording logged as finished. |
| Session.Increment | system_data/session_controller.py:205-216 | Success holds iff the state is RECORDING. Then both the per-recording and total counters go up by exactly 1 and nothing else changes. Otherwise nothing changes. |
| Session.IncrementKeepsSchedule | system_data/session_controller.py:205-216 | Counting a sample keeps the invariant, the schedule, the pending recordings and the log. |
| Session.StartNextRecordingFollowsVisits | system_data/session_controller.py:294-319 | `_start_next_recording` ends in COUNTDOWN or COMPLETED. It leaves pending exactly the recordings that the cursor rules visit from the current cursor, and logs no finished recording. |
| Session.StartNextRecordingCompletes | system_data/session_controller.py:296-308 | When the cursor rules say the cycles are used up, the session becomes COMPLETED with nothing pending. The log gains the state change and the completion event carrying the statistics. |
| Session.StartNextRecordingCountsDown | system_data/session_controller.py:310-319 | Otherwise the controller counts down for the gesture under the (possibly wrapped) cursor. The log gains the gesture announcement and the COUNTDOWN transition. |
| Session.TickKeepsSchedule | system_data/session_controller.py:184-203 | An `update()` keeps the invariant and the schedule. The finished recordings followed by the pending ones never change, and the finished list only grows. |
| Session.TickCountdown | system_data/session_controller.py:321-333 | A COUNTDOWN tick keeps the invariant, the schedule, the pending recordings and the finished ones. |
| Session.CountdownTiming | system_data/session_controller.py:321-333 | The remaining countdown is `max(0, rest_time - int(elapsed))`, with elapsed measured from the first countdown tick. RECORDING starts exactly when elapsed reaches `rest_time` seconds, with the sample counter at 0 and the recording start at `now`. While still counting down, the first tick time is kept. |
| Session.TickEndsRecording | system_data/session_controller.py:348-374 | A recording that reached its duration ends in RESTING. The recording under the cursor moves from pending to finished, logged with the cursor's gesture and cycle. |
| Session.RecordingTiming | system_data/session_controller.py:348-374 | RESTING follows exactly when `now - recording_start >= duration`; before that only the last update time changes. Ending a recording increments the gesture index, keeps the cycle and starts the rest at `now`. It adds 1 to that gesture's completion count and logs the end (with the sample count) and the transition. |
| Session.TickResting | system_data/session_controller.py:376-386 | A RESTING tick keeps the invariant, the schedule, the pending recordings and the finished ones. |
| Session.RestingTiming | system_data/session_controller.py:376-386 | The controller stays RESTING exactly while less than 1 s has passed. After that it goes to COUNTDOWN, with a fresh `rest_time` countdown, or to COMPLETED; `rest_time` plays no part in the rest. |
| Session.LastUpdateIrrelevant | system_data/session_controller.py:201 | `last_update_time` affects neither the invariant, the schedule nor the pending recordings. |
| Session.Apply | system_data/session_controller.py:167-216 | Each action a started session receives (an `update()` tick, pause, resume or sample count) keeps the invariant. |
| Session.Run | system_data/session_controller.py:167-216 | Every sequence of such actions keeps the invariant. |
| Session.RunKeepsSchedule | system_data/session_controller.py:167-216 | Any sequence of ticks, pauses, resumes and sample counts keeps the schedule. The finished recordings followed by the pending ones are unchanged, and the finished list only grows. |
| Session.SessionFinishesPlanInOrder | system_data/session_controller.py:294-374 | After a successful start and any such operations, the recordings finished since the start are a prefix of the plan, in order. When the session is COMPLETED they are the whole plan. |
| Session.TwoGesturesTwoCyclesSession | system_data/session_controller.py:297-319 | With two gestures and two cycles, any run that reaches COMPLETED has recorded exactly A, B, A, B. |
| Session.TickKeepsConfig | system_data/session_controller.py:184-203 | A tick changes neither the configuration nor the number of cycles. |
| Session.PacedLeft | system_data/session_controller.py:321-386 | For a session ticked on time, the count of ticks still needed is never negative, and it is zero exactly when the session is COMPLETED. |
| Session.PacedTick | system_data/session_controller.py:184-386 | One tick `d` ms after the last keeps the session ticked on time. COMPLETED stays COMPLETED; in every other phase one tick fewer is left. With `d` at least the rest time, the recording duration and the one-second rest, each phase ends at its next tick: countdown start, recording start, recording end, end of rest. |
| Session.TickAdvances | system_data/session_controller.py:184-386 | `update()`, as a step on sessions, advances every session ticked on time, in the sense of `Session.PacedTick`. |
| Session.PacedRunCompletes | system_data/session_controller.py:184-386 | For any step that advances sessions ticked on time, a session that gets at least as many further steps as it needs is COMPLETED. |
| Session.RunTicks | system_data/session_controller.py:184-203 | Running `n` tick actions `d` ms apart is the same as applying `update()` `n` times at those instants. |
| Session.TickedSessionCompletes | system_data/session_controller.py:122-386 | After a successful start, evenly spaced ticks that are far enough apart reach COMPLETED. It takes 3 ticks per planned recording when `rest_time` is not positive and 4 otherwise. By then the recordings finished since the start are the whole plan, in order. |
| Session.TwoGesturesTwoCyclesTicked | system_data/session_controller.py:297-319 | Two gestures and two cycles, ticked sixteen times at such a spacing, reach COMPLETED after recording exactly A, B, A, B. |
| Session.ExampleSessionCompletes | system_data/session_controller.py:59-386 | Configured with "A" and "B", 1 s recordings, no rest and two cycles, then started at 0: the start succeeds, and twelve ticks one second apart complete the session with the plan (A, B, A, B by cycle) finished. |
| Session.CurrentGestureIsPendingHead | system_data/session_controller.py:218-239 | While counting down or recording, the label `get_current_gesture_info` reports is the first pending recording's gesture and cycle. |
| Session.Status | system_data/session_controller.py:241-263 | Progress stays within [0,100], and `recording_active` holds iff the state is RECORDING. |
| Session.ProgressTracksPending | system_data/session_controller.py:248-252 | In RESTING, progress is 100 iff nothing is pending, so it already reads 100 after the last recording. It is below 100 while counting down or recording on schedule, and 100 at COMPLETED. |
| Session.TimeRemaining | system_data/session_controller.py:428-432 | The estimate is "0:00:00" when unconfigured, IDLE or COMPLETED. |
| Session.TimeRemainingCountsPending | system_data/session_controller.py:433-447 | In a running or paused session on schedule, the estimate parses back as H:MM:SS to pending recordings × (duration + rest) seconds. |
| Session.PendingLength | system_data/session_controller.py:433-436 | The number of pending recordings is the source's formula `(len - index) + (total - cycle - 1) * len`. |
| Schedule.NextRecording | system_data/session_controller.py:294-308 | Completion holds iff the cycles are used up, or the index ran past the list and the next cycle is past the end. Otherwise the cursor is unchanged, or wrapped to gesture 0 of the next cycle, and it points inside the list and the planned cycles. |
| Schedule.Visits | system_data/session_controller.py:294-374 | Every recording visited from a cursor lies inside the gesture list and between the current and the last planned cycle. |
| Schedule.RowFrom | system_data/session_controller.py:370 | The rest of a cycle from gesture `from` is gestures from, from+1, ... of that cycle. |
| Schedule.Plan | system_data/session_controller.py:297-308 | The plan from a cycle holds only listed gestures of the cycles still planned. |
| Schedule.VisitsInRow | system_data/session_controller.py:310-319 | Inside a cycle the next recording is the one under the cursor, followed by those from the next index. |
| Schedule.VisitsWrap | system_data/session_controller.py:300-306 | Past the last gesture the cursor wraps to gesture 0 of the next cycle. |
| Schedule.VisitsFinishRowThenPlan | system_data/session_controller.py:294-319 | From any cursor the visits are the rest of the current cycle, then every later cycle in full. |
| Schedule.SessionFollowsPlan | system_data/session_controller.py:294-319 | From the start cursor the recordings are the full plan: cycle by cycle, gestures in list order. |
| Schedule.PlanAt | system_data/session_controller.py:297-308 | Position `(j - cycle) * count + g` of the plan is gesture g of cycle j. |
| Schedule.PlanLength | system_data/session_controller.py:111 | The plan has cycles × gestures recordings, the source's `total_recordings_planned`. |
| Schedule.RemainingCountsVisits | system_data/session_controller.py:433-436 | The remaining-recordings formula counts exactly the recordings still visited from the cursor. |
| Schedule.Names | system_data/session_controller.py:233-234 | The gesture names of a list of cursors are one per cursor. |
| Schedule.PlanNames | system_data/session_controller.py:294-319 | The gesture names of the plan are the selected list repeated once per cycle. |
| Schedule.SessionRecordsRepetitions | system_data/session_controller.py:294-319 | A session records the selected list repeated once per cycle. |
| Schedule.TwoGesturesTwoCycles | system_data/session_controller.py:297-319 | With [A,B] and 2 cycles the recordings are A, B, A, B. |
| Schedule.CountdownRemaining | system_data/session_controller.py:327 | The countdown is never negative, and never above `rest_time` once time has passed. |
| Schedule.TruncatedSeconds | system_data/session_controller.py:327 | `int(elapsed)` of the seconds elapsed equals whole milliseconds divided by 1000. |
| Schedule.CountdownExpires | system_data/session_controller.py:327-333 | The countdown reaches 0 exactly when at least `rest_time` seconds have passed. |
| Schedule.CountdownNonincreasing | system_data/session_controller.py:327 | The countdown never goes up as time passes. |
| Schedule.Progress | system_data/session_controller.py:248-252 | Progress is in [0,100]. |
| Schedule.ProgressFull | system_data/session_controller.py:252 | With a positive plan, progress is 100 iff the recordings done reach the planned number. |
| Schedule.ProgressFullIffNothingLeft | system_data/session_controller.py:248-252 | Progress at a cursor is 100 iff the cursor visits nothing more. |
| Schedule.DoneReachesPlanned | system_data/session_controller.py:250-252 | `cycle * len + index` reaches the planned number iff the cursor rules complete at that cursor. |
| Schedule.Pad2 | system_data/session_controller.py:447 | `:02d` of a number below 100 is two digits. |
| Schedule.Pad2Value | system_data/session_controller.py:447 | The two digits read back as the number. |
| Schedule.NoColonInNumber | system_data/session_controller.py:447 | The printed hours contain no colon. |
| Schedule.HmsFields | system_data/session_controller.py:444-447 | The H:MM:SS text splits at ':' into hours, minutes and seconds. |
| Schedule.HmsRoundTrip | system_data/session_controller.py:444-447 | The H:MM:SS text of a number of seconds reads back as that number. |
| Schedule.ZeroHms | system_data/session_controller.py:431 | Zero seconds prints as "0:00:00". |
| SessionController.GestureSessionController.constructor | system_data/session_controller.py:25-55 | The fields start as `Session.Init` and satisfy the invariant. |
| SessionController.GestureSessionController.ConfigureSession | system_data/session_controller.py:59-120 | The new fields and result are `Session.Configure` of the old ones. |
| SessionController.GestureSessionController.StartSession | system_data/session_controller.py:122-149 | The new fields and result are `Session.Start` of the old ones. |
| SessionController.GestureSessionController.StopSession | system_data/session_controller.py:151-165 | The new fields are `Session.Stop` of the old ones, and the result is always true. |
| SessionController.GestureSessionController.PauseSession | system_data/session_controller.py:167-173 | The new fields and result are `Session.Pause` of the old ones. |
| SessionController.GestureSessionController.ResumeSession | system_data/session_controller.py:175-182 | The new fields and result are `Session.Resume` of the old ones. |
| SessionController.GestureSessionController.Update | system_data/session_controller.py:184-203 | The new fields are `Session.Tick` at `now`, and the status returned is that of the new fields. |
| SessionController.GestureSessionController.IncrementSampleCount | system_data/session_controller.py:205-216 | The new fields and result are `Session.Increment` of the old ones. |
| SessionController.GestureSessionController.GetCurrentGestureInfo | system_data/session_controller.py:218-239 | Reports `Session.CurrentGesture` of the fields. |
| SessionController.GestureSessionController.GetSessionStatus | system_data/session_controller.py:241-263 | Reports `Session.Status` of the fields. |
| SessionController.GestureSessionController.CalculateTimeRemaining | system_data/session_controller.py:428-447 | Reports `Session.TimeRemaining` of the fields. |
| SessionController.GestureSessionController.StartNextRecording | system_data/session_controller.py:294-319 | The new fields are `Session.StartNextRecording` of the old ones. |
| SessionController.GestureSessionController.UpdateCountdown | system_data/session_controller.py:321-333 | The new fields are `Session.UpdateCountdown` at `now`. |
| SessionController.GestureSessionController.StartRecording | system_data/session_controller.py:335-346 | The new fields are `Session.StartRecording` at `now`. |
| SessionController.GestureSessionController.UpdateRecording | system_data/session_controller.py:348-353 | The new fields are `Session.UpdateRecording` at `now`. |
| SessionController.GestureSessionController.StopRecording | system_data/session_controller.py:355-374 | The new fields are `Session.StopRecording` at `now`. |
| SessionController.GestureSessionController.UpdateResting | system_data/session_controller.py:376-386 | The new fields are `Session.UpdateResting` at `now`. |
| SessionController.GestureSessionController.CompleteSession | system_data/session_controller.py:388-397 | The new fields are `Session.CompleteSession` of the old ones. |
| SessionController.GestureSessionController.ChangeState | system_data/session_controller.py:399-408 | The new fields are `Session.ChangeState` of the old ones. |
| SessionController.GestureSessionController.TriggerError | system_data/session_controller.py:410-416 | The new fields are `Session.TriggerError` of the old ones. |
| Dataset.MissingFeaturesDefaultToZero | system_data/dataset_manager.py:65-71 | A missing reading defaults to 0.0 and a missing stamp to 0. |
| Dataset.Convert | system_data/dataset_manager.py:65-71 | The readings convert iff each of the five `float()`/`int()` conversions succeeds. The result is those five values. |
| Dataset.FixedFields | system_data/dataset_manager.py:53-72 | A new record has exactly the eleven keys of the CSV column order. |
| Dataset.AdditionalValue | system_data/dataset_manager.py:80-84 | An `int` or `float` extra value is kept as it is; any other value becomes its `str()`. |
| Dataset.MergeUseful | system_data/dataset_manager.py:75-84 | Merging keeps every existing field unchanged. It adds each useful key that the extra info has and the record lacks, and nothing else. |
| Dataset.MakeRecord | system_data/dataset_manager.py:51-94 | A record is built iff the features convert (otherwise the exception path returns False). |
| Dataset.RecordFields | system_data/dataset_manager.py:53-72 | A built record has all column fields, with the given labels, the session text, the sample number and the converted readings. |
| Dataset.RecordExtraKeys | system_data/dataset_manager.py:75-84 | Beyond the columns a record can hold only `movement_id`, present iff non-empty extra info carries it. `esp32_timestamp` is never overwritten. |
| Dataset.StartNewSession | system_data/dataset_manager.py:24-39 | The list is emptied, the counter is 0, and the returned id becomes the session id, with the start time recorded. |
| Dataset.StartNewSessionConsistent | system_data/dataset_manager.py:28-36 | A new session satisfies the counter/numbering invariant. |
| Dataset.AddSample | system_data/dataset_manager.py:41-94 | Success holds iff the features are non-empty and convert. A failure changes nothing. A success appends exactly one record numbered `len + 1`, carrying the session id text, and adds 1 to `total_samples`. |
| Dataset.AddSampleKeepsConsistent | system_data/dataset_manager.py:53-88 | Adding a sample keeps the invariant: the counter equals the length, records are numbered 1..N in order, and all carry the session id. |
| Dataset.AddAllKeepsConsistent | system_data/dataset_manager.py:87-88 | Any sequence of adds keeps the invariant, only appends to the list (at most one record per call), and keeps the session id. |
| Dataset.SessionSamplesNumberedFromOne | system_data/dataset_manager.py:24-88 | After a new session and any adds, the counter equals the length. The records are numbered 1, 2, ... without gaps and carry the new session's id. |
| Dataset.ClearDataset | system_data/dataset_manager.py:171-176 | Clearing always succeeds, empties the list and zeroes the counter, and keeps the session id and start time. |
| Dataset.ClearConsistent | system_data/dataset_manager.py:171-176 | A cleared manager satisfies the invariant. |
| Dataset.InitConsistent | system_data/dataset_manager.py:14-21 | A new manager satisfies the invariant. |
| Dataset.LoadDataset | system_data/dataset_manager.py:148-169 | A missing file gives (False, "Archivo no encontrado: ...") and no change. Otherwise the list is replaced by the file's records, with the success message counting them, and nothing else changes. |
| Dataset.LoadBreaksCounter | system_data/dataset_manager.py:155 | Loading replaces the list without touching `total_samples`: after one add and loading an empty file the counter is 1 and the list is empty. |
| Dataset.AllKeys | system_data/dataset_manager.py:113 | The DataFrame's columns are exactly the keys that occur in some record. |
| Dataset.SavedColumns | system_data/dataset_manager.py:116-132 | The saved columns are the fixed order filtered to the present columns, order preserved. `movement_id` is never saved. |
| Dataset.SaveDataset | system_data/dataset_manager.py:96-146 | Saving fails iff the list is empty, then with (False, "No hay datos para guardar"). Otherwise the file has the given name (or the default one), the filtered column order and one row per record. |
| Dataset.SaveWritesAllColumns | system_data/dataset_manager.py:116-132 | Records made by `add_sample` are saved with all eleven columns in the fixed order. |
| Dataset.Column | system_data/dataset_manager.py:184-185 | The column holds each record's value, or the default when the key is missing. |
| Dataset.GetDatasetInfo | system_data/dataset_manager.py:178-196 | An empty list gives zero and empty lists. Otherwise the total is the length. Full info lists the sorted distinct gesture names (default "UNKNOWN") and series numbers (default 1), with the session id (default "unknown") and start time. |
| Dataset.InfoOfRecordsIsFull | system_data/dataset_manager.py:183-193 | For records made by `add_sample` the sort cannot fail, so the full info is returned. |
| DatasetManager.GestureDatasetManager.constructor | system_data/dataset_manager.py:14-22 | The fields start as `Dataset.Init`. |
| DatasetManager.GestureDatasetManager.StartNewSession | system_data/dataset_manager.py:24-39 | The new fields and id are `Dataset.StartNewSession` of the old ones. |
| DatasetManager.GestureDatasetManager.AddSample | system_data/dataset_manager.py:41-94 | The new fields and result are `Dataset.AddSample` of the old ones. |
| DatasetManager.GestureDatasetManager.MergeUsefulKeys | system_data/dataset_manager.py:75-84 | The loop over the useful keys computes `Dataset.MergeUseful`. |
| DatasetManager.GestureDatasetManager.SaveDataset | system_data/dataset_manager.py:96-146 | Returns `Dataset.SaveDataset` of the fields and changes nothing. |
| DatasetManager.GestureDatasetManager.LoadDataset | system_data/dataset_manager.py:148-169 | The new fields and result are `Dataset.LoadDataset` of the old ones. |
| DatasetManager.GestureDatasetManager.ClearDataset | system_data/dataset_manager.py:171-176 | The new fields and result are `Dataset.ClearDataset` of the old ones. |
| DatasetManager.GestureDatasetManager.GetDatasetInfo | system_data/dataset_manager.py:178-196 | Reports `Dataset.GetDatasetInfo` of the fields. |
| Ordering.SortDistinct | system_data/dataset_manager.py:184-190 | Sorting the distinct values gives a strictly increasing list with the same elements. |
| Ordering.SortedSet | system_data/dataset_manager.py:184-190 | `sorted(set(...))` succeeds iff the values are mutually comparable. It then gives a strictly increasing list with the same elements. |
| Ordering.StrictlySortedIsDistinct | system_data/dataset_manager.py:184-185 | A strictly increasing list has no repeated value. |
| Ordering.TextIsSortable | system_data/dataset_manager.py:184-189 | Text values, like gesture names, always sort. |
| Ordering.FilterIn | system_data/dataset_manager.py:131 | The filtered columns are exactly those of the order that are present, as a subsequence of the order. |
| Ordering.FilterInDistinct | system_data/dataset_manager.py:116-131 | Filtering an order without repeats gives no repeats. |
| Ordering.FilterInAll | system_data/dataset_manager.py:131 | When every column is present the filter returns the whole order. |
| Values.TruncateToInt | system_data/session_controller.py:327 | `int(x)` truncates toward zero. |
| Values.ConversionsOfNumbers | system_data/dataset_manager.py:57-71 | `int()` and `float()` of numbers succeed; `int()` of a non-negative float is its floor. |
| Values.ConversionsOfIntegerText | system_data/dataset_manager.py:65-71 | `int()` and `float()` of a printed integer give that integer back. |
| Text.Split | system_data/emg_processor.py:142-143 | `split(',')` always gives at least one field. |
| Text.JoinOfSplit | tomardatos.py:54-57 | Joining the fields of a line with the separator gives the line back, so a written row is the line itself. |
| Text.SplitOfJoin | system_data/emg_processor.py:142-143 | Splitting a join of separator-free fields gives the fields back. |
| Text.SplitFieldsAreFree | tomardatos.py:54 | No field contains the separator. |
| Text.SplitCount | tomardatos.py:54-55 | The number of fields is the number of separators plus one. |
| Text.SplitPrefix | system_data/emg_processor.py:142-143 | Text without the separator in front of a line joins its first field. |
| Text.StripLeft | system_data/emg_processor.py:104 | After `lstrip()` the text does not start with whitespace. Whitespace here is Python's full `isspace()` set, including U+001C to U+001F, U+0085, U+00A0 and the Unicode spaces. |
| Text.StripRight | system_data/emg_processor.py:104 | After `rstrip()` the text does not end with whitespace, over the same set. |
| Text.StripLeftRemovesSpace | system_data/emg_processor.py:104 | `lstrip()` leaves a suffix of the text, and everything it removes is whitespace. |
| Text.StripRightRemovesSpace | system_data/emg_processor.py:104 | `rstrip()` leaves a prefix of the text, and everything it removes is whitespace. |
| Text.StripSeparators | system_data/emg_processor.py:104-145 | A leading unit separator is stripped from "CSV_END", and `int()` of "12" followed by one gives 12. |
| Text.StripUnpadded | tomardatos.py:87 | A line that starts and ends with non-space is unchanged by `strip()`. |
| Text.PrefixIsContained | tomardatos.py:91-108 | A line that starts with a text contains it. |
| Text.DigitsValueOfNatToString | system_data/emg_processor.py:150 | The printed digits of a natural number read back as that number. |
| Text.ParseIntOfDigits | system_data/emg_processor.py:150 | `int()` of an all-digit field is its decimal value. |
| Text.ParseIntOfIntToString | system_data/emg_processor.py:145-146 | `int()` of a printed integer gives it back. |
| Text.ParseFloatOfDigits | system_data/emg_processor.py:147-149 | An all-digit mantissa reads as its decimal value. |
| Text.ParseFloatOfIntToString | system_data/emg_processor.py:147-149 | `float()` of a printed integer gives that integer as a real. |
| Device.LineFields | tomardatos.py:55 | A device data line splits at ',' into its seven fields, contains a comma, starts with a digit or '-' and uses only field characters and commas. |
| EmgIngest.ParseFrameAccepts | system_data/emg_processor.py:142-151 | A data line is kept iff fields 0-1 parse as `int` and 2-4 as `float`. The movement id is then never negative and is 0 unless field 5 is all digits. The name is field 6, or "AUTO" with six fields. |
| EmgIngest.LineEffects | system_data/emg_processor.py:115-189 | Exactly "CSV_START"/"CSV_END" set/clear the session flag. Only a parsed data frame changes the cache, the movement and the queue, and it is stored by `Accept`. The liveness clock moves only for a frame or a "SISTEMA:" line. The connection flags never change. |
| EmgIngest.StepQueue | system_data/emg_processor.py:166-173 | One reading appends its frame unless the queue is full. The frame replaces the cache and the current movement; a reading without a frame changes neither. |
| EmgIngest.ReadingQueuesFirstFrames | system_data/emg_processor.py:99-113 | Over any lines the queue gains exactly the first frames that fit under 100, and never exceeds 100. |
| EmgIngest.ReadingKeepsLatestFrame | system_data/emg_processor.py:166-169 | After any lines the cache and current movement are those of the last accepted frame, or unchanged if none was accepted. |
| EmgIngest.FullQueueDropsFrames | system_data/emg_processor.py:172-173 | A full queue drops every new frame. |
| EmgIngest.AcceptedFrameIsLive | system_data/emg_processor.py:192-204 | After a frame is accepted at `now`, the sensor is live at `t` iff connected and `t - now <= 5 s`. |
| EmgIngest.DisconnectEndsLiveness | system_data/emg_processor.py:79-82 | After `disconnect` the reader does nothing and the sensor is not live, whatever lines follow. |
| EmgIngest.FeaturesOfLatestFrame | system_data/emg_processor.py:210-253 | Features always have the same six keys and mode "automatic". With no frame they are zeros. Otherwise they are the frame's readings and session time, with `esp32_timestamp` from device field 0. |
| EmgIngest.DetectGesture | system_data/emg_processor.py:255-261 | Always (0, "AUTO"). |
| EmgIngest.ProcessFrame | system_data/emg_processor.py:263-277 | Returns the features and the liveness at `now`. |
| EmgIngest.DeviceLineIsData | system_data/emg_processor.py:142 | A device data line is classified as data. |
| EmgIngest.DeviceLineFrame | system_data/emg_processor.py:142-151 | A device data line yields the frame of its values. |
| EmgIngest.DeviceFieldsParse | system_data/emg_processor.py:144-151 | The seven device fields parse to the frame of their values. |
| EmgIngest.DeviceLineRoundTrip | system_data/emg_processor.py:115-173 | Processing a device data line accepts exactly the frame of the values it was printed from. |
| EmgIngest.DeviceHeaderIgnored | system_data/emg_processor.py:127-129 | The header line changes nothing. |
| EmgProcessor.EMGProcessor.constructor | system_data/emg_processor.py:17-46 | The fields start as `EmgIngest.Init`, with the queue bound holding. |
| EmgProcessor.EMGProcessor.Connect | system_data/emg_processor.py:50-77 | The new fields are `EmgIngest.Connect`, and the result says whether the port opened. |
| EmgProcessor.EMGProcessor.Disconnect | system_data/emg_processor.py:79-88 | The new fields are `EmgIngest.Disconnect` of the old ones. |
| EmgProcessor.EMGProcessor.ProcessSerialLine | system_data/emg_processor.py:115-189 | The new fields are `EmgIngest.ProcessSerialLine` of the old ones. |
| EmgProcessor.EMGProcessor.ReadSerialData | system_data/emg_processor.py:99-113 | The reader loop over the lines gives `EmgIngest.ReadSerialData`. |
| EmgProcessor.EMGProcessor.IsSensorConnected | system_data/emg_processor.py:192-204 | Reports `EmgIngest.IsSensorConnected` of the fields. |
| EmgProcessor.EMGProcessor.GetLatestEmgData | system_data/emg_processor.py:206-208 | Reports the cached frame as a dictionary. |
| EmgProcessor.EMGProcessor.GetEmgFeatures | system_data/emg_processor.py:210-253 | Reports `EmgIngest.GetEmgFeatures` of the fields. |
| EmgProcessor.EMGProcessor.ProcessFrame | system_data/emg_processor.py:263-277 | Reports `EmgIngest.ProcessFrame` of the fields. |
| CsvLog.InitValid | tomardatos.py:8-15 | A new logger is valid, not logging, at session 1. |
| CsvLog.CreateCsvFile | tomardatos.py:28-40 | A file opens iff opening succeeds. It is named with the session number and stamp and starts empty. The previous handle is released without being closed. Nothing changes if opening fails. |
| CsvLog.CloseCsvFile | tomardatos.py:42-48 | The handle is released closed and cleared. Without a handle nothing changes. |
| CsvLog.ProcessDataLineWrites | tomardatos.py:50-68 | One row is written, and True returned, iff the line has exactly 7 fields and a file is open. The row joins back to the line. Otherwise nothing changes. |
| CsvLog.HeaderRowIsWellFormed | tomardatos.py:108-111 | A header line's row starts with "timestamp". |
| CsvLog.HandleKeepsValid | tomardatos.py:89-121 | Each line keeps the invariant. The session number is 1 + the files closed at an end marker. A handle exists iff logging and is open. Every row is a header or has 7 fields. |
| CsvLog.RunKeepsValid | tomardatos.py:84-127 | Any sequence of lines keeps the invariant. |
| CsvLog.StartOpensFile | tomardatos.py:91-96 | A "CSV_START" line opens the session's file and starts logging if the file opened, and changes nothing otherwise. |
| CsvLog.RestartLeaksOpenFile | tomardatos.py:28-35 | "CSV_START" while logging releases the old handle still open, and keeps the session number. |
| CsvLog.EndClosesSession | tomardatos.py:99-105 | "CSV_END" while logging closes the file, adds 1 to the session number and stops logging. While not logging it changes nothing. |
| CsvLog.HeaderWrittenWhileLogging | tomardatos.py:108-113 | A header line is written as a row only while logging. |
| CsvLog.DataLineWhileLogging | tomardatos.py:116-117 | While logging, any other line with a comma goes to `process_data_line`. |
| CsvLog.InactiveWritesNoData | tomardatos.py:89-121 | While not logging no row is ever written; at most an empty file is opened. |
| CsvLog.SessionNumberGrowsAtEnd | tomardatos.py:99-104 | The session number changes only by +1, and only at an end marker of a session that was logging. |
| CsvLog.ExitClosesActiveFile | tomardatos.py:70-138 | Without a connection nothing happens. Otherwise, on exit an active file is closed and no handle remains. |
| SerialLogger.ESP32DataLogger.constructor | tomardatos.py:8-15 | The fields start as `CsvLog.Init`. |
| SerialLogger.ESP32DataLogger.CreateCsvFile | tomardatos.py:28-40 | The new fields and name are `CsvLog.CreateCsvFile` of the old ones. |
| SerialLogger.ESP32DataLogger.CloseCsvFile | tomardatos.py:42-48 | The new fields are `CsvLog.CloseCsvFile` of the old ones. |
| SerialLogger.ESP32DataLogger.ProcessDataLine | tomardatos.py:50-68 | The new fields and result are `CsvLog.ProcessDataLine` of the old ones. |
| SerialLogger.ESP32DataLogger.HandleLine | tomardatos.py:89-121 | The new fields are `CsvLog.HandleLine` of the old ones. |
| SerialLogger.ESP32DataLogger.ListenAndLog | tomardatos.py:70-138 | The loop over the received lines gives `CsvLog.ListenAndLog`. |
| Window.Init | API/esp32_client_example.cpp:13-16 | The zeroed buffers are valid with index 0. |
| Window.Shifted | API/esp32_client_example.cpp:55-60 | After the shift, `new[i] = old[i+50]` for i < 200 and elements 200..249 are untouched. |
| Window.Loop | API/esp32_client_example.cpp:35-65 | A call keeps the buffers 250 long with the index in 0..249. It sends a window iff the write filled the last slot. |
| Window.LoopChannel | API/esp32_client_example.cpp:42-60 | Each channel is written at the same index and shifted the same way, in lock-step. |
| Window.IndexStep | API/esp32_client_example.cpp:46-61 | The index moves on by one, or back to 200 exactly on a predicting call. |
| Window.LoopIndexStep | API/esp32_client_example.cpp:46-61 | The index after a call is the closed form for one call more, and sending coincides with `Predicts`. |
| Window.Feed | API/esp32_client_example.cpp:35-65 | The buffers after any readings are valid. |
| Window.FeedIndex | API/esp32_client_example.cpp:46-61 | After n calls the index is n below 250, then 200 + (n - 250) mod 50. |
| Window.FeedHoldsRecent | API/esp32_client_example.cpp:42-61 | The part of each buffer below the index holds that channel's most recent readings, oldest first. |
| Window.ShiftKeepsRecent | API/esp32_client_example.cpp:56-60 | Shifting a buffer of the last 250 readings keeps the last 200 in front. |
| Window.WindowIsRecent | API/esp32_client_example.cpp:49-62 | A window is sent exactly at the calls `Predicts` names. Each window holds every channel's 250 most recent readings, oldest first. |
| Window.PredictionSpacing | API/esp32_client_example.cpp:49-61 | The first window comes with the 250th reading and each later one 50 readings after the previous. |
| SlidingWindow.EmgBuffers.constructor | API/esp32_client_example.cpp:13-16 | Three fresh zeroed arrays of 250 and index 0, valid for the empty history. |
| SlidingWindow.EmgBuffers.PredictGesture | API/esp32_client_example.cpp:94-98 | The arrays sent are the three buffers element by element. |
| SlidingWindow.EmgBuffers.ShiftBuffers | API/esp32_client_example.cpp:56-60 | Each array is `Window.Shifted` of its old contents. |
| SlidingWindow.EmgBuffers.Loop | API/esp32_client_example.cpp:35-65 | The arrays and index are `Window.Loop` of the old ones. The history gains the reading, and the window sent is the history's last one. |
| Capture.AutoGestureIds | Toma_de_datos/main_app.py:523-530 | CERRAR_MANO, PINZA, SALUDAR, TOMAR_OBJ map to 1..4; any other name maps to 0. |
| Capture.FirstIndex | system_data/main_app.py:646 | `list.index` gives the first position of the name. |
| Capture.MainGestureIds | system_data/main_app.py:646 | Each offered gesture's id is its position in `available_gestures`; any other name gives 0. |
| Capture.Selected | system_data/main_app.py:436-439 | The selected gestures are exactly the offered ones that are checked. |
| Capture.EmgFeaturesClean | Toma_de_datos/main_app.py:533-539 | The processor's features always clean without error, to the last frame's readings or zeros. The dataset manager reads the same values from them. |
| Capture.AutoRecordsOnlyWhileCapturing | Toma_de_datos/main_app.py:501-549 | The handler always stores the connection flag and features. A sample is added only in RECORDING with capture on and non-empty features, whatever the connection. The controller counts a sample exactly when one was appended. |
| Capture.AutoRecordLabel | Toma_de_datos/main_app.py:519-545 | A new record is labelled with the controller's current gesture at that moment, its mapped id and its cycle number as series. |
| Capture.EveryEmissionIsRecorded | Toma_de_datos/main_app.py:36-43 | While recording with capture on, every 50 ms emission records one sample of the cached readings, new frame or not. |
| Capture.StartAutoSessionEffects | Toma_de_datos/main_app.py:312-341 | With a valid duration the four fixed gestures are configured, the dataset is cleared and capture is switched on even if the controller's start fails (then ERROR). The start succeeds iff the controller was IDLE, and it then always leaves a COUNTDOWN, because at least one cycle is planned. With an invalid duration the dataset and capture flag are kept and the controller is in ERROR. |
| Capture.StopAutoSession | Toma_de_datos/main_app.py:345-350 | Stopping leaves the controller IDLE and capture off, and keeps the dataset. |
| Capture.StoppedAppRecordsNothing | Toma_de_datos/main_app.py:345-350 | After a stop no emission records anything. |
| Capture.AutoCloseEvent | Toma_de_datos/main_app.py:554-559 | Closing stops a session that is not IDLE and keeps the dataset; an IDLE app is unchanged. |
| Capture.MainRecordsOnlyWhileCapturing | system_data/main_app.py:622-657 | The handler always stores the connection flag and features. A sample is added only in RECORDING with non-empty features and a connected sensor. It is labelled with the current gesture, its list position and its cycle number, and the controller's count goes up on every such frame. |
| Capture.MainCountsUnaddedFrame | system_data/main_app.py:649-657 | The count is incremented even when `add_sample` rejects the features, so it can exceed the records. |
| Capture.StartSessionRefusals | system_data/main_app.py:423-443 | Without a connected sensor, or with no gesture checked, starting changes nothing. |
| Capture.RefusedStartClearsData | system_data/main_app.py:458-472 | A configured start pressed outside IDLE clears the dataset before the controller refuses with ERROR. |
| Capture.PauseSessionToggles | system_data/main_app.py:475-481 | From PAUSED the button resumes. From COUNTDOWN, RECORDING or RESTING it pauses. Otherwise nothing changes. The dataset is untouched. |
| Capture.MainStopSession | system_data/main_app.py:483-495 | A confirmed stop leaves the controller IDLE, and a declined one changes nothing. The dataset is kept. |
| Capture.CloseEvent | system_data/main_app.py:692-699 | Closing stops a session that is not IDLE and keeps the dataset; an IDLE app is unchanged. |
| CaptureApps.AutoEMGApp.constructor | Toma_de_datos/main_app.py:70-83 | A fresh controller and dataset manager, with the fields as `Capture.AutoInit`. |
| CaptureApps.AutoEMGApp.OnEmgDataReady | Toma_de_datos/main_app.py:501-552 | The new state of the app, its controller and its manager is `Capture.OnEmgDataReady` of the old one. |
| CaptureApps.AutoEMGApp.StartAutoSession | Toma_de_datos/main_app.py:312-343 | The new state is `Capture.StartAutoSession` of the old one. |
| CaptureApps.AutoEMGApp.StopSession | Toma_de_datos/main_app.py:345-350 | The new state is `Capture.StopAutoSession` of the old one. |
| CaptureApps.AutoEMGApp.CloseEvent | Toma_de_datos/main_app.py:554-559 | The new state is `Capture.AutoCloseEvent` of the old one. |
| CaptureApps.MainGestureApp.constructor | system_data/main_app.py:810-822 | A fresh controller and dataset manager, with the fields as `Capture.MainInit`. |
| CaptureApps.MainGestureApp.OnFrameReady | system_data/main_app.py:622-657 | The new state is `Capture.OnFrameReady` of the old one. |
| CaptureApps.MainGestureApp.StartSession | system_data/main_app.py:423-473 | The new state is `Capture.StartSession` of the old one. |
| CaptureApps.MainGestureApp.StopSession | system_data/main_app.py:483-495 | The new state is `Capture.MainStopSession` of the old one. |
| CaptureApps.MainGestureApp.PauseSession | system_data/main_app.py:475-481 | The new state is `Capture.PauseSession` of the old one. |
| CaptureApps.MainGestureApp.CloseEvent | system_data/main_app.py:692-699 | The new state is `Capture.CloseEvent` of the old one. |

## Behaviour of the source worth noting

- Progress reaches 100 already in the RESTING state that follows the last recording, before
  the session becomes COMPLETED. By then `current_gesture_index` has been incremented past
  the last gesture of the last cycle (system_data/session_controller.py:250-252, 370). See
  `Session.ProgressTracksPending`.
- A "SISTEMA:" status line refreshes the liveness clock just as a data frame does. A sensor
  that sends only status lines therefore counts as connected
  (system_data/emg_processor.py:135-136). See `EmgIngest.LineEffects`.
- `MainGestureApp` is fed by `MediaPipeHandProcessor` (system_data/main_app.py:767, 778).
  Its hand-geometry features carry no `emg*` keys, so every sample that app records has
  zero EMG columns. The non-numeric `emg1_raw` of `Capture.MainCountsUnaddedFrame` cannot
  come from that producer. The lemma shows what `_on_frame_ready` does with any features
  `add_sample` rejects.
- `_on_frame_ready` ends by calling `_update_statistics()` (system_data/main_app.py:690).
  That method calls `self.dataset_manager.get_dataset_statistics()`
  (system_data/main_app.py:591). `GestureDatasetManager` defines no such method; it only
  has `get_dataset_info` (system_data/dataset_manager.py:178). So every frame raises
  `AttributeError` once the capture branch is done, and the sample and count changes stand.
  `_load_dataset` (system_data/main_app.py:533) and `_clear_dataset`
  (system_data/main_app.py:552) raise the same way, after the load or the clear.

## Left out

- Toma_de_datos/session_controller.py is not part of this model. In `Capture` and
  `CaptureApps`, the Toma_de_datos application drives the system_data controller.
- Qt widgets, message boxes and file dialogs are left out. The stop confirmation of
  `_stop_session` is the `confirmed` parameter. The save-on-close offer of both
  `closeEvent`s is left out, because it depends on a dialog answer.
- Threads, `QTimer`, sleeps and the worker loops are left out. The reader thread is a pass
  over a sequence of lines. The 50 ms emission of `EMGMonitorWorker.run` is `WorkerEmit`,
  one call per emission.
- Serial I/O, port discovery and `connect()`'s port opening are left out; whether the port
  opened is a parameter. Lines that are not valid UTF-8 arrive as `None` in the logger.
- Wall-clock time and `datetime` formatting are left out. Times are integer milliseconds
  passed in as `now`, and stamps and ISO texts are parameters.
- `_calculate_session_duration` and `get_session_summary` are not modelled; they are
  wall-clock formatting and printing. `GestureSessionController.get_status_info` is not
  modelled either.
- Files and pandas are left out. `save_dataset` returns the table it would write (name,
  columns, rows), and `load_dataset` receives the file's records, or `None` when the file
  is missing. Read errors and NaN clean-up in `load_dataset` are left out, as are write
  errors in `save_dataset`.
- CSV files in the logger are sequences of rows. Opening a file with a name already in use
  truncates it in the source; the model keeps both files.
- `_sample_count` of the EMG processor only drives logging and is left out. The data queue
  is never consumed in the source, and the model does not consume it either.
- The `except` path of `get_emg_features` is left out: a cached frame always holds numbers,
  so it cannot raise.
- `Text.ParseFloat` covers decimal literals with an optional sign, fraction and exponent.
  Python's `float()` also accepts `inf`, `nan`, underscores and Unicode digits; these are
  not modelled. `Text.ParseInt` likewise omits underscores and non-ASCII digits.
  `isdigit()` is modelled for ASCII digits only.
- EmgIngest.DeviceLineRoundTrip: covers device lines with integer channel readings only; a
  float reading's printed form depends on the firmware's float formatting, which is not
  part of this model.
- Schedule.Progress, Session.Status and Values.PyFloat: Python floats are modelled as
  exact reals.
  - `(completed / planned) * 100` (system_data/session_controller.py:252) rounds in
    binary. For 29 of 100 it gives 28.999999999999996, which the progress bar's `int()`
    (system_data/main_app.py:561-562) shows as 28. The model gives 29.
  - `float()` of a reading's text, and `int()` of a large float, round the same way.
  - The scheduling and numbering lemmas do not depend on these values.
- Window: the sketch's `float` buffers are modelled as exact reals. The `analogRead`
  scaling, WiFi, HTTP, JSON and the confidence filter in `predictGesture` are left out;
  `PredictGesture` returns the arrays it would send.
- Session.Status, SessionController.GestureSessionController.Update and
  SessionController.GestureSessionController.GetSessionStatus: these require a configured
  session, which excludes the ticks that come before any `configure_session`.
  - Both apps start their 100 ms `QTimer` in the constructor, before any configuration
    (system_data/main_app.py:829-831, Toma_de_datos/main_app.py:90-92).
  - `__init__` builds `session_stats` without `total_recordings_planned`
    (system_data/session_controller.py:49-54).
  - So an early tick's `update()` sets `last_update_time` and then raises `KeyError` in
    `get_session_status` (system_data/session_controller.py:201-203, 249).
  - In system_data the exception escapes the `_update_session` slot
    (system_data/main_app.py:556-558). In Toma_de_datos it is caught and printed
    (Toma_de_datos/main_app.py:382-392).
  - Such a tick's only other effect is the write of `last_update_time`.
    `Session.LastUpdateIrrelevant` proves that this write changes neither the invariant,
    the schedule nor the pending recordings.
- Capture.OnFrameReady and CaptureApps.MainGestureApp.OnFrameReady: these model the
  effects of `_on_frame_ready` up to its final `_update_statistics()` call. That call always
  raises `AttributeError`, as noted above. The exception and the statistics text are not
  modelled. The `_load_dataset` and `_clear_dataset` handlers of `MainGestureApp` are left
  out with the dialogs they open; `Dataset.LoadDataset` and `Dataset.ClearDataset` model
  the recorder calls they make.
- Session.TickedSessionCompletes and Session.PacedRunCompletes: liveness is proved for
  evenly spaced ticks with no pause or resume in between. The spacing must be at least the
  rest time, the recording duration and the one-second rest. Closer ticks and pauses are
  covered only by the safety lemmas (`Session.SessionFinishesPlanInOrder`).
- Session.RunKeepsSchedule: a run is made of ticks, pauses, resumes and sample counts.
  Configure, start and stop are covered one call at a time (`Session.ConfigureKeepsValid`,
  `Session.StartRunsPlan`, `Session.StopKeepsValid`). A `configure_session` in the middle
  of a running session can move the cursor off the plan.
- Ordering.SortedSet: Python's `set(...)` of values holding both `1` and `1.0` keeps only
  the first one inserted, because the two compare equal and hash alike. The model keeps both
  as distinct values, ordered int first.
