/** `GestureDatasetManager` of system_data/dataset_manager.py (Toma_de_datos/dataset_manager.py
    is the same file): an in-memory list of sample records, each a dictionary, numbered from 1
    as they are appended, with a sample counter kept beside the list. The functions below
    describe each operation on a snapshot of the manager; the class in dataset_manager.dfy
    performs them in place. Wall-clock values (the session id's date stamp, the ISO receipt time and the
    start time) are parameters; the CSV file written by `save_dataset` is the table value it
    would contain. */
module Dataset {
  import opened Wrappers
  import opened Values
  import Text
  import Ordering

  /** The columns of the saved file, in file order. */
  const ColumnOrder: seq<Key> := [Timestamp, SessionId, SampleNumber, SeriesNumber,
                                     GestureId, GestureName, Emg1Raw, Emg2Raw, Emg3Raw,
                                     SessionTime, Esp32Timestamp]

  /** The keys `add_sample` may copy from `additional_info`, in the order it tries them. */
  const UsefulKeys: seq<Key> := [MovementId, Esp32Timestamp]

  /** The manager's fields. `sessionId` is absent until the first `start_new_session`; it is
      then both `session_info['session_id']` and `session_info['current_session_id']`. */
  datatype Recorder = Recorder(
    dataset: seq<Dict>,
    sessionId: Option<string>,
    startTime: Option<int>,
    totalSamples: int)

  /** What `save_dataset` would write: the file name, the header and one row per record; an
      absent cell is an empty (NaN) cell. */
  datatype CsvTable = CsvTable(name: string, columns: seq<Key>, rows: seq<seq<Option<Scalar>>>)

  /** `get_dataset_info`: the short form (no distinct values) or the full summary. */
  datatype DatasetInfo =
    | Brief(total: int)
    | Full(total: int, gestures: seq<Scalar>, series: seq<Scalar>, sessionId: string, startTime: Option<int>)

  function Init(): Recorder
  {
    Recorder([], None, None, 0)
  }

  // ---------------------------------------------------------------------------
  // Building one record
  // ---------------------------------------------------------------------------

  /** `float(features.get(key, 0.0))`. */
  function Raw(features: Dict, key: Key): Option<real>
  {
    PyFloat(Get(features, key, FloatValue(0.0)))
  }

  /** `int(features.get(key, 0))`. */
  function Stamp(features: Dict, key: Key): Option<int>
  {
    PyInt(Get(features, key, IntValue(0)))
  }

  /** A missing EMG reading or device time is recorded as zero. */
  lemma MissingFeaturesDefaultToZero(features: Dict, key: Key)
    requires key !in features
    ensures Raw(features, key) == Some(0.0) && Stamp(features, key) == Some(0)
  {
  }

  /** The numbers `add_sample` converts from the features. */
  datatype Readings = Readings(emg1: real, emg2: real, emg3: real, sessionTime: int, esp32Timestamp: int)

  /** The five conversions of `add_sample`, or `None` when one of them raises. */
  function Convert(features: Dict): (rd: Option<Readings>)
    ensures rd.Some? <==> Raw(features, Emg1Raw).Some? && Raw(features, Emg2Raw).Some?
                          && Raw(features, Emg3Raw).Some? && Stamp(features, SessionTime).Some?
                          && Stamp(features, Esp32Timestamp).Some?
    ensures rd.Some? ==> rd.value == Readings(Raw(features, Emg1Raw).value, Raw(features, Emg2Raw).value,
                                              Raw(features, Emg3Raw).value, Stamp(features, SessionTime).value,
                                              Stamp(features, Esp32Timestamp).value)
  {
    var e1 := Raw(features, Emg1Raw);
    var e2 := Raw(features, Emg2Raw);
    var e3 := Raw(features, Emg3Raw);
    var st := Stamp(features, SessionTime);
    var et := Stamp(features, Esp32Timestamp);
    if e1.None? || e2.None? || e3.None? || st.None? || et.None? then None
    else Some(Readings(e1.value, e2.value, e3.value, st.value, et.value))
  }

  /** The eleven fixed fields of a record. */
  function FixedFields(isoNow: string, sessionText: string, sampleNumber: int, seriesNumber: int,
                       gestureId: int, gestureName: string, rd: Readings): (d: Dict)
    ensures d.Keys == set k | k in ColumnOrder
  {
    map[Timestamp := StrValue(isoNow),
        SessionId := StrValue(sessionText),
        SampleNumber := IntValue(sampleNumber),
        SeriesNumber := IntValue(seriesNumber),
        GestureId := IntValue(gestureId),
        GestureName := StrValue(gestureName),
        Emg1Raw := FloatValue(rd.emg1),
        Emg2Raw := FloatValue(rd.emg2),
        Emg3Raw := FloatValue(rd.emg3),
        SessionTime := IntValue(rd.sessionTime),
        Esp32Timestamp := IntValue(rd.esp32Timestamp)]
  }

  /** What the fields identifying the sample hold. */
  lemma FixedFieldOrigin(isoNow: string, sessionText: string, sampleNumber: int, seriesNumber: int,
                         gestureId: int, gestureName: string, rd: Readings)
    ensures var d := FixedFields(isoNow, sessionText, sampleNumber, seriesNumber, gestureId, gestureName, rd);
            d[Timestamp] == StrValue(isoNow) && d[SessionId] == StrValue(sessionText)
            && d[SampleNumber] == IntValue(sampleNumber)
  {
  }

  /** What the label fields hold. */
  lemma FixedFieldLabels(isoNow: string, sessionText: string, sampleNumber: int, seriesNumber: int,
                         gestureId: int, gestureName: string, rd: Readings)
    ensures var d := FixedFields(isoNow, sessionText, sampleNumber, seriesNumber, gestureId, gestureName, rd);
            d[SeriesNumber] == IntValue(seriesNumber) && d[GestureId] == IntValue(gestureId)
            && d[GestureName] == StrValue(gestureName)
  {
  }

  /** What the reading fields hold. */
  lemma FixedFieldReadings(isoNow: string, sessionText: string, sampleNumber: int, seriesNumber: int,
                           gestureId: int, gestureName: string, rd: Readings)
    ensures var d := FixedFields(isoNow, sessionText, sampleNumber, seriesNumber, gestureId, gestureName, rd);
            d[Emg1Raw] == FloatValue(rd.emg1) && d[Emg2Raw] == FloatValue(rd.emg2)
            && d[Emg3Raw] == FloatValue(rd.emg3) && d[SessionTime] == IntValue(rd.sessionTime)
            && d[Esp32Timestamp] == IntValue(rd.esp32Timestamp)
  {
  }

  /** A value copied from `additional_info`: numbers as they are, anything else as its text. */
  function AdditionalValue(v: Scalar): (w: Scalar)
    ensures v.IntValue? || v.FloatValue? ==> w == v
    ensures !(v.IntValue? || v.FloatValue?) ==> w.StrValue?
  {
    match v
    case IntValue(_) => v
    case FloatValue(_) => v
    case StrValue(s) => v
    case NoneValue => StrValue("None")
  }

  /** The loop over `keys`: a key is copied when `info` has it and the record does not yet. */
  function MergeUseful(point: Dict, info: Dict, keys: seq<Key>): (r: Dict)
    ensures forall k :: k in point ==> k in r && r[k] == point[k]
    ensures forall k :: k in keys && k in info ==> k in r
    ensures forall k :: k in r && k !in point ==> k in keys && k in info && r[k] == AdditionalValue(info[k])
    decreases |keys|
  {
    if |keys| == 0 then point
    else
      var m := MergeUseful(point, info, keys[..|keys| - 1]);
      var key := keys[|keys| - 1];
      assert forall k :: k in keys <==> k in keys[..|keys| - 1] || k == key;
      if key in info && key !in m then m[key := AdditionalValue(info[key])] else m
  }

  /** The record `add_sample` appends, or `None` when it raises. */
  function MakeRecord(features: Dict, gestureId: int, gestureName: string, seriesNumber: int,
                      additional: Option<Dict>, isoNow: string, sessionText: string, sampleNumber: int): (r: Option<Dict>)
    ensures r.Some? <==> Convert(features).Some?
  {
    var rd := Convert(features);
    if rd.None? then None
    else
      var point := FixedFields(isoNow, sessionText, sampleNumber, seriesNumber, gestureId, gestureName, rd.value);
      if additional.Some? && |additional.value| > 0 then Some(MergeUseful(point, additional.value, UsefulKeys))
      else Some(point)
  }

  /** A record holds all eleven columns: the arguments as given, the readings converted from
      the features (zero where a feature is missing); `esp32_timestamp` is never taken from
      `additional_info`. */
  lemma RecordFields(features: Dict, gestureId: int, gestureName: string, seriesNumber: int,
                     additional: Option<Dict>, isoNow: string, sessionText: string, sampleNumber: int)
    requires MakeRecord(features, gestureId, gestureName, seriesNumber, additional, isoNow, sessionText, sampleNumber).Some?
    ensures var d := MakeRecord(features, gestureId, gestureName, seriesNumber, additional, isoNow, sessionText,
                                sampleNumber).value;
            (forall k :: k in ColumnOrder ==> k in d)
            && d[Timestamp] == StrValue(isoNow) && d[SessionId] == StrValue(sessionText)
            && d[SampleNumber] == IntValue(sampleNumber) && d[SeriesNumber] == IntValue(seriesNumber)
            && d[GestureId] == IntValue(gestureId) && d[GestureName] == StrValue(gestureName)
            && d[Emg1Raw] == FloatValue(Raw(features, Emg1Raw).value)
            && d[Emg2Raw] == FloatValue(Raw(features, Emg2Raw).value)
            && d[Emg3Raw] == FloatValue(Raw(features, Emg3Raw).value)
            && d[SessionTime] == IntValue(Stamp(features, SessionTime).value)
            && d[Esp32Timestamp] == IntValue(Stamp(features, Esp32Timestamp).value)
  {
    var rd := Convert(features).value;
    var point := FixedFields(isoNow, sessionText, sampleNumber, seriesNumber, gestureId, gestureName, rd);
    FixedFieldOrigin(isoNow, sessionText, sampleNumber, seriesNumber, gestureId, gestureName, rd);
    FixedFieldLabels(isoNow, sessionText, sampleNumber, seriesNumber, gestureId, gestureName, rd);
    FixedFieldReadings(isoNow, sessionText, sampleNumber, seriesNumber, gestureId, gestureName, rd);
  }

  /** The only key `additional_info` can add is `movement_id`, present exactly when the
      dictionary is non-empty and has it. */
  lemma RecordExtraKeys(features: Dict, gestureId: int, gestureName: string, seriesNumber: int,
                        additional: Option<Dict>, isoNow: string, sessionText: string, sampleNumber: int)
    requires MakeRecord(features, gestureId, gestureName, seriesNumber, additional, isoNow, sessionText, sampleNumber).Some?
    ensures var d := MakeRecord(features, gestureId, gestureName, seriesNumber, additional, isoNow, sessionText,
                                sampleNumber).value;
            (forall k :: k in d ==> k in ColumnOrder || k == MovementId)
            && (MovementId in d <==> additional.Some? && |additional.value| > 0 && MovementId in additional.value)
            && (MovementId in d ==> d[MovementId] == AdditionalValue(additional.value[MovementId]))
  {
    assert MovementId !in ColumnOrder;
  }

  // ---------------------------------------------------------------------------
  // The operations
  // ---------------------------------------------------------------------------

  /** The session id `start_new_session` builds from a `%Y%m%d_%H%M%S` stamp. */
  function SessionIdOf(stamp: string): string
  {
    "emg_session_" + stamp
  }

  /** `start_new_session`: a fresh session id and start time, an empty list, a zero counter. */
  function StartNewSession(r: Recorder, stamp: string, now: int): (res: (Recorder, string))
    ensures res.0.dataset == [] && res.0.totalSamples == 0
    ensures res.0.sessionId == Some(res.1) && res.0.startTime == Some(now)
  {
    var id := SessionIdOf(stamp);
    (Recorder([], Some(id), Some(now), 0), id)
  }

  /** `add_sample`: nothing for empty features or a failed conversion; otherwise one record,
      numbered one past the list's length, is appended and the counter goes up by one. */
  function AddSample(r: Recorder, features: Dict, gestureId: int, gestureName: string, seriesNumber: int,
                     additional: Option<Dict>, isoNow: string): (res: (Recorder, bool))
    ensures res.1 <==> |features| > 0 && Convert(features).Some?
    ensures !res.1 ==> res.0 == r
    ensures res.1 ==> res.0 == r.(dataset := r.dataset + [MakeRecord(features, gestureId, gestureName, seriesNumber,
                                     additional, isoNow, PyStrOfText(r.sessionId), |r.dataset| + 1).value],
                                  totalSamples := r.totalSamples + 1)
  {
    if |features| == 0 then (r, false)
    else
      var rec := MakeRecord(features, gestureId, gestureName, seriesNumber, additional,
                            isoNow, PyStrOfText(r.sessionId), |r.dataset| + 1);
      if rec.None? then (r, false)
      else (r.(dataset := r.dataset + [rec.value], totalSamples := r.totalSamples + 1), true)
  }

  /** `clear_dataset`. */
  function ClearDataset(r: Recorder): (res: (Recorder, bool))
    ensures res.1 && res.0.dataset == [] && res.0.totalSamples == 0
    ensures res.0.sessionId == r.sessionId && res.0.startTime == r.startTime
  {
    (r.(dataset := [], totalSamples := 0), true)
  }

  /** `load_dataset` of a file whose records are `file` (`None`: the file does not exist). The
      counter is left as it was. */
  function LoadDataset(r: Recorder, filename: string, file: Option<seq<Dict>>): (res: (Recorder, bool, string))
    ensures file.None? ==> res == (r, false, "Archivo no encontrado: " + filename)
    ensures file.Some? ==> res.1 && res.0 == r.(dataset := file.value)
    ensures file.Some? ==> res.2 == "Dataset cargado exitosamente: " + Text.NatToString(|file.value|) + " muestras"
  {
    if file.None? then (r, false, "Archivo no encontrado: " + filename)
    else (r.(dataset := file.value),
          true, "Dataset cargado exitosamente: " + Text.NatToString(|file.value|) + " muestras")
  }

  /** Every key used by some record: the columns of `pd.DataFrame(dataset)`. */
  function AllKeys(ds: seq<Dict>): (keys: set<Key>)
    ensures forall k :: k in keys <==> exists i :: 0 <= i < |ds| && k in ds[i]
    decreases |ds|
  {
    if |ds| == 0 then {}
    else
      var init := ds[..|ds| - 1];
      assert forall i :: 0 <= i < |init| ==> init[i] == ds[i];
      AllKeys(init) + ds[|ds| - 1].Keys
  }

  /** The rows of the table restricted to `columns`. */
  function Project(ds: seq<Dict>, columns: seq<Key>): (rows: seq<seq<Option<Scalar>>>)
  {
    seq(|ds|, i requires 0 <= i < |ds| =>
      seq(|columns|, j requires 0 <= j < |columns| =>
        if columns[j] in ds[i] then Some(ds[i][columns[j]]) else None))
  }

  /** `[col for col in column_order if col in df.columns]`. */
  function SavedColumns(present: set<Key>): (cols: seq<Key>)
    ensures Ordering.IsSubsequence(cols, ColumnOrder)
    ensures forall c :: c in cols <==> c in ColumnOrder && c in present
    ensures MovementId !in cols
  {
    assert MovementId !in ColumnOrder;
    Ordering.FilterIn(ColumnOrder, present)
  }

  /** The name `save_dataset` writes to when none is given. */
  function DefaultFileName(r: Recorder, stamp: string): string
  {
    "emg_dataset_" + r.sessionId.GetOr("unknown") + "_" + stamp + ".csv"
  }

  /** `save_dataset` (the state is not changed): a refusal for an empty list; otherwise the
      file name and the table, whose columns are the fixed order restricted to the keys the
      records use. */
  function SaveDataset(r: Recorder, filename: Option<string>, stamp: string): (res: (bool, string, Option<CsvTable>))
    ensures |r.dataset| == 0 <==> !res.0
    ensures !res.0 ==> res == (false, "No hay datos para guardar", None)
    ensures res.0 ==> res.2.Some? && res.2.value.name == res.1
    ensures res.0 ==> res.1 == (if filename.Some? then filename.value else DefaultFileName(r, stamp))
    ensures res.0 ==> var cols := res.2.value.columns;
                      Ordering.IsSubsequence(cols, ColumnOrder)
                      && (forall c :: c in cols <==> c in ColumnOrder && c in AllKeys(r.dataset))
                      && MovementId !in cols
    ensures res.0 ==> |res.2.value.rows| == |r.dataset|
  {
    if |r.dataset| == 0 then (false, "No hay datos para guardar", None)
    else
      var name := if filename.Some? then filename.value else DefaultFileName(r, stamp);
      var cols := SavedColumns(AllKeys(r.dataset));
      (true, name, Some(CsvTable(name, cols, Project(r.dataset, cols))))
  }

  /** The values `get_dataset_info` collects from the records for `key`. */
  function Column(ds: seq<Dict>, key: Key, default: Scalar): (vs: seq<Scalar>)
    ensures |vs| == |ds| && forall i :: 0 <= i < |ds| ==> vs[i] == Get(ds[i], key, default)
  {
    seq(|ds|, i requires 0 <= i < |ds| => Get(ds[i], key, default))
  }

  /** `get_dataset_info`: zero for an empty list; the short form also when sorting raises
      (values that cannot be compared); otherwise the distinct gesture names and series numbers
      in increasing order. */
  function GetDatasetInfo(r: Recorder): (info: DatasetInfo)
    ensures |r.dataset| == 0 ==> info == Brief(0)
    ensures |r.dataset| > 0 ==> info.total == |r.dataset|
    ensures info.Full? ==>
              Ordering.StrictlySorted(info.gestures)
              && Ordering.Elems(info.gestures) == Ordering.Elems(Column(r.dataset, GestureName, StrValue("UNKNOWN")))
              && Ordering.StrictlySorted(info.series)
              && Ordering.Elems(info.series) == Ordering.Elems(Column(r.dataset, SeriesNumber, IntValue(1)))
              && info.sessionId == r.sessionId.GetOr("unknown") && info.startTime == r.startTime
  {
    if |r.dataset| == 0 then Brief(0)
    else
      var gestures := Ordering.SortedSet(Column(r.dataset, GestureName, StrValue("UNKNOWN")));
      var series := Ordering.SortedSet(Column(r.dataset, SeriesNumber, IntValue(1)));
      if gestures.None? || series.None? then Brief(|r.dataset|)
      else Full(|r.dataset|, gestures.value, series.value, r.sessionId.GetOr("unknown"), r.startTime)
  }

  // ---------------------------------------------------------------------------
  // What the manager keeps true
  // ---------------------------------------------------------------------------

  /** A record as `add_sample` builds it. */
  predicate IsRecord(d: Dict)
  {
    (forall k :: k in ColumnOrder ==> k in d)
    && GestureName in d && d[GestureName].StrValue?
    && SeriesNumber in d && d[SeriesNumber].IntValue?
  }

  /** The counter equals the list's length, the records are numbered 1, 2, ... in list order,
      and every record carries the session id of the manager. */
  predicate Consistent(r: Recorder)
  {
    r.totalSamples == |r.dataset|
    && forall i :: 0 <= i < |r.dataset| ==>
         IsRecord(r.dataset[i])
         && r.dataset[i][SampleNumber] == IntValue(i + 1)
         && r.dataset[i][SessionId] == StrValue(PyStrOfText(r.sessionId))
  }

  lemma InitConsistent()
    ensures Consistent(Init())
  {
  }

  lemma StartNewSessionConsistent(r: Recorder, stamp: string, now: int)
    ensures Consistent(StartNewSession(r, stamp, now).0)
  {
  }

  lemma ClearConsistent(r: Recorder)
    ensures Consistent(ClearDataset(r).0)
  {
  }

  lemma AddSampleKeepsConsistent(r: Recorder, features: Dict, gestureId: int, gestureName: string,
                                 seriesNumber: int, additional: Option<Dict>, isoNow: string)
    requires Consistent(r)
    ensures Consistent(AddSample(r, features, gestureId, gestureName, seriesNumber, additional, isoNow).0)
  {
    var res := AddSample(r, features, gestureId, gestureName, seriesNumber, additional, isoNow);
    if res.1 {
      var rec := MakeRecord(features, gestureId, gestureName, seriesNumber, additional,
                            isoNow, PyStrOfText(r.sessionId), |r.dataset| + 1);
      RecordFields(features, gestureId, gestureName, seriesNumber, additional,
                   isoNow, PyStrOfText(r.sessionId), |r.dataset| + 1);
      assert IsRecord(rec.value);
      assert res.0.dataset == r.dataset + [rec.value];
      forall i | 0 <= i < |res.0.dataset|
        ensures IsRecord(res.0.dataset[i])
        ensures res.0.dataset[i][SampleNumber] == IntValue(i + 1)
        ensures res.0.dataset[i][SessionId] == StrValue(PyStrOfText(res.0.sessionId))
      {
        if i < |r.dataset| {
          assert res.0.dataset[i] == r.dataset[i];
        } else {
          assert res.0.dataset[i] == rec.value;
        }
      }
    }
  }

  /** A call of `add_sample`, with its receipt time. */
  datatype AddRequest = AddRequest(features: Dict, gestureId: int, gestureName: string, seriesNumber: int,
                                   additional: Option<Dict>, isoNow: string)

  /** `add_sample` called for each request in turn. */
  function AddAll(r: Recorder, reqs: seq<AddRequest>): Recorder
    decreases |reqs|
  {
    if |reqs| == 0 then r
    else
      var q := reqs[|reqs| - 1];
      AddSample(AddAll(r, reqs[..|reqs| - 1]), q.features, q.gestureId, q.gestureName, q.seriesNumber,
                q.additional, q.isoNow).0
  }

  /** Any sequence of `add_sample` calls keeps the records numbered without gaps, the counter
      equal to their number, and only appends. */
  lemma {:induction false} AddAllKeepsConsistent(r: Recorder, reqs: seq<AddRequest>)
    requires Consistent(r)
    ensures Consistent(AddAll(r, reqs))
    ensures r.dataset <= AddAll(r, reqs).dataset && |AddAll(r, reqs).dataset| <= |r.dataset| + |reqs|
    ensures AddAll(r, reqs).sessionId == r.sessionId
    decreases |reqs|
  {
    if |reqs| > 0 {
      var q := reqs[|reqs| - 1];
      var mid := AddAll(r, reqs[..|reqs| - 1]);
      AddAllKeepsConsistent(r, reqs[..|reqs| - 1]);
      AddSampleKeepsConsistent(mid, q.features, q.gestureId, q.gestureName, q.seriesNumber, q.additional, q.isoNow);
    }
  }

  /** After a new session and any `add_sample` calls, the records are numbered 1..N, the
      counter is N and every record carries the new session's id. */
  lemma SessionSamplesNumberedFromOne(r: Recorder, stamp: string, now: int, reqs: seq<AddRequest>)
    ensures var r1 := AddAll(StartNewSession(r, stamp, now).0, reqs);
            r1.totalSamples == |r1.dataset|
            && forall i :: 0 <= i < |r1.dataset| ==>
                 SampleNumber in r1.dataset[i] && r1.dataset[i][SampleNumber] == IntValue(i + 1)
                 && SessionId in r1.dataset[i] && r1.dataset[i][SessionId] == StrValue(SessionIdOf(stamp))
  {
    StartNewSessionConsistent(r, stamp, now);
    AddAllKeepsConsistent(StartNewSession(r, stamp, now).0, reqs);
  }

  /** `load_dataset` replaces the list but not the counter, so the two can disagree: one
      recorded sample, then an empty file loaded. */
  lemma LoadBreaksCounter()
    ensures var features := map[Emg1Raw := FloatValue(1.0)];
            var r1 := AddSample(Init(), features, 0, "REPOSO", 1, None, "t").0;
            var r2 := LoadDataset(r1, "f.csv", Some([])).0;
            Consistent(r1) && r2.totalSamples == 1 && |r2.dataset| == 0
  {
    var features := map[Emg1Raw := FloatValue(1.0)];
    InitConsistent();
    assert MakeRecord(features, 0, "REPOSO", 1, None, "t", "None", 1).Some?;
    AddSampleKeepsConsistent(Init(), features, 0, "REPOSO", 1, None, "t");
  }

  /** Saving the records `add_sample` builds writes exactly the eleven fixed columns. */
  lemma SaveWritesAllColumns(r: Recorder, filename: Option<string>, stamp: string)
    requires Consistent(r) && |r.dataset| > 0
    ensures SaveDataset(r, filename, stamp).2.value.columns == ColumnOrder
  {
    forall k | 0 <= k < |ColumnOrder| ensures ColumnOrder[k] in AllKeys(r.dataset) {
      assert ColumnOrder[k] in r.dataset[0];
    }
    Ordering.FilterInAll(ColumnOrder, AllKeys(r.dataset));
  }

  /** For the records `add_sample` builds the names are text and the series numbers are
      integers, so the summary is always the full one. */
  lemma InfoOfRecordsIsFull(r: Recorder)
    requires Consistent(r) && |r.dataset| > 0
    ensures GetDatasetInfo(r).Full?
  {
    var names := Column(r.dataset, GestureName, StrValue("UNKNOWN"));
    var series := Column(r.dataset, SeriesNumber, IntValue(1));
    Ordering.TextIsSortable(names);
    forall i, j | 0 <= i < |series| && 0 <= j < |series| && series[i] != series[j]
      ensures Ordering.Comparable(series[i], series[j])
    {
      assert series[i].IntValue? && series[j].IntValue?;
    }
  }
}
