/** `GestureDatasetManager` of system_data/dataset_manager.py (and its copy in Toma_de_datos):
    the operations of the `Dataset` functions, performed on the manager's fields. */
module DatasetManager {
  import opened Wrappers
  import opened Values
  import Text
  import opened Dataset

  /** `GestureDatasetManager`: each method changes the fields as the function of the same
      name says, so `Consistent(Snap())` is kept by `StartNewSession`, `AddSample` and
      `ClearDataset`. */
  class GestureDatasetManager {
    var dataset: seq<Dict>
    var sessionId: Option<string>
    var startTime: Option<int>
    var totalSamples: int

    function Snap(): Recorder
      reads this
    {
      Recorder(dataset, sessionId, startTime, totalSamples)
    }

    constructor()
      ensures Snap() == Init()
    {
      dataset := [];
      sessionId := None;
      startTime := None;
      totalSamples := 0;
    }

    method StartNewSession(stamp: string, now: int) returns (id: string)
      modifies this
      ensures (Snap(), id) == Dataset.StartNewSession(old(Snap()), stamp, now)
    {
      id := "emg_session_" + stamp;
      sessionId := Some(id);
      startTime := Some(now);
      totalSamples := 0;
      dataset := [];
    }

    method AddSample(features: Dict, gestureId: int, gestureName: string, seriesNumber: int,
                     additional: Option<Dict>, isoNow: string) returns (ok: bool)
      modifies this
      ensures (Snap(), ok) == Dataset.AddSample(old(Snap()), features, gestureId, gestureName, seriesNumber,
                                                additional, isoNow)
    {
      if |features| == 0 {
        return false;
      }
      var rd := Convert(features);
      if rd.None? {
        return false;
      }
      var point := FixedFields(isoNow, PyStrOfText(sessionId), |dataset| + 1, seriesNumber, gestureId,
                               gestureName, rd.value);
      if additional.Some? && |additional.value| > 0 {
        point := MergeUsefulKeys(point, additional.value);
      }
      dataset := dataset + [point];
      totalSamples := totalSamples + 1;
      ok := true;
    }

    /** The loop of `add_sample` over the useful keys of `additional_info`. */
    static method MergeUsefulKeys(point: Dict, info: Dict) returns (r: Dict)
      ensures r == MergeUseful(point, info, UsefulKeys)
    {
      r := point;
      var i := 0;
      while i < |UsefulKeys|
        invariant 0 <= i <= |UsefulKeys|
        invariant r == MergeUseful(point, info, UsefulKeys[..i])
      {
        var key := UsefulKeys[i];
        assert UsefulKeys[..i + 1][..i] == UsefulKeys[..i];
        if key in info && key !in r {
          r := r[key := AdditionalValue(info[key])];
        }
        i := i + 1;
      }
      assert UsefulKeys[..|UsefulKeys|] == UsefulKeys;
    }

    method SaveDataset(filename: Option<string>, stamp: string) returns (ok: bool, message: string, file: Option<CsvTable>)
      ensures (ok, message, file) == Dataset.SaveDataset(Snap(), filename, stamp)
    {
      if |dataset| == 0 {
        return false, "No hay datos para guardar", None;
      }
      var name := if filename.Some? then filename.value else DefaultFileName(Snap(), stamp);
      var columns := SavedColumns(AllKeys(dataset));
      ok, message, file := true, name, Some(CsvTable(name, columns, Project(dataset, columns)));
    }

    method LoadDataset(filename: string, file: Option<seq<Dict>>) returns (ok: bool, message: string)
      modifies this
      ensures (Snap(), ok, message) == Dataset.LoadDataset(old(Snap()), filename, file)
    {
      if file.None? {
        return false, "Archivo no encontrado: " + filename;
      }
      dataset := file.value;
      ok, message := true, "Dataset cargado exitosamente: " + Text.NatToString(|dataset|) + " muestras";
    }

    method ClearDataset() returns (ok: bool)
      modifies this
      ensures (Snap(), ok) == Dataset.ClearDataset(old(Snap()))
    {
      dataset := [];
      totalSamples := 0;
      ok := true;
    }

    function GetDatasetInfo(): (info: DatasetInfo)
      reads this
      ensures info == Dataset.GetDatasetInfo(Snap())
    {
      Dataset.GetDatasetInfo(Snap())
    }
  }
}
