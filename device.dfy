/** The text protocol of the capture firmware, as the two line readers (system_data/
    emg_processor.py and tomardatos.py) expect it: the session markers, the header line and
    the data lines `timestamp,session_time,emg1,emg2,emg3,movement_id,movement_name`. */
module Device {
  import Text

  /** The line that opens a capture session. */
  const SessionStart: string := "CSV_START"

  /** The line that closes a capture session. */
  const SessionEnd: string := "CSV_END"

  /** The start of the header line. */
  const HeaderPrefix: string := "timestamp,session_time"

  /** The header line written before the data lines. */
  const Header: string := HeaderPrefix + ",emg1,emg2,emg3,movement_id,movement_name"

  /** Characters of a device field: digits, a minus sign, upper-case letters and `_`. */
  predicate FieldChar(c: char)
  {
    Text.IsDigit(c) || c == '-' || ('A' <= c <= 'Z') || c == '_'
  }

  predicate IsLabel(name: string)
  {
    forall j :: 0 <= j < |name| ==> Text.IsDigit(name[j]) || ('A' <= name[j] <= 'Z') || name[j] == '_'
  }

  /** A data line with integer channel readings. */
  function Line(timestamp: int, sessionTime: int, emg1: int, emg2: int, emg3: int,
                movementId: nat, movementName: string): string
  {
    Text.Join(Fields(timestamp, sessionTime, emg1, emg2, emg3, movementId, movementName), ',')
  }

  function Fields(timestamp: int, sessionTime: int, emg1: int, emg2: int, emg3: int,
                  movementId: nat, movementName: string): seq<string>
  {
    [Text.IntToString(timestamp), Text.IntToString(sessionTime), Text.IntToString(emg1),
     Text.IntToString(emg2), Text.IntToString(emg3), Text.NatToString(movementId), movementName]
  }

  lemma IntToStringFields(n: int)
    ensures |Text.IntToString(n)| > 0
    ensures Text.IsDigit(Text.IntToString(n)[0]) || Text.IntToString(n)[0] == '-'
    ensures forall j :: 0 <= j < |Text.IntToString(n)| ==> FieldChar(Text.IntToString(n)[j])
  {
  }

  lemma {:induction false} JoinOfFields(parts: seq<string>)
    requires forall k, j :: 0 <= k < |parts| && 0 <= j < |parts[k]| ==> FieldChar(parts[k][j])
    ensures forall j :: 0 <= j < |Text.Join(parts, ',')| ==>
              FieldChar(Text.Join(parts, ',')[j]) || Text.Join(parts, ',')[j] == ','
    decreases |parts|
  {
    if |parts| == 1 {
      assert Text.Join(parts, ',') == parts[0];
    } else if |parts| > 1 {
      var rest := Text.Join(parts[1..], ',');
      JoinOfFields(parts[1..]);
      var s := Text.Join(parts, ',');
      assert s == parts[0] + [','] + rest;
      forall j | 0 <= j < |s| ensures FieldChar(s[j]) || s[j] == ',' {
        if j < |parts[0]| {
          assert s[j] == parts[0][j];
        } else if j > |parts[0]| {
          assert s[j] == rest[j - |parts[0]| - 1];
        }
      }
    }
  }

  /** The fields of a device line, split back. */
  lemma LineFields(timestamp: int, sessionTime: int, emg1: int, emg2: int, emg3: int,
                   movementId: nat, movementName: string)
    requires IsLabel(movementName)
    ensures var line := Line(timestamp, sessionTime, emg1, emg2, emg3, movementId, movementName);
            Text.Split(line, ',') == Fields(timestamp, sessionTime, emg1, emg2, emg3, movementId, movementName)
            && Text.Contains(line, ",")
            && (Text.IsDigit(line[0]) || line[0] == '-')
            && forall j :: 0 <= j < |line| ==> FieldChar(line[j]) || line[j] == ','
  {
    var parts := Fields(timestamp, sessionTime, emg1, emg2, emg3, movementId, movementName);
    IntToStringFields(timestamp);
    IntToStringFields(sessionTime);
    IntToStringFields(emg1);
    IntToStringFields(emg2);
    IntToStringFields(emg3);
    IntToStringFields(movementId);
    assert Text.NatToString(movementId) == Text.IntToString(movementId);
    assert forall k, j :: 0 <= k < |parts| && 0 <= j < |parts[k]| ==> FieldChar(parts[k][j]);
    Text.SplitOfJoin(parts, ',');
    JoinOfFields(parts);
    var line := Text.Join(parts, ',');
    assert line == parts[0] + [','] + Text.Join(parts[1..], ',');
    assert line[|parts[0]|..|parts[0]| + 1] == ",";
    Text.ContainsAt(line, ",", |parts[0]|);
  }
}
