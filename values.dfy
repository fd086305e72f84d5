/** Python values as the recorders see them in their dictionaries: `None`, an `int`, a
    `float` (modelled exactly, as a real number) or a `str`; and Python's `int(...)` and
    `float(...)` conversions of such a value, which raise (here: `None`) on text that
    does not spell a number. */
module Values {
  import opened Wrappers
  import Text

  datatype Scalar = NoneValue | IntValue(i: int) | FloatValue(r: real) | StrValue(s: string)

  /** The names the pipeline uses as dictionary keys, and any other name (a column of a
      loaded file, say) as `Named`. By convention `Named` never spells one of the first
      seventeen (`Canonical` below), so that one Python key is one model key. */
  datatype Key =
    | Timestamp | SessionId | SampleNumber | SeriesNumber | GestureId | GestureName
    | Emg1Raw | Emg2Raw | Emg3Raw | SessionTime | Esp32Timestamp | MovementId | MovementName
    | Emg1 | Emg2 | Emg3 | Mode
    | Named(name: string)

  /** The key as the text Python uses. */
  function KeyName(k: Key): string
  {
    match k
    case Timestamp => "timestamp"
    case SessionId => "session_id"
    case SampleNumber => "sample_number"
    case SeriesNumber => "series_number"
    case GestureId => "gesture_id"
    case GestureName => "gesture_name"
    case Emg1Raw => "emg1_raw"
    case Emg2Raw => "emg2_raw"
    case Emg3Raw => "emg3_raw"
    case SessionTime => "session_time"
    case Esp32Timestamp => "esp32_timestamp"
    case MovementId => "movement_id"
    case MovementName => "movement_name"
    case Emg1 => "emg1"
    case Emg2 => "emg2"
    case Emg3 => "emg3"
    case Mode => "mode"
    case Named(n) => n
  }

  /** The texts of the named keys, in declaration order. */
  const KnownNames: seq<string> := [
    "timestamp", "session_id", "sample_number", "series_number", "gesture_id", "gesture_name",
    "emg1_raw", "emg2_raw", "emg3_raw", "session_time", "esp32_timestamp", "movement_id",
    "movement_name", "emg1", "emg2", "emg3", "mode"]

  /** A key is canonical when it is not a `Named` spelling of one of the named keys, so
      that one Python key is one model key. */
  predicate Canonical(k: Key)
  {
    k.Named? ==> k.name !in KnownNames
  }

  /** Between canonical keys, the Python text decides the key. */
  lemma KeyNameInjective(a: Key, b: Key)
    requires Canonical(a) && Canonical(b) && KeyName(a) == KeyName(b)
    ensures a == b
  {
  }

  /** A Python dictionary from column or feature names to values. */
  type Dict = map<Key, Scalar>

  /** `int(x)` of a float: truncation toward zero. */
  function TruncateToInt(x: real): (t: int)
    ensures x >= 0.0 ==> t as real <= x < t as real + 1.0
    ensures x < 0.0 ==> t as real - 1.0 < x <= t as real
  {
    if x >= 0.0 then x.Floor else -((-x).Floor)
  }

  /** `float(v)`. */
  function PyFloat(v: Scalar): Option<real>
  {
    match v
    case NoneValue => None
    case IntValue(i) => Some(i as real)
    case FloatValue(r) => Some(r)
    case StrValue(s) => Text.ParseFloat(s)
  }

  /** `int(v)`. */
  function PyInt(v: Scalar): Option<int>
  {
    match v
    case NoneValue => None
    case IntValue(i) => Some(i)
    case FloatValue(r) => Some(TruncateToInt(r))
    case StrValue(s) => Text.ParseInt(s)
  }

  /** `str(v)` of a value that is `None` or text. */
  function PyStrOfText(v: Option<string>): string
  {
    if v.None? then "None" else v.value
  }

  /** `d.get(key, default)`. */
  function Get(d: Dict, key: Key, default: Scalar): Scalar
  {
    if key in d then d[key] else default
  }

  /** Numbers convert to themselves; the conversions fail only on text. */
  lemma ConversionsOfNumbers(i: int, r: real)
    ensures PyInt(IntValue(i)) == Some(i) && PyFloat(IntValue(i)) == Some(i as real)
    ensures PyFloat(FloatValue(r)) == Some(r)
    ensures PyInt(FloatValue(r)).Some? && (r >= 0.0 ==> PyInt(FloatValue(r)).value == r.Floor)
  {
  }

  /** Integer-valued text converts with both `int` and `float` to the same number. */
  lemma ConversionsOfIntegerText(n: int)
    ensures PyInt(StrValue(Text.IntToString(n))) == Some(n)
    ensures PyFloat(StrValue(Text.IntToString(n))) == Some(n as real)
  {
    Text.ParseIntOfIntToString(n);
    Text.ParseFloatOfIntToString(n);
  }
}
