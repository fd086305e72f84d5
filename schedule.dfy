/** The arithmetic of the gesture session scheduler (system_data/session_controller.py):
    how the cursor (gesture index, cycle) moves to the next recording, which recordings a
    session makes and in what order, the countdown with its truncation to whole seconds,
    the progress percentage and the estimated time remaining. All times are integer
    milliseconds; the session controller's `time.time()` seconds are `now / 1000`. */
module Schedule {
  import opened Wrappers
  import Text
  import Values

  /** A position in the planned schedule: which gesture of the configured list, in which cycle. */
  datatype Cursor = Cursor(gesture: nat, cycle: nat)

  /** The decision `_start_next_recording` takes before a countdown: the cursor it leaves
      behind, and whether the session is complete instead. */
  datatype Step = Step(index: nat, cycle: nat, completed: bool)

  /** `_start_next_recording`: complete if the cycles are used up; after the last gesture,
      wrap to the first gesture of the next cycle (and complete if that cycle is past the
      end); otherwise record the gesture the cursor points at. */
  function NextRecording(index: nat, cycle: nat, count: nat, totalCycles: int): (st: Step)
    ensures !st.completed ==> st.cycle < totalCycles && (count >= 1 ==> st.index < count)
    ensures !st.completed ==> (st.index, st.cycle) == (index, cycle) || (index >= count && st.index == 0 && st.cycle == cycle + 1)
    ensures st.completed <==> cycle >= totalCycles || (index >= count && cycle + 1 >= totalCycles)
  {
    if cycle >= totalCycles then Step(index, cycle, true)
    else if index >= count then
      if cycle + 1 >= totalCycles then Step(0, cycle + 1, true) else Step(0, cycle + 1, false)
    else Step(index, cycle, false)
  }

  /** The recordings a session still makes when `_start_next_recording` runs at the cursor
      `(index, cycle)`, each followed by the increment of the gesture index that ends it. */
  function Visits(index: nat, cycle: nat, count: nat, totalCycles: int): (r: seq<Cursor>)
    requires 1 <= count && index <= count
    ensures forall k :: 0 <= k < |r| ==> r[k].gesture < count && cycle <= r[k].cycle < totalCycles
    decreases totalCycles - cycle, count - index
  {
    var st := NextRecording(index, cycle, count, totalCycles);
    if st.completed then []
    else [Cursor(st.index, st.cycle)] + Visits(st.index + 1, st.cycle, count, totalCycles)
  }

  /** The gestures `from..count-1` of one cycle. */
  function RowFrom(from: nat, cycle: nat, count: nat): (r: seq<Cursor>)
    requires from <= count
    ensures |r| == count - from
    ensures forall k :: 0 <= k < |r| ==> r[k] == Cursor(from + k, cycle)
  {
    seq(count - from, k requires 0 <= k < count - from => Cursor(from + k, cycle))
  }

  /** The plan, cycle-major: every gesture of cycle `cycle`, then of the next cycle, and so on
      up to `totalCycles - 1`. */
  function Plan(count: nat, cycle: nat, totalCycles: int): (r: seq<Cursor>)
    ensures forall k :: 0 <= k < |r| ==> r[k].gesture < count && cycle <= r[k].cycle < totalCycles
    decreases totalCycles - cycle
  {
    if cycle >= totalCycles then [] else RowFrom(0, cycle, count) + Plan(count, cycle + 1, totalCycles)
  }

  /** From the middle of a cycle, the scheduler finishes that cycle and then follows the plan. */
  lemma {:induction false} VisitsFinishRowThenPlan(index: nat, cycle: nat, count: nat, totalCycles: int)
    requires 1 <= count && index <= count && cycle < totalCycles
    ensures Visits(index, cycle, count, totalCycles) == RowFrom(index, cycle, count) + Plan(count, cycle + 1, totalCycles)
    decreases totalCycles - cycle, count - index
  {
    if index < count {
      VisitsFinishRowThenPlan(index + 1, cycle, count, totalCycles);
      RowStep(index, cycle, count, totalCycles);
    } else if cycle + 1 < totalCycles {
      VisitsFinishRowThenPlan(1, cycle + 1, count, totalCycles);
      WrapStep(cycle, count, totalCycles);
    } else {
      assert RowFrom(index, cycle, count) == [];
    }
  }

  /** The step of `VisitsFinishRowThenPlan` inside a cycle. */
  lemma RowStep(index: nat, cycle: nat, count: nat, totalCycles: int)
    requires index < count && cycle < totalCycles
    requires Visits(index + 1, cycle, count, totalCycles)
             == RowFrom(index + 1, cycle, count) + Plan(count, cycle + 1, totalCycles)
    ensures Visits(index, cycle, count, totalCycles) == RowFrom(index, cycle, count) + Plan(count, cycle + 1, totalCycles)
  {
    var cur, row, rest := Cursor(index, cycle), RowFrom(index + 1, cycle, count), Plan(count, cycle + 1, totalCycles);
    VisitsInRow(index, cycle, count, totalCycles);
    RowFromCons(index, cycle, count);
    assert [cur] + (row + rest) == ([cur] + row) + rest;
  }

  /** The step of `VisitsFinishRowThenPlan` from past the last gesture into the next cycle. */
  lemma WrapStep(cycle: nat, count: nat, totalCycles: int)
    requires 1 <= count && cycle + 1 < totalCycles
    requires Visits(1, cycle + 1, count, totalCycles)
             == RowFrom(1, cycle + 1, count) + Plan(count, cycle + 2, totalCycles)
    ensures Visits(count, cycle, count, totalCycles) == RowFrom(count, cycle, count) + Plan(count, cycle + 1, totalCycles)
  {
    var cur, row, rest := Cursor(0, cycle + 1), RowFrom(1, cycle + 1, count), Plan(count, cycle + 2, totalCycles);
    VisitsWrap(cycle, count, totalCycles);
    RowFromCons(0, cycle + 1, count);
    assert RowFrom(count, cycle, count) == [];
    assert Plan(count, cycle + 1, totalCycles) == RowFrom(0, cycle + 1, count) + rest;
    assert [cur] + (row + rest) == ([cur] + row) + rest;
  }

  /** Inside a cycle the scheduler records the gesture at the cursor and moves on by one. */
  lemma VisitsInRow(index: nat, cycle: nat, count: nat, totalCycles: int)
    requires index < count && cycle < totalCycles
    ensures Visits(index, cycle, count, totalCycles)
            == [Cursor(index, cycle)] + Visits(index + 1, cycle, count, totalCycles)
  {
  }

  /** Past the last gesture the scheduler records the first gesture of the next cycle. */
  lemma VisitsWrap(cycle: nat, count: nat, totalCycles: int)
    requires 1 <= count && cycle + 1 < totalCycles
    ensures Visits(count, cycle, count, totalCycles) == [Cursor(0, cycle + 1)] + Visits(1, cycle + 1, count, totalCycles)
  {
  }

  lemma RowFromCons(from: nat, cycle: nat, count: nat)
    requires from < count
    ensures RowFrom(from, cycle, count) == [Cursor(from, cycle)] + RowFrom(from + 1, cycle, count)
  {
  }

  /** A session started at cursor (0, 0) makes exactly the planned recordings, in plan order. */
  lemma SessionFollowsPlan(count: nat, totalCycles: int)
    requires 1 <= count
    ensures Visits(0, 0, count, totalCycles) == Plan(count, 0, totalCycles)
  {
    if totalCycles > 0 {
      VisitsFinishRowThenPlan(0, 0, count, totalCycles);
    }
  }

  /** Gesture `g` of cycle `j` is the planned recording number `(j - cycle) * count + g`. */
  lemma {:induction false} PlanAt(count: nat, cycle: nat, totalCycles: int, j: nat, g: nat)
    requires g < count && cycle <= j < totalCycles
    ensures (j - cycle) * count + g < |Plan(count, cycle, totalCycles)|
    ensures Plan(count, cycle, totalCycles)[(j - cycle) * count + g] == Cursor(g, j)
    decreases totalCycles - cycle
  {
    var row := RowFrom(0, cycle, count);
    var rest := Plan(count, cycle + 1, totalCycles);
    assert Plan(count, cycle, totalCycles) == row + rest;
    if j > cycle {
      PlanAt(count, cycle + 1, totalCycles, j, g);
      var d: nat := j - (cycle + 1);
      NextRowOffset(d, count, g);
      assert (j - cycle) * count + g == |row| + (d * count + g);
    } else {
      assert (j - cycle) * count + g == g;
    }
  }

  lemma NextRowOffset(d: nat, count: nat, g: nat)
    ensures (d + 1) * count + g == count + (d * count + g)
  {
  }

  /** The plan holds `count` recordings per remaining cycle. */
  lemma {:induction false} PlanLength(count: nat, cycle: nat, totalCycles: int)
    requires cycle <= totalCycles
    ensures |Plan(count, cycle, totalCycles)| == (totalCycles - cycle) * count
    decreases totalCycles - cycle
  {
    if cycle < totalCycles {
      PlanLength(count, cycle + 1, totalCycles);
      assert (totalCycles - cycle) * count == count + (totalCycles - (cycle + 1)) * count;
    }
  }

  /** The recordings still to come from a cursor inside an unfinished session: the rest of
      the current cycle plus every gesture of each later cycle. */
  function RemainingRecordings(count: int, index: int, totalCycles: int, cycle: int): int
  {
    (count - index) + (totalCycles - cycle - 1) * count
  }

  /** The estimate `_calculate_time_remaining` multiplies by the time per recording counts
      exactly the recordings the scheduler will still make. */
  lemma RemainingCountsVisits(index: nat, cycle: nat, count: nat, totalCycles: int)
    requires 1 <= count && index <= count && cycle < totalCycles
    ensures |Visits(index, cycle, count, totalCycles)| == RemainingRecordings(count, index, totalCycles, cycle)
  {
    VisitsFinishRowThenPlan(index, cycle, count, totalCycles);
    PlanLength(count, cycle + 1, totalCycles);
  }

  /** The gesture names a sequence of cursors selects from the configured list. */
  function Names(gestures: seq<string>, cs: seq<Cursor>): (r: seq<string>)
    requires forall k :: 0 <= k < |cs| ==> cs[k].gesture < |gestures|
    ensures |r| == |cs|
  {
    seq(|cs|, k requires 0 <= k < |cs| => gestures[cs[k].gesture])
  }

  /** The configured list repeated `n` times. */
  function Repeat(gestures: seq<string>, n: int): seq<string>
    decreases n
  {
    if n <= 0 then [] else gestures + Repeat(gestures, n - 1)
  }

  /** The plan records the configured gestures once per cycle, in configured order. */
  lemma {:induction false} PlanNames(gestures: seq<string>, cycle: nat, totalCycles: int)
    requires |gestures| >= 1
    ensures Names(gestures, Plan(|gestures|, cycle, totalCycles)) == Repeat(gestures, totalCycles - cycle)
    decreases totalCycles - cycle
  {
    if cycle < totalCycles {
      var row := RowFrom(0, cycle, |gestures|);
      var rest := Plan(|gestures|, cycle + 1, totalCycles);
      PlanNames(gestures, cycle + 1, totalCycles);
      assert Plan(|gestures|, cycle, totalCycles) == row + rest;
      NamesAppend(gestures, row, rest);
      NamesOfRow(gestures, cycle);
      assert Repeat(gestures, totalCycles - cycle) == gestures + Repeat(gestures, totalCycles - (cycle + 1));
    }
  }

  lemma NamesAppend(gestures: seq<string>, a: seq<Cursor>, b: seq<Cursor>)
    requires forall k :: 0 <= k < |a| ==> a[k].gesture < |gestures|
    requires forall k :: 0 <= k < |b| ==> b[k].gesture < |gestures|
    ensures Names(gestures, a + b) == Names(gestures, a) + Names(gestures, b)
  {
  }

  /** One whole cycle names every configured gesture once, in order. */
  lemma NamesOfRow(gestures: seq<string>, cycle: nat)
    ensures Names(gestures, RowFrom(0, cycle, |gestures|)) == gestures
  {
  }

  /** A session over `gestures` with `totalCycles` cycles records the whole list once per
      cycle, in configured order. */
  lemma SessionRecordsRepetitions(gestures: seq<string>, totalCycles: int)
    requires |gestures| >= 1
    ensures Names(gestures, Visits(0, 0, |gestures|, totalCycles)) == Repeat(gestures, totalCycles)
  {
    SessionFollowsPlan(|gestures|, totalCycles);
    PlanNames(gestures, 0, totalCycles);
  }

  lemma RepeatTwice(gestures: seq<string>)
    requires |gestures| == 2
    ensures Repeat(gestures, 2) == [gestures[0], gestures[1], gestures[0], gestures[1]]
  {
    assert Repeat(gestures, 1) == gestures + Repeat(gestures, 0) == gestures;
  }

  /** Two gestures and two cycles: the recordings are A, B, A, B, and nothing after. */
  lemma TwoGesturesTwoCycles(gestures: seq<string>)
    requires |gestures| == 2
    ensures Names(gestures, Visits(0, 0, |gestures|, 2)) == [gestures[0], gestures[1], gestures[0], gestures[1]]
  {
    SessionRecordsRepetitions(gestures, 2);
    RepeatTwice(gestures);
  }

  // ---------------------------------------------------------------------------
  // Countdown: `max(0, rest_time - int(elapsed))`
  // ---------------------------------------------------------------------------

  /** The countdown value shown `elapsedMs` after the first countdown tick: the rest time minus
      the elapsed seconds truncated toward zero, but never below 0. */
  function CountdownRemaining(restTime: int, elapsedMs: int): (r: int)
    ensures r >= 0
    ensures elapsedMs >= 0 && restTime >= 0 ==> r <= restTime
  {
    var left := restTime - Values.TruncateToInt(elapsedMs as real / 1000.0);
    if left > 0 then left else 0
  }

  /** For a non-negative elapsed time, truncating the seconds is integer division by 1000. */
  lemma TruncatedSeconds(elapsedMs: int)
    requires elapsedMs >= 0
    ensures Values.TruncateToInt(elapsedMs as real / 1000.0) == elapsedMs / 1000
  {
    var x := elapsedMs as real / 1000.0;
    var q, r := elapsedMs / 1000, elapsedMs % 1000;
    assert elapsedMs == 1000 * q + r;
    assert x == q as real + r as real / 1000.0;
    assert q as real <= x < q as real + 1.0;
    var f := Values.TruncateToInt(x);
    assert f as real <= x < f as real + 1.0;
  }

  /** The countdown reaches 0 exactly when the whole rest time has elapsed; a countdown of a
      non-positive rest time is 0 at the first tick. */
  lemma CountdownExpires(restTime: int, elapsedMs: int)
    requires elapsedMs >= 0
    ensures CountdownRemaining(restTime, elapsedMs) == 0 <==> elapsedMs >= restTime * 1000
  {
    TruncatedSeconds(elapsedMs);
  }

  /** The countdown never goes back up as time passes. */
  lemma CountdownNonincreasing(restTime: int, e1: int, e2: int)
    requires 0 <= e1 <= e2
    ensures CountdownRemaining(restTime, e2) <= CountdownRemaining(restTime, e1)
  {
    TruncatedSeconds(e1);
    TruncatedSeconds(e2);
    DivMonotone(e1, e2);
  }

  lemma DivMonotone(a: nat, b: nat)
    requires a <= b
    ensures a / 1000 <= b / 1000
  {
  }

  /** The fixed rest between recordings, independent of the configured rest time. */
  const RestMs := 1000

  // ---------------------------------------------------------------------------
  // Progress
  // ---------------------------------------------------------------------------

  /** `min(100, completed / planned * 100)` when recordings are planned, else 0. */
  function Progress(completed: nat, planned: int): (p: real)
    ensures 0.0 <= p <= 100.0
  {
    if planned > 0 then
      var x := completed as real / planned as real * 100.0;
      if x < 100.0 then x else 100.0
    else 0.0
  }

  /** Progress is 100 exactly when the completed count reaches the planned count. */
  lemma ProgressFull(completed: nat, planned: int)
    requires planned > 0
    ensures Progress(completed, planned) == 100.0 <==> completed >= planned
  {
    var x := completed as real / planned as real * 100.0;
    if completed >= planned {
      assert completed as real / planned as real >= 1.0;
    } else {
      assert completed as real / planned as real < 1.0;
    }
  }

  /** The cursor counts as `cycle * count + index` recordings done. Measured that way, the
      progress is 100 exactly when the scheduler has no recording left to make from the
      cursor: in the rest after the last recording and at completion, but never while a
      planned recording is still to come. */
  lemma ProgressFullIffNothingLeft(index: nat, cycle: nat, count: nat, totalCycles: int)
    requires 1 <= count && index <= count && totalCycles >= 1
    ensures Progress(cycle * count + index, count * totalCycles) == 100.0
            <==> Visits(index, cycle, count, totalCycles) == []
  {
    ProgressFull(cycle * count + index, count * totalCycles);
    DoneReachesPlanned(index, cycle, count, totalCycles);
  }

  lemma DoneReachesPlanned(index: nat, cycle: nat, count: nat, totalCycles: int)
    requires 1 <= count && index <= count && totalCycles >= 1
    ensures cycle * count + index >= count * totalCycles
            <==> cycle >= totalCycles || (index >= count && cycle + 1 >= totalCycles)
  {
    var t: nat := totalCycles;
    if cycle >= t {
      MulMonotone(t, cycle, count);
    } else if index < count || cycle + 1 < t {
      MulMonotone(cycle + 1, t, count);
      assert (cycle + 1) * count == cycle * count + count;
      if index == count {
        MulMonotone(cycle + 2, t, count);
        assert (cycle + 2) * count == cycle * count + count + count;
      }
    } else {
      assert cycle + 1 == t;
      assert (cycle + 1) * count == cycle * count + count;
    }
  }

  lemma MulMonotone(a: nat, b: nat, k: nat)
    requires a <= b
    ensures a * k <= b * k
  {
  }

  // ---------------------------------------------------------------------------
  // H:MM:SS
  // ---------------------------------------------------------------------------

  function Pad2(n: nat): (s: string)
    requires n < 100
    ensures |s| == 2 && Text.IsDigits(s)
  {
    [Text.DigitChar(n / 10), Text.DigitChar(n % 10)]
  }

  /** `f"{h}:{m:02d}:{s:02d}"` with `h, rest = divmod(total, 3600)` and `m, s = divmod(rest, 60)`
      (floor division, as Python's `divmod` by a positive number). */
  function FormatHms(total: int): string
  {
    var hours, rest := total / 3600, total % 3600;
    Text.IntToString(hours) + ":" + Pad2(rest / 60) + ":" + Pad2(rest % 60)
  }

  /** Reads `H:MM:SS` back into seconds. */
  function ParseHms(s: string): Option<int>
  {
    var parts := Text.Split(s, ':');
    if |parts| == 3 && Text.ParseInt(parts[0]).Some?
       && |parts[1]| == 2 && Text.IsDigits(parts[1])
       && |parts[2]| == 2 && Text.IsDigits(parts[2])
    then Some(Text.ParseInt(parts[0]).value * 3600 + Text.DigitsValue(parts[1]) * 60 + Text.DigitsValue(parts[2]))
    else None
  }

  lemma Pad2Value(n: nat)
    requires n < 100
    ensures Text.DigitsValue(Pad2(n)) == n
  {
    var s := Pad2(n);
    assert s[..1][..0] == [];
    assert s[..1] == [s[0]];
    assert Text.DigitsValue(s[..1]) == Text.DigitValue(s[0]) == n / 10;
    assert Text.DigitsValue(s) == (n / 10) * 10 + n % 10;
  }

  lemma NoColonInNumber(n: int)
    ensures ':' !in Text.IntToString(n)
  {
    var digits := Text.NatToString(if n < 0 then -n else n);
    assert forall k :: 0 <= k < |digits| ==> Text.IsDigit(digits[k]);
    if n < 0 {
      assert Text.IntToString(n) == "-" + digits;
    }
  }

  /** The time text reads back as the number of seconds it was made from. */
  lemma HmsRoundTrip(total: int)
    ensures ParseHms(FormatHms(total)) == Some(total)
  {
    var hours, rest := total / 3600, total % 3600;
    var h, m, s := Text.IntToString(hours), Pad2(rest / 60), Pad2(rest % 60);
    HmsFields(total);
    Text.ParseIntOfIntToString(hours);
    Pad2Value(rest / 60);
    Pad2Value(rest % 60);
    assert ParseHms(FormatHms(total)) == Some(hours * 3600 + (rest / 60) * 60 + rest % 60);
  }

  /** The time text splits at its colons into the hours and the two padded fields. */
  lemma HmsFields(total: int)
    ensures Text.Split(FormatHms(total), ':')
            == [Text.IntToString(total / 3600), Pad2(total % 3600 / 60), Pad2(total % 3600 % 60)]
  {
    var hours, rest := total / 3600, total % 3600;
    var h, m, s := Text.IntToString(hours), Pad2(rest / 60), Pad2(rest % 60);
    NoColonInNumber(hours);
    assert [h, m, s][1..] == [m, s] && [m, s][1..] == [s];
    assert Text.Join([m, s], ':') == m + [':'] + s;
    assert Text.Join([h, m, s], ':') == h + [':'] + (m + [':'] + s);
    assert FormatHms(total) == Text.Join([h, m, s], ':');
    assert ':' !in m && ':' !in s;
    Text.SplitOfJoin([h, m, s], ':');
  }

  /** Nothing left to do reads as `0:00:00`. */
  lemma ZeroHms()
    ensures FormatHms(0) == "0:00:00"
  {
  }
}
