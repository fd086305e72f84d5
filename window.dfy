/** The sample buffers of the ESP32 client (API/esp32_client_example.cpp): three channel
    buffers of 250 readings filled at one shared index; when they are full, the whole window
    is sent for prediction and the buffers slide left by 50 readings. */
module Window {
  import opened Wrappers

  const Size: nat := 250
  const Hop: nat := 50
  const Keep: nat := 200

  /** One reading of the three channels. */
  datatype Sample = Sample(emg1: real, emg2: real, emg3: real)

  datatype Channel = Emg1 | Emg2 | Emg3

  /** `emg1_buffer`, `emg2_buffer`, `emg3_buffer` and `buffer_index`. */
  datatype Buffers = Buffers(emg1: seq<real>, emg2: seq<real>, emg3: seq<real>, index: int)

  /** The three arrays `predictGesture` sends, element by element. */
  datatype Snapshot = Snapshot(emg1: seq<real>, emg2: seq<real>, emg3: seq<real>)

  function Pick(s: Sample, c: Channel): real
  {
    match c
    case Emg1 => s.emg1
    case Emg2 => s.emg2
    case Emg3 => s.emg3
  }

  function Buf(b: Buffers, c: Channel): seq<real>
  {
    match c
    case Emg1 => b.emg1
    case Emg2 => b.emg2
    case Emg3 => b.emg3
  }

  function Sent(w: Snapshot, c: Channel): seq<real>
  {
    match c
    case Emg1 => w.emg1
    case Emg2 => w.emg2
    case Emg3 => w.emg3
  }

  /** The readings of one channel, oldest first. */
  function Readings(h: seq<Sample>, c: Channel): (r: seq<real>)
    ensures |r| == |h|
  {
    seq(|h|, i requires 0 <= i < |h| => Pick(h[i], c))
  }

  /** The buffers are 250 long and the index points into them. */
  predicate Valid(b: Buffers)
  {
    |b.emg1| == Size && |b.emg2| == Size && |b.emg3| == Size && 0 <= b.index < Size
  }

  /** Global arrays start zeroed. */
  function Init(): (b: Buffers)
    ensures Valid(b) && b.index == 0
  {
    Buffers(seq(Size, _ => 0.0), seq(Size, _ => 0.0), seq(Size, _ => 0.0), 0)
  }

  /** The buffer after the shift loop: each of the first 200 readings is the one 50 places
      further on, and the last 50 are left as they were. */
  function Shifted(a: seq<real>): (r: seq<real>)
    requires |a| == Size
    ensures |r| == Size
    ensures forall i :: 0 <= i < Keep ==> r[i] == a[i + Hop]
    ensures forall i :: Keep <= i < Size ==> r[i] == a[i]
  {
    a[Hop..] + a[Keep..]
  }

  /** One call of `loop()` with the channel readings `s`: the readings are stored at the
      index, the index moves on, and a full buffer is sent for prediction and shifted. */
  function Loop(b: Buffers, s: Sample): (r: (Buffers, Option<Snapshot>))
    requires Valid(b)
    ensures Valid(r.0)
    ensures r.1.Some? <==> b.index + 1 == Size
  {
    var e1 := b.emg1[b.index := s.emg1];
    var e2 := b.emg2[b.index := s.emg2];
    var e3 := b.emg3[b.index := s.emg3];
    var i := b.index + 1;
    if i >= Size then (Buffers(Shifted(e1), Shifted(e2), Shifted(e3), Keep), Some(Snapshot(e1, e2, e3)))
    else (Buffers(e1, e2, e3, i), None)
  }

  /** The buffers after the readings `h` since boot. */
  function Feed(h: seq<Sample>): (b: Buffers)
    ensures Valid(b)
    decreases |h|
  {
    if |h| == 0 then Init() else Loop(Feed(h[..|h| - 1]), h[|h| - 1]).0
  }

  /** The window sent for prediction by the last `loop()` call of `h`, if any. */
  function LastWindow(h: seq<Sample>): Option<Snapshot>
  {
    if |h| == 0 then None else Loop(Feed(h[..|h| - 1]), h[|h| - 1]).1
  }

  /** The index after `n` calls: counting up to 250, then cycling through 200..249. */
  function IndexAfter(n: nat): int
  {
    if n < Size then n else Keep + (n - Size) % Hop
  }

  /** Whether the `n`-th call sends a prediction. */
  predicate Predicts(n: nat)
  {
    n >= Size && (n - Size) % Hop == 0
  }

  lemma ReadingsSnoc(h: seq<Sample>, s: Sample, c: Channel)
    ensures Readings(h + [s], c) == Readings(h, c) + [Pick(s, c)]
  {
  }

  /** The index moves on by one, or back to 200 exactly when a call predicts. */
  lemma IndexStep(n: nat)
    ensures 0 <= IndexAfter(n) <= n
    ensures IndexAfter(n) + 1 == Size <==> Predicts(n + 1)
    ensures IndexAfter(n + 1) == if IndexAfter(n) + 1 == Size then Keep else IndexAfter(n) + 1
  {
  }

  /** One channel of `Loop`. */
  lemma LoopChannel(b: Buffers, s: Sample, c: Channel)
    requires Valid(b)
    ensures var w := Buf(b, c)[b.index := Pick(s, c)];
            && (b.index + 1 == Size ==> Buf(Loop(b, s).0, c) == Shifted(w) && Sent(Loop(b, s).1.value, c) == w)
            && (b.index + 1 < Size ==> Buf(Loop(b, s).0, c) == w)
  {
  }

  /** Storing reading `x` at index `i` of a buffer whose first `i` readings are the last `i`
      of `rs` keeps the buffer recent. */
  lemma StoreKeepsRecent(a: seq<real>, i: int, x: real, rs: seq<real>)
    requires |a| == Size && 0 <= i < Size && i <= |rs|
    requires a[..i] == rs[|rs| - i..]
    ensures a[i := x][..i + 1] == (rs + [x])[|rs| + 1 - (i + 1)..]
  {
    assert a[i := x][..i + 1] == a[..i] + [x];
    assert (rs + [x])[|rs| + 1 - (i + 1)..] == rs[|rs| - i..] + [x];
  }

  /** A full buffer holding the last 250 readings keeps the last 200 after the shift. */
  lemma ShiftKeepsRecent(w: seq<real>, rs: seq<real>)
    requires |w| == Size && Size <= |rs|
    requires w[..Size] == rs[|rs| - Size..]
    ensures w == rs[|rs| - Size..]
    ensures Shifted(w)[..Keep] == rs[|rs| - Keep..]
  {
    assert w == w[..Size];
    assert Shifted(w)[..Keep] == w[Hop..];
  }

  /** The index step of `loop()`: after `n` calls it follows `IndexAfter`, and the buffer
      is sent exactly when `Predicts` says. */
  lemma LoopIndexStep(b: Buffers, s: Sample, n: nat)
    requires Valid(b) && b.index == IndexAfter(n)
    ensures Loop(b, s).0.index == IndexAfter(n + 1)
    ensures Loop(b, s).1.Some? <==> Predicts(n + 1)
  {
    IndexStep(n);
  }

  /** The channel step of `FeedHoldsRecent`: a buffer holding the most recent readings `rs`
      up to its index holds those of `rs + [x]` after the call, and a full one sends them. */
  lemma LoopKeepsRecent(b: Buffers, s: Sample, c: Channel, rs: seq<real>)
    requires Valid(b) && b.index <= |rs|
    requires Buf(b, c)[..b.index] == rs[|rs| - b.index..]
    ensures var r, rx := Loop(b, s), rs + [Pick(s, c)];
            && Buf(r.0, c)[..r.0.index] == rx[|rx| - r.0.index..]
            && (r.1.Some? ==> Sent(r.1.value, c) == rx[|rx| - Size..])
  {
    LoopChannel(b, s, c);
    StoreKeepsRecent(Buf(b, c), b.index, Pick(s, c), rs);
    if b.index + 1 == Size {
      assert Loop(b, s).0.index == Keep;
      LoopSendsRecent(b, s, c, rs);
    }
  }

  /** The call that fills the buffer sends the 250 most recent readings and keeps the last 200. */
  lemma LoopSendsRecent(b: Buffers, s: Sample, c: Channel, rs: seq<real>)
    requires Valid(b) && b.index + 1 == Size && b.index <= |rs|
    requires Buf(b, c)[b.index := Pick(s, c)][..b.index + 1] == (rs + [Pick(s, c)])[|rs| + 1 - (b.index + 1)..]
    requires Buf(Loop(b, s).0, c) == Shifted(Buf(b, c)[b.index := Pick(s, c)])
    requires Sent(Loop(b, s).1.value, c) == Buf(b, c)[b.index := Pick(s, c)]
    requires Loop(b, s).0.index == Keep
    ensures var r, rx := Loop(b, s), rs + [Pick(s, c)];
            && Buf(r.0, c)[..r.0.index] == rx[|rx| - r.0.index..]
            && Sent(r.1.value, c) == rx[|rx| - Size..]
  {
    var w, rx := Buf(b, c)[b.index := Pick(s, c)], rs + [Pick(s, c)];
    ShiftKeepsRecent(w, rx);
  }

  /** After any number of calls the index is `IndexAfter`. */
  lemma {:induction false} FeedIndex(h: seq<Sample>)
    ensures Feed(h).index == IndexAfter(|h|) <= |h|
    decreases |h|
  {
    IndexStep(|h|);
    if |h| == 0 {
      assert Feed(h) == Init();
    } else {
      var init := h[..|h| - 1];
      FeedIndex(init);
      LoopIndexStep(Feed(init), h[|h| - 1], |init|);
      assert Feed(h) == Loop(Feed(init), h[|h| - 1]).0;
    }
  }

  lemma FeedIndexBound(h: seq<Sample>)
    ensures Feed(h).index <= |h|
  {
    FeedIndex(h);
  }

  /** After any number of calls each channel buffer holds the most recent `index` readings
      of its channel, oldest first, up to the index. */
  lemma {:induction false} FeedHoldsRecent(h: seq<Sample>, c: Channel)
    ensures Feed(h).index <= |h|
    ensures Buf(Feed(h), c)[..Feed(h).index] == Readings(h, c)[|h| - Feed(h).index..]
    decreases |h|
  {
    FeedIndexBound(h);
    if |h| == 0 {
      assert Feed(h) == Init();
    } else {
      var init, s := h[..|h| - 1], h[|h| - 1];
      var b := Feed(init);
      FeedHoldsRecent(init, c);
      LoopKeepsRecent(b, s, c, Readings(init, c));
      assert h == init + [s];
      ReadingsSnoc(init, s, c);
      assert Readings(h, c) == Readings(init, c) + [Pick(s, c)];
      assert Feed(h) == Loop(b, s).0;
    }
  }

  /** At every prediction the arrays sent hold the 250 most recent readings of each channel,
      oldest first; a prediction is sent exactly at the calls `Predicts` names. */
  lemma WindowIsRecent(h: seq<Sample>)
    requires |h| > 0
    ensures LastWindow(h).Some? <==> Predicts(|h|)
    ensures LastWindow(h).Some? ==> forall c :: Sent(LastWindow(h).value, c) == Readings(h, c)[|h| - Size..]
  {
    var init, s := h[..|h| - 1], h[|h| - 1];
    assert h == init + [s];
    FeedIndex(init);
    LoopIndexStep(Feed(init), s, |init|);
    assert LastWindow(h) == Loop(Feed(init), s).1;
    forall c | LastWindow(h).Some?
      ensures Sent(LastWindow(h).value, c) == Readings(h, c)[|h| - Size..]
    {
      FeedHoldsRecent(init, c);
      LoopKeepsRecent(Feed(init), s, c, Readings(init, c));
      ReadingsSnoc(init, s, c);
    }
  }

  /** The first prediction comes with the 250th reading and each later one 50 readings after
      the previous. */
  lemma PredictionSpacing(n: nat)
    ensures n < Size ==> !Predicts(n)
    ensures Predicts(Size)
    ensures Predicts(n) ==> Predicts(n + Hop) && forall k :: n < k < n + Hop ==> !Predicts(k)
  {
  }
}
