/** The sample buffers of API/esp32_client_example.cpp as the sketch keeps them: three global
    arrays of 250 readings and `buffer_index`, written by `loop()` and read out by
    `predictGesture`. `history` is the ghost record of the readings taken since boot. */
module SlidingWindow {
  import opened Wrappers
  import opened Window

  class EmgBuffers {
    const emg1Buffer: array<real>
    const emg2Buffer: array<real>
    const emg3Buffer: array<real>
    var bufferIndex: int
    ghost var history: seq<Sample>

    /** Three distinct arrays of 250 readings. */
    predicate Shape()
      reads this
    {
      && emg1Buffer.Length == Size && emg2Buffer.Length == Size && emg3Buffer.Length == Size
      && emg1Buffer != emg2Buffer && emg1Buffer != emg3Buffer && emg2Buffer != emg3Buffer
    }

    function Snap(): Buffers
      reads this, emg1Buffer, emg2Buffer, emg3Buffer
    {
      Buffers(emg1Buffer[..], emg2Buffer[..], emg3Buffer[..], bufferIndex)
    }

    /** The arrays are in the state the readings of `history` lead to. */
    ghost predicate Valid()
      reads this, emg1Buffer, emg2Buffer, emg3Buffer
    {
      Shape() && Snap() == Feed(history)
    }

    constructor()
      ensures Valid() && history == []
      ensures fresh(emg1Buffer) && fresh(emg2Buffer) && fresh(emg3Buffer)
    {
      emg1Buffer := new real[Size](_ => 0.0);
      emg2Buffer := new real[Size](_ => 0.0);
      emg3Buffer := new real[Size](_ => 0.0);
      bufferIndex := 0;
      history := [];
      new;
      assert emg1Buffer[..] == seq(Size, _ => 0.0);
      assert emg2Buffer[..] == seq(Size, _ => 0.0);
      assert emg3Buffer[..] == seq(Size, _ => 0.0);
    }

    /** The read-out loop of `predictGesture`: the arrays sent, element by element. */
    method PredictGesture() returns (w: Snapshot)
      requires Shape()
      ensures w == Snapshot(emg1Buffer[..], emg2Buffer[..], emg3Buffer[..])
    {
      var a1: seq<real> := [];
      var a2: seq<real> := [];
      var a3: seq<real> := [];
      for i := 0 to Size
        invariant a1 == emg1Buffer[..i] && a2 == emg2Buffer[..i] && a3 == emg3Buffer[..i]
      {
        a1 := a1 + [emg1Buffer[i]];
        a2 := a2 + [emg2Buffer[i]];
        a3 := a3 + [emg3Buffer[i]];
      }
      assert emg1Buffer[..Size] == emg1Buffer[..];
      assert emg2Buffer[..Size] == emg2Buffer[..];
      assert emg3Buffer[..Size] == emg3Buffer[..];
      w := Snapshot(a1, a2, a3);
    }

    /** The shift loop: the three buffers slide left by 50 together. */
    method ShiftBuffers()
      requires Shape()
      modifies emg1Buffer, emg2Buffer, emg3Buffer
      ensures emg1Buffer[..] == Shifted(old(emg1Buffer[..]))
      ensures emg2Buffer[..] == Shifted(old(emg2Buffer[..]))
      ensures emg3Buffer[..] == Shifted(old(emg3Buffer[..]))
    {
      for i := 0 to Keep
        invariant forall k :: 0 <= k < i ==> emg1Buffer[k] == old(emg1Buffer[k + Hop])
        invariant forall k :: i <= k < Size ==> emg1Buffer[k] == old(emg1Buffer[k])
        invariant forall k :: 0 <= k < i ==> emg2Buffer[k] == old(emg2Buffer[k + Hop])
        invariant forall k :: i <= k < Size ==> emg2Buffer[k] == old(emg2Buffer[k])
        invariant forall k :: 0 <= k < i ==> emg3Buffer[k] == old(emg3Buffer[k + Hop])
        invariant forall k :: i <= k < Size ==> emg3Buffer[k] == old(emg3Buffer[k])
      {
        emg1Buffer[i] := emg1Buffer[i + Hop];
        emg2Buffer[i] := emg2Buffer[i + Hop];
        emg3Buffer[i] := emg3Buffer[i + Hop];
      }
    }

    /** `loop()` with the channel readings `s`: the readings are stored at the index and, when
        the buffers are full, the window is sent and the buffers shift. */
    method Loop(s: Sample) returns (sent: Option<Snapshot>)
      requires Valid()
      modifies this, emg1Buffer, emg2Buffer, emg3Buffer
      ensures Valid() && history == old(history) + [s]
      ensures (Snap(), sent) == Window.Loop(old(Snap()), s)
      ensures sent == LastWindow(history)
    {
      emg1Buffer[bufferIndex] := s.emg1;
      emg2Buffer[bufferIndex] := s.emg2;
      emg3Buffer[bufferIndex] := s.emg3;
      bufferIndex := bufferIndex + 1;
      sent := None;
      if bufferIndex >= Size {
        var w := PredictGesture();
        sent := Some(w);
        ShiftBuffers();
        bufferIndex := Keep;
      }
      history := history + [s];
      assert history[..|history| - 1] == old(history);
    }
  }
}
