/**
 * The capture pipeline: the realtime audio callback that feeds the ring
 * buffer, and the disk-writer thread that drains it into the output file.
 *
 * The two threads are modelled as sequential, interleavable method calls on
 * one `Recorder` (the source's `paTestData` record together with the pause
 * flag it consults). The output file is the sequence of samples appended to
 * it so far; encoding them as WAV is not modelled. The ghost field
 * `Captured` lists every sample the callback accepted, in order, and the
 * recorder's invariant says that the file followed by the unread part of
 * the ring buffer is exactly that list: nothing accepted is lost,
 * duplicated or reordered on its way to the file.
 */
module Capture {
  import opened Wrappers
  import PowerOfTwo
  import opened RingBuffers
  import opened Pause
  import opened ModArith

  /** The writer drains once a quarter of the buffer is filled. */
  const NumWritesPerBuffer: nat := 4
  /** `frameIndex` is a C `unsigned`: it wraps at 2^32. */
  const FrameIndexModulus: nat := 0x1_0000_0000

  /** What an audio callback tells the engine; this one always asks to be called again. */
  datatype StreamCallbackResult = Continue

  class Recorder<T(0)> {
    /** The buffer between the callback and the writer. */
    const ring: RingBuffer<T>
    /** The pause flag the callback consults. */
    const gate: PauseGate
    /** Count of elements (not frames) stored by the callback, modulo 2^32. */
    var frameIndex: nat
    /** Set to ask the writer thread to drain one last time and stop; cleared by the writer. */
    var threadSyncFlag: bool
    /** Samples appended to the output file so far. */
    var wavFile: seq<T>
    /** Every sample the callback has stored in the ring buffer, in order. */
    ghost var Captured: seq<T>

    ghost predicate Valid()
      reads this, ring, ring.data
    {
      ring.Valid() &&
      frameIndex == |Captured| % FrameIndexModulus &&
      wavFile + ring.Contents == Captured
    }

    /** The zero-initialised record over a flushed ring buffer. */
    constructor (ring: RingBuffer<T>, gate: PauseGate)
      requires ring.Valid() && ring.Contents == []
      ensures Valid() && this.ring == ring && this.gate == gate
      ensures frameIndex == 0 && !threadSyncFlag && wavFile == [] && Captured == []
    {
      this.ring := ring;
      this.gate := gate;
      frameIndex := 0;
      threadSyncFlag := false;
      wavFile := [];
      Captured := [];
    }

    /**
     * `recordCallback`: while paused, returns at once and changes nothing.
     * Otherwise stores the first `min(free space, framesPerBuffer * 2)`
     * interleaved samples of `input`, drops the rest, and adds the count
     * stored to `frameIndex`.
     */
    method RecordCallback(input: seq<T>, framesPerBuffer: nat) returns (result: StreamCallbackResult)
      requires Valid() && |input| == framesPerBuffer * PowerOfTwo.NumChannels
      modifies this, ring, ring.data
      ensures Valid() && result == Continue
      ensures gate.paused ==> unchanged(this, ring, ring.data)
      ensures !gate.paused ==>
        var n := Min(old(ring.WriteAvailable()), framesPerBuffer * PowerOfTwo.NumChannels);
        ring.Contents == old(ring.Contents) + input[..n] &&
        Captured == old(Captured) + input[..n] &&
        frameIndex == (old(frameIndex) + n) % FrameIndexModulus
      ensures wavFile == old(wavFile) && threadSyncFlag == old(threadSyncFlag)
      ensures ring.readIndex == old(ring.readIndex)
    {
      if gate.paused {
        return Continue;
      }
      var elementsWriteable := ring.WriteAvailable();
      var elementsToWrite := Min(elementsWriteable, framesPerBuffer * PowerOfTwo.NumChannels);
      ghost var stored := ring.Contents;
      var written := ring.Write(input, elementsToWrite);
      ModAddMod(|Captured|, written, FrameIndexModulus);
      frameIndex := (frameIndex + written) % FrameIndexModulus;
      assert wavFile + ring.Contents == (wavFile + stored) + input[..written];
      Captured := Captured + input[..written];
      return Continue;
    }

    /**
     * One pass of the writer thread's loop (`threadFunctionWriteToWavFile`,
     * without its sleep): `DrainIfDue`, then, after a drain, `ExitIfAsked`.
     * Run without interruption, a drain empties the buffer into the file,
     * and a pass that finds the stop request exits and clears it.
     */
    method WriterStep() returns (exit: bool)
      requires Valid()
      modifies this, ring
      ensures Valid()
      ensures old(ring.ReadAvailable()) >= ring.bufferSize / NumWritesPerBuffer || old(threadSyncFlag) ==>
        wavFile == old(wavFile) + old(ring.Contents) && ring.Contents == []
      ensures old(ring.ReadAvailable()) < ring.bufferSize / NumWritesPerBuffer && !old(threadSyncFlag) ==>
        unchanged(this, ring)
      ensures exit == old(threadSyncFlag) && !threadSyncFlag
      ensures Captured == old(Captured) && frameIndex == old(frameIndex)
      ensures ring.writeIndex == old(ring.writeIndex)
    {
      exit := false;
      var due := DrainIfDue();
      if due {
        exit := ExitIfAsked();
      }
    }

    /**
     * The first half of a writer pass: count the unread elements, and drain
     * them only once a quarter of the buffer is filled or when asked to
     * stop. A drain appends the first read region and then, if the unread
     * elements wrap, the second, and releases them from the buffer.
     */
    method DrainIfDue() returns (due: bool)
      requires Valid()
      modifies this, ring
      ensures Valid()
      ensures due == (old(ring.ReadAvailable()) >= ring.bufferSize / NumWritesPerBuffer || old(threadSyncFlag))
      ensures due ==> wavFile == old(wavFile) + old(ring.Contents) && ring.Contents == []
      ensures !due ==> unchanged(this, ring)
      ensures threadSyncFlag == old(threadSyncFlag) && Captured == old(Captured) && frameIndex == old(frameIndex)
      ensures ring.writeIndex == old(ring.writeIndex)
    {
      var elementsInBuffer := ring.ReadAvailable();
      due := elementsInBuffer >= ring.bufferSize / NumWritesPerBuffer || threadSyncFlag;
      if due {
        var r := ring.GetReadRegions(elementsInBuffer);
        var elementsRead := r.size1 + r.size2;
        ghost var drained := ring.Contents;
        assert ring.data[r.index..r.index + r.size1] + ring.data[..r.size2] == drained;
        if elementsRead > 0 {
          // AppendWavFile for region 0, and for region 1 when the read wraps
          wavFile := wavFile + ring.data[r.index..r.index + r.size1];
          if 0 < r.size2 {
            wavFile := wavFile + ring.data[..r.size2];
          }
          assert wavFile == old(wavFile) + drained;
          ring.AdvanceReadIndex(elementsRead);
        }
        assert wavFile == old(wavFile) + drained && ring.Contents == [];
      }
    }

    /**
     * The second half of a pass that drained: the stop request is read
     * again, and if it is raised the thread leaves its loop and clears it.
     */
    method ExitIfAsked() returns (exit: bool)
      requires Valid()
      modifies this
      ensures Valid()
      ensures exit == old(threadSyncFlag) && !threadSyncFlag
      ensures wavFile == old(wavFile) && Captured == old(Captured) && frameIndex == old(frameIndex)
    {
      exit := threadSyncFlag;
      if exit {
        threadSyncFlag := false;
      }
    }

    /**
     * The threads interleaved at the end of a recording. A pass counts the
     * unread samples and drains them. Before it reads the stop request a
     * second time, the callback, whose stream is not closed yet, stores
     * `late`, and `stopThread` raises the request. The pass then exits with
     * `late` still in the buffer: those samples never reach the file.
     */
    method StopDuringDrain(late: seq<T>, framesPerBuffer: nat)
      requires Valid() && !threadSyncFlag && !gate.paused
      requires ring.ReadAvailable() >= ring.bufferSize / NumWritesPerBuffer
      requires |late| == framesPerBuffer * PowerOfTwo.NumChannels <= ring.bufferSize
      modifies this, ring, ring.data
      ensures Valid() && !threadSyncFlag
      ensures Captured == old(Captured) + late
      ensures wavFile == old(Captured) && ring.Contents == late
    {
      var due := DrainIfDue();
      var _ := RecordCallback(late, framesPerBuffer);
      assert late[..|late|] == late;
      threadSyncFlag := true;
      var exit := ExitIfAsked();
    }

    /**
     * `stopThread`, run sequentially: raise the stop request and let the
     * writer make its final pass. When the request is raised before that
     * pass begins, every sample accepted so far is then in the file and the
     * buffer is empty; `StopDuringDrain` shows the request arriving mid-pass.
     */
    method StopThread()
      requires Valid()
      modifies this, ring
      ensures Valid()
      ensures wavFile == Captured && ring.Contents == [] && !threadSyncFlag
      ensures Captured == old(Captured)
    {
      threadSyncFlag := true;
      var exit := WriterStep();
    }
  }

  /**
   * The set-up of the capture buffer in `main`: half a second of stereo
   * audio rounded up to a power of two, then a ring buffer of that many
   * elements. The library's power-of-two check cannot fail for it.
   */
  method Setup<T(0)>(gate: PauseGate) returns (r: Option<Recorder<T>>)
    ensures r.Some? && fresh(r.value) && fresh(r.value.ring) && fresh(r.value.ring.data)
    ensures r.value.Valid() && r.value.gate == gate && r.value.ring.bufferSize == 65536
    ensures r.value.wavFile == [] && r.value.ring.Contents == [] && r.value.frameIndex == 0
    ensures !r.value.threadSyncFlag && r.value.Captured == []
  {
    var numSamples := PowerOfTwo.RingBufferElements();
    var rb := RingBuffer<T>.Initialize(numSamples);
    if rb.None? {
      return None;
    }
    var recorder := new Recorder(rb.value, gate);
    return Some(recorder);
  }
}
