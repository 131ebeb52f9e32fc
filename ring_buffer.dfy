/**
 * The lock-free single-producer/single-consumer ring buffer (PortAudio's
 * `PaUtilRingBuffer`) through which the audio callback hands samples to the
 * disk writer.
 *
 * The library keeps both indices in [0, 2C) for a capacity of C elements:
 * every index update is masked with `2C - 1`, a slot is an index masked
 * with `C - 1`, and the occupancy is `(write - read) & (2C - 1)`. For a
 * power-of-two C (which initialisation enforces) these masks reduce modulo
 * 2C and C, written here with `Wrap` (see ModArith). The producer and consumer
 * are modelled as sequential calls; atomic loads/stores and memory barriers
 * are not modelled.
 */
module RingBuffers {
  import opened Wrappers
  import opened ModArith
  import opened PowerOfTwo

  /**
   * A run of `size1 + size2` consecutive slots that starts at slot `index`:
   * `size1` slots from `index` on, then `size2` slots from slot 0 when the run
   * wraps past the end of the storage.
   */
  datatype Regions = Regions(index: nat, size1: nat, size2: nat)

  /** How the library splits `count` slots from `index` into at most two contiguous regions. */
  function SplitRegions(index: nat, count: nat, bufferSize: nat): (r: Regions)
    requires index < bufferSize || index == 0
    requires count <= bufferSize
    ensures r.index == index && r.size1 + r.size2 == count
    ensures r.index + r.size1 <= bufferSize
    ensures 0 < r.size2 ==> r.index + r.size1 == bufferSize && r.size2 <= r.index
  {
    if index + count > bufferSize then
      Regions(index, bufferSize - index, count - (bufferSize - index))
    else
      Regions(index, count, 0)
  }

  /**
   * The offset, within the run, of the element that a copy into the regions
   * `r` stores in slot `p`; -1 when slot `p` is not part of the run.
   */
  function CopiedFrom(r: Regions, p: nat): int {
    if r.index <= p < r.index + r.size1 then p - r.index
    else if p < r.size2 then r.size1 + p
    else -1
  }

  /** The slot of the element `k` places after the unmasked index `read`. */
  function SlotAt(read: nat, k: nat, bufferSize: nat): (p: nat)
    requires 0 < bufferSize
    ensures p < bufferSize
  {
    Wrap(read + k, bufferSize)
  }

  /**
   * Element `i` of a run starting at the unmasked index `start` lies in slot
   * `SlotAt(start, i, bufferSize)`, and that slot is where the regions put it.
   */
  lemma RunSlot(start: nat, count: nat, bufferSize: nat, i: nat)
    requires 0 < bufferSize && count <= bufferSize && i < count
    ensures var r := SplitRegions(Wrap(start, bufferSize), count, bufferSize);
      SlotAt(start, i, bufferSize) == if i < r.size1 then r.index + i else i - r.size1
  {
    WrapShift(start, i, bufferSize);
  }

  /** Elements written and not yet read, for indices in [0, 2 * bufferSize). */
  function Occupancy(read: nat, write: nat, bufferSize: nat): nat
    requires 0 < bufferSize && read < 2 * bufferSize
  {
    Wrap(write + 2 * bufferSize - read, 2 * bufferSize)
  }

  /**
   * With `Occupancy` elements unread from `read` on, the free run that starts
   * at the write index covers exactly the `count` slots after them: the
   * unread slots are untouched and the k-th slot after `read` receives
   * element k - occupied.
   */
  lemma WriteRunSlot(read: nat, write: nat, bufferSize: nat, count: nat, k: nat)
    requires 0 < bufferSize && read < 2 * bufferSize && write < 2 * bufferSize
    requires Occupancy(read, write, bufferSize) + count <= bufferSize
    requires k < Occupancy(read, write, bufferSize) + count
    ensures var occupied := Occupancy(read, write, bufferSize);
      CopiedFrom(SplitRegions(Wrap(write, bufferSize), count, bufferSize), SlotAt(read, k, bufferSize))
        == if k < occupied then -1 else k - occupied
  {
    var occupied := Occupancy(read, write, bufferSize);
    WrapOnce(write + 2 * bufferSize - read, 2 * bufferSize);
    if write < read {
      assert write + 2 * bufferSize == read + occupied;
      WrapPeriod(write, bufferSize);
    } else {
      assert write == read + occupied;
    }
    assert Wrap(write, bufferSize) == Wrap(read + occupied, bufferSize);
    WrapShift(read, occupied, bufferSize);
    WrapShift(read, k, bufferSize);
  }

  /** Occupancy after the write index moves `count` elements on. */
  lemma AdvanceWriteOccupancy(read: nat, write: nat, bufferSize: nat, count: nat)
    requires 0 < bufferSize && read < 2 * bufferSize && write < 2 * bufferSize
    requires Occupancy(read, write, bufferSize) + count <= bufferSize
    ensures Occupancy(read, Wrap(write + count, 2 * bufferSize), bufferSize)
      == Occupancy(read, write, bufferSize) + count
  {
    WrapOnce(write + 2 * bufferSize - read, 2 * bufferSize);
    WrapOnce(write + count, 2 * bufferSize);
    WrapOnce(Wrap(write + count, 2 * bufferSize) + 2 * bufferSize - read, 2 * bufferSize);
  }

  /** Occupancy after the read index moves `count` elements on. */
  lemma AdvanceReadOccupancy(read: nat, write: nat, bufferSize: nat, count: nat)
    requires 0 < bufferSize && read < 2 * bufferSize && write < 2 * bufferSize
    requires count <= Occupancy(read, write, bufferSize) <= bufferSize
    ensures Occupancy(Wrap(read + count, 2 * bufferSize), write, bufferSize)
      == Occupancy(read, write, bufferSize) - count
  {
    WrapOnce(write + 2 * bufferSize - read, 2 * bufferSize);
    WrapOnce(read + count, 2 * bufferSize);
    WrapOnce(write + 2 * bufferSize - Wrap(read + count, 2 * bufferSize), 2 * bufferSize);
  }

  /** Masking the advanced read index does not move any slot. */
  lemma AdvanceReadSlot(read: nat, bufferSize: nat, count: nat, j: nat)
    requires 0 < bufferSize && read < 2 * bufferSize && count <= bufferSize
    ensures SlotAt(Wrap(read + count, 2 * bufferSize), j, bufferSize) == SlotAt(read, count + j, bufferSize)
  {
    WrapOnce(read + count, 2 * bufferSize);
    if read + count >= 2 * bufferSize {
      WrapPeriod(read + count - 2 * bufferSize + j, bufferSize);
    }
  }

  /**
   * After a copy through regions `r` that covers exactly the `n` slots
   * following the `before` elements, the slots from `read` on hold `before`
   * followed by the first `n` elements of `src`.
   */
  lemma WriteWindow<T>(before: seq<T>, src: seq<T>, n: nat, oldSlots: seq<T>, newSlots: seq<T>,
                       r: Regions, read: nat, bufferSize: nat)
    requires 0 < bufferSize && |oldSlots| == |newSlots| == bufferSize
    requires n <= |src| && r.size1 + r.size2 == n
    requires forall j :: 0 <= j < |before| ==> before[j] == oldSlots[SlotAt(read, j, bufferSize)]
    requires forall p :: 0 <= p < bufferSize ==>
      newSlots[p] == if 0 <= CopiedFrom(r, p) then src[CopiedFrom(r, p)] else oldSlots[p]
    requires forall k: nat :: k < |before| + n ==>
      CopiedFrom(r, SlotAt(read, k, bufferSize)) == if k < |before| then -1 else k - |before|
    ensures forall j :: 0 <= j < |before| + n ==>
      (before + src[..n])[j] == newSlots[SlotAt(read, j, bufferSize)]
  {
  }

  /** `memcpy` of `n` elements of `src` from offset `from` into `dst` at `at`. */
  method CopyIn<T>(dst: array<T>, at: nat, src: seq<T>, from: nat, n: nat)
    requires at + n <= dst.Length && from + n <= |src|
    modifies dst
    ensures forall p :: 0 <= p < dst.Length ==>
      dst[p] == if at <= p < at + n then src[from + p - at] else old(dst[p])
  {
    var i := 0;
    while i < n
      invariant 0 <= i <= n
      invariant forall p :: 0 <= p < dst.Length ==>
        dst[p] == if at <= p < at + i then src[from + p - at] else old(dst[p])
    {
      dst[at + i] := src[from + i];
      i := i + 1;
    }
  }

  /** The copy into the (at most two) regions `r`: element `CopiedFrom(r, p)` of `src` lands in slot `p`. */
  method CopyRegions<T>(dst: array<T>, r: Regions, src: seq<T>)
    requires r.index + r.size1 <= dst.Length && r.size2 <= r.index && r.size1 + r.size2 <= |src|
    modifies dst
    ensures forall p :: 0 <= p < dst.Length ==>
      dst[p] == if 0 <= CopiedFrom(r, p) then src[CopiedFrom(r, p)] else old(dst[p])
  {
    CopyIn(dst, r.index, src, 0, r.size1);
    if r.size2 > 0 {
      CopyIn(dst, 0, src, r.size1, r.size2);
    }
  }

  class RingBuffer<T(0)> {
    /** Capacity in elements (the library's `bufferSize`). */
    const bufferSize: nat
    /** Element storage, one slot per element. */
    const data: array<T>
    /** Producer and consumer indices, both kept in [0, 2 * bufferSize). */
    var writeIndex: nat
    var readIndex: nat
    /** The unread elements, oldest first. */
    ghost var Contents: seq<T>

    /** Both indices are masked; a buffer of no slots never moves them. */
    predicate IndicesInRange()
      reads this
    {
      if bufferSize == 0 then writeIndex == 0 && readIndex == 0
      else writeIndex < 2 * bufferSize && readIndex < 2 * bufferSize
    }

    /** The library only accepts a capacity that is a power of two, or none at all. */
    predicate PowerOfTwoCapacity() {
      bufferSize < 0x1_0000_0000 && (bufferSize == 0 || IsPowerOfTwo(bufferSize as bv32))
    }

    ghost predicate Valid()
      reads this, data
    {
      data.Length == bufferSize &&
      IndicesInRange() &&
      ReadAvailable() <= bufferSize &&
      |Contents| == ReadAvailable() &&
      forall j :: 0 <= j < |Contents| ==> Contents[j] == data[Slot(j)]
    }

    /** The slot of the element `k` places after the read index. */
    function Slot(k: nat): (p: nat)
      reads this
      ensures 0 < bufferSize ==> p < bufferSize
    {
      if bufferSize == 0 then 0 else SlotAt(readIndex, k, bufferSize)
    }

    /** An initialised, flushed buffer over fresh storage of `elementCount` slots. */
    constructor (elementCount: nat)
      requires elementCount < 0x1_0000_0000 && (elementCount == 0 || IsPowerOfTwo(elementCount as bv32))
      ensures Valid() && PowerOfTwoCapacity() && fresh(data)
      ensures bufferSize == elementCount && writeIndex == 0 && readIndex == 0 && Contents == []
    {
      bufferSize := elementCount;
      data := new T[elementCount];
      writeIndex, readIndex := 0, 0;
      Contents := [];
      if 0 < elementCount {
        WrapOnce(2 * elementCount, 2 * elementCount);
      }
    }

    /**
     * `PaUtil_InitializeRingBuffer`: refuses an element count with more than
     * one bit set (a count of 0 passes the library's test).
     */
    static method Initialize(elementCount: bv32) returns (rb: Option<RingBuffer<T>>)
      ensures rb.Some? <==> elementCount == 0 || IsPowerOfTwo(elementCount)
      ensures rb.Some? ==> fresh(rb.value) && fresh(rb.value.data) && rb.value.Valid() && rb.value.PowerOfTwoCapacity()
      ensures rb.Some? ==> rb.value.bufferSize == elementCount as nat && rb.value.Contents == []
    {
      if (elementCount - 1) & elementCount != 0 {
        return None;
      }
      var b := new RingBuffer(elementCount as nat);
      return Some(b);
    }

    /**
     * `PaUtil_GetRingBufferReadAvailable`: elements written and not yet read,
     * the distance the read index must travel, modulo twice the capacity, to
     * reach the write index.
     */
    function ReadAvailable(): (n: nat)
      reads this
      requires IndicesInRange()
      ensures n <= 2 * bufferSize && (bufferSize == 0 ==> n == 0)
      ensures 0 < bufferSize ==>
        n < 2 * bufferSize && (readIndex + n == writeIndex || readIndex + n == writeIndex + 2 * bufferSize)
    {
      if bufferSize == 0 then 0
      else
        WrapOnce(writeIndex + 2 * bufferSize - readIndex, 2 * bufferSize);
        Occupancy(readIndex, writeIndex, bufferSize)
    }

    /** `PaUtil_GetRingBufferWriteAvailable`: the free slots. */
    function WriteAvailable(): (n: nat)
      reads this, data
      requires Valid()
      ensures n + |Contents| == bufferSize
    {
      bufferSize - ReadAvailable()
    }

    /**
     * `PaUtil_GetRingBufferWriteRegions`: at most `elementCount` free slots,
     * which are exactly the slots following the unread elements.
     */
    function GetWriteRegions(elementCount: nat): (r: Regions)
      reads this, data
      requires Valid()
      ensures r.size1 + r.size2 == Min(elementCount, WriteAvailable())
      ensures r.index + r.size1 <= bufferSize && r.size2 <= r.index
      ensures forall k: nat :: k < |Contents| + r.size1 + r.size2 ==>
        CopiedFrom(r, Slot(k)) == if k < |Contents| then -1 else k - |Contents|
    {
      var count := Min(elementCount, WriteAvailable());
      var index := if bufferSize == 0 then 0 else Wrap(writeIndex, bufferSize);
      var r := SplitRegions(index, count, bufferSize);
      assert forall k: nat :: k < |Contents| + count ==>
        CopiedFrom(r, Slot(k)) == if k < |Contents| then -1 else k - |Contents|
      by {
        forall k: nat | k < |Contents| + count
          ensures CopiedFrom(r, Slot(k)) == if k < |Contents| then -1 else k - |Contents|
        {
          WriteRunSlot(readIndex, writeIndex, bufferSize, count, k);
        }
      }
      r
    }

    /**
     * `PaUtil_GetRingBufferReadRegions`: the oldest `min(elementCount,
     * available)` unread elements, as one region from `index` and, when they
     * wrap, a second from slot 0.
     */
    function GetReadRegions(elementCount: nat): (r: Regions)
      reads this, data
      requires Valid()
      ensures r.size1 + r.size2 == Min(elementCount, |Contents|)
      ensures r.index + r.size1 <= bufferSize && r.size2 <= r.index
      ensures data[r.index..r.index + r.size1] + data[..r.size2] == Contents[..r.size1 + r.size2]
    {
      var count := Min(elementCount, ReadAvailable());
      var index := if bufferSize == 0 then 0 else Wrap(readIndex, bufferSize);
      var r := SplitRegions(index, count, bufferSize);
      assert data[r.index..r.index + r.size1] + data[..r.size2] == Contents[..count] by {
        forall i | 0 <= i < count
          ensures (data[r.index..r.index + r.size1] + data[..r.size2])[i] == Contents[i]
        {
          RunSlot(readIndex, count, bufferSize, i);
        }
      }
      r
    }

    /**
     * `PaUtil_WriteRingBuffer`: copies the first `min(elementCount, free)`
     * elements of `src` behind the unread ones, through at most two regions,
     * and advances the write index past them. The rest of `src` is dropped.
     */
    method Write(src: seq<T>, elementCount: nat) returns (numWritten: nat)
      requires Valid() && elementCount <= |src|
      modifies this, data
      ensures Valid()
      ensures numWritten == Min(elementCount, old(WriteAvailable()))
      ensures Contents == old(Contents) + src[..numWritten]
      ensures readIndex == old(readIndex)
    {
      var r := GetWriteRegions(elementCount);
      ghost var oldSlots := data[..];
      CopyRegions(data, r, src);
      numWritten := r.size1 + r.size2;
      if 0 < bufferSize {
        WriteWindow(Contents, src, numWritten, oldSlots, data[..], r, readIndex, bufferSize);
        AdvanceWriteOccupancy(readIndex, writeIndex, bufferSize, numWritten);
        writeIndex := Wrap(writeIndex + numWritten, 2 * bufferSize);
      }
      Contents := Contents + src[..numWritten];
    }

    /** `PaUtil_AdvanceRingBufferReadIndex`: releases the `elementCount` oldest elements. */
    method AdvanceReadIndex(elementCount: nat)
      requires Valid() && elementCount <= |Contents|
      modifies this
      ensures Valid()
      ensures Contents == old(Contents)[elementCount..]
      ensures writeIndex == old(writeIndex)
    {
      ghost var before := Contents;
      ghost var oldRead := readIndex;
      if 0 < bufferSize {
        AdvanceReadOccupancy(readIndex, writeIndex, bufferSize, elementCount);
        readIndex := Wrap(readIndex + elementCount, 2 * bufferSize);
      }
      Contents := Contents[elementCount..];
      forall j | 0 <= j < |Contents|
        ensures Contents[j] == data[Slot(j)]
      {
        assert Contents[j] == before[elementCount + j];
        AdvanceReadSlot(oldRead, bufferSize, elementCount, j);
      }
    }
  }
}
