/**
 * Sizing of the capture ring buffer.
 *
 * `NextPowerOf2` rounds an unsigned 32-bit value up to a power of two by
 * smearing its highest set bit into every lower position and adding one.
 * All arithmetic is on `bv32`, so the decrement of 0 and the increment of
 * 0xFFFF_FFFF wrap exactly as C's `unsigned` does.
 */
module PowerOfTwo {

  /** A value with exactly one bit set: the test the ring buffer applies to its capacity. */
  predicate IsPowerOfTwo(n: bv32) {
    n != 0 && (n - 1) & n == 0
  }

  /** Sample rate and channel count the recorder sizes its buffer for. */
  const SampleRate: bv32 := 44100
  const NumChannels: nat := 2

  /** Smallest power of two not below `val`, for 1 <= val <= 2^31; 0 otherwise (wrap-around). */
  function NextPowerOf2(val: bv32): (r: bv32)
    ensures 1 <= val <= 0x8000_0000 ==> IsPowerOfTwo(r) && val <= r && r >> 1 < val
    ensures IsPowerOfTwo(val) ==> r == val
    ensures val == 0 || val > 0x8000_0000 ==> r == 0
  {
    var v0 := val - 1;
    var v1 := (v0 >> 1) | v0;
    var v2 := (v1 >> 2) | v1;
    var v3 := (v2 >> 4) | v2;
    var v4 := (v3 >> 8) | v3;
    var v5 := (v4 >> 16) | v4;
    v5 + 1
  }

  /** Half a second of stereo audio at 44.1 kHz, 44100 elements, gets a 65536-element buffer. */
  function RingBufferElements(): (n: bv32)
    ensures IsPowerOfTwo(n) && SampleRate <= n && n == 65536
  {
    NextPowerOf2(SampleRate / 2 * NumChannels as bv32)
  }
}
