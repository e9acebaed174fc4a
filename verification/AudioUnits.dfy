/**
 What the audio modules share: the chunk, and the 32-bit counters and clocks.
 */
module AudioUnits {
  /** Samples in a chunk. */
  const CHUNK: nat := 512
  /** Indices, sample clocks and times are 32-bit numbers. */
  const WRAP: nat := 0x1_0000_0000

  lemma ModShift(x: int, k: int)
    ensures (x + WRAP * k) % WRAP == x % WRAP
  {
    assert x + WRAP * k == WRAP * (x / WRAP + k) + x % WRAP;
  }
}
