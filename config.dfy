/** Startup configuration of the audio relay: fixed constants, not
    reconfigurable at run time. */
module Config {

  /** An octet of the byte stream written to the encoder's standard input. */
  newtype byte = b: int | 0 <= b < 256

  /** Capture sample rate, in Hz. */
  const SAMPLE_RATE: nat := 48000

  /** Number of interleaved channels (stereo). */
  const CHANNELS: nat := 2

  /** Frames pulled from the recorder per capture call. */
  const NUM_FRAMES: nat := 128

  /** Width of one `f32le` sample on the wire. */
  const BYTES_PER_SAMPLE: nat := 4

  /** Bytes of one complete chunk, NUM_FRAMES x CHANNELS x BYTES_PER_SAMPLE
      (see `ChunkBytes`). */
  const CHUNK_BYTES: nat := 1024

  lemma ChunkBytes()
    ensures CHUNK_BYTES == NUM_FRAMES * CHANNELS * BYTES_PER_SAMPLE
  {
  }
}
