/** The wire format of audio on the encoder's standard input: a captured
    chunk is a NUM_FRAMES x CHANNELS block of samples, and `tobytes` lays it
    out row by row, so channels are interleaved within each frame. Each
    sample is kept as the four little-endian bytes of its 32-bit float; the
    float value itself is not modelled. */
module AudioFormat {
  import opened Config

  /** One 32-bit sample as its four bytes in little-endian order. */
  datatype Sample = Sample(b0: byte, b1: byte, b2: byte, b3: byte)

  /** A captured block: one row per audio frame, one sample per channel. */
  type Block = seq<seq<Sample>>

  /** Every row of `block` holds exactly `channels` samples. */
  predicate Shaped(block: Block, channels: nat)
  {
    forall f :: 0 <= f < |block| ==> |block[f]| == channels
  }

  /** What one call to the recorder with NUM_FRAMES and CHANNELS returns. */
  predicate FullChunk(block: Block)
  {
    |block| == NUM_FRAMES && Shaped(block, CHANNELS)
  }

  function SampleBytes(s: Sample): (r: seq<byte>)
    ensures |r| == BYTES_PER_SAMPLE
  {
    [s.b0, s.b1, s.b2, s.b3]
  }

  /** The bytes of one frame row: its samples back to back, in channel order. */
  function RowBytes(row: seq<Sample>): (r: seq<byte>)
    ensures |r| == BYTES_PER_SAMPLE * |row|
    ensures forall c :: 0 <= c < |row| ==> r[4 * c .. 4 * c + 4] == SampleBytes(row[c])
  {
    if row == [] then []
    else
      var rest := RowBytes(row[1..]);
      var r := SampleBytes(row[0]) + rest;
      assert forall c :: 1 <= c < |row| ==> r[4 * c .. 4 * c + 4] == rest[4 * (c - 1) .. 4 * (c - 1) + 4];
      r
  }

  /** `tobytes` of a block: its rows back to back, in frame order; the
      stream always holds whole 4-byte samples. */
  function Serialize(block: Block): (r: seq<byte>)
    ensures |r| % BYTES_PER_SAMPLE == 0
  {
    if block == [] then [] else RowBytes(block[0]) + Serialize(block[1..])
  }

  /** Splits bytes into samples, four bytes each; a trailing partial sample is dropped. */
  function DecodeSamples(bytes: seq<byte>): seq<Sample>
    decreases |bytes|
  {
    if |bytes| < BYTES_PER_SAMPLE then []
    else [Sample(bytes[0], bytes[1], bytes[2], bytes[3])] + DecodeSamples(bytes[4..])
  }

  /** How a reader that knows the channel count splits a byte stream back
      into frame rows; a trailing partial row is dropped. */
  function Deserialize(bytes: seq<byte>, channels: nat): Block
    requires channels > 0
    decreases |bytes|
  {
    var width := BYTES_PER_SAMPLE * channels;
    if |bytes| < width then []
    else [DecodeSamples(bytes[..width])] + Deserialize(bytes[width..], channels)
  }

  /** The rows after the first of a well-shaped block are well shaped. */
  lemma ShapedTail(block: Block, channels: nat)
    requires block != [] && Shaped(block, channels)
    ensures Shaped(block[1..], channels)
  {
    forall g | 0 <= g < |block[1..]| ensures |block[1..][g]| == channels {
      assert block[1..][g] == block[g + 1];
    }
  }

  /** A well-shaped block serializes to exactly rows x channels x 4 bytes. */
  lemma {:induction false} SerializeLength(block: Block, channels: nat)
    requires Shaped(block, channels)
    ensures |Serialize(block)| == |block| * (channels * BYTES_PER_SAMPLE)
  {
    if block != [] {
      var w := channels * BYTES_PER_SAMPLE;
      assert |RowBytes(block[0])| == w;
      ShapedTail(block, channels);
      SerializeLength(block[1..], channels);
      RowsThenOne(|block| - 1, w);
    }
  }

  lemma RowsThenOne(n: nat, w: nat)
    ensures (n + 1) * w == n * w + w
  {
  }

  /** A full chunk is exactly CHUNK_BYTES (1024) bytes long. */
  lemma ChunkLength(block: Block)
    requires FullChunk(block)
    ensures |Serialize(block)| == CHUNK_BYTES == 1024
  {
    SerializeLength(block, CHANNELS);
  }

  /** Serialization distributes over concatenation of blocks. */
  lemma {:induction false} SerializeAppend(a: Block, b: Block)
    ensures Serialize(a + b) == Serialize(a) + Serialize(b)
  {
    if a == [] {
      assert a + b == b;
    } else {
      assert (a + b)[0] == a[0];
      assert (a + b)[1..] == a[1..] + b;
      SerializeAppend(a[1..], b);
    }
  }

  /** Row f of a block starts right after the bytes of the rows before it. */
  lemma RowAt(block: Block, f: nat)
    requires f < |block|
    ensures var start := |Serialize(block[..f])|;
      && start + |RowBytes(block[f])| <= |Serialize(block)|
      && Serialize(block)[start .. start + |RowBytes(block[f])|] == RowBytes(block[f])
  {
    assert block == block[..f] + block[f..];
    SerializeAppend(block[..f], block[f..]);
    assert block[f..][0] == block[f];
    assert block[f..][1..] == block[f + 1..];
  }

  lemma ShapedPrefix(block: Block, channels: nat, f: nat)
    requires Shaped(block, channels) && f <= |block|
    ensures Shaped(block[..f], channels)
  {
    forall g | 0 <= g < f ensures |block[..f][g]| == channels {
      assert block[..f][g] == block[g];
    }
  }

  lemma SampleOffset(f: nat, channels: nat, c: nat)
    ensures 4 * (f * channels + c) == f * (channels * 4) + 4 * c
  {
  }

  /** Bytes inside an embedded piece are that piece's bytes. */
  lemma SliceWithin(s: seq<byte>, start: nat, piece: seq<byte>, k: nat)
    requires start + |piece| <= |s| && s[start .. start + |piece|] == piece
    requires k + 4 <= |piece|
    ensures s[start + k .. start + k + 4] == piece[k .. k + 4]
  {
    forall j | start + k <= j < start + k + 4 ensures s[j] == piece[j - start] {
      assert s[j] == s[start .. start + |piece|][j - start];
    }
    assert s[start + k .. start + k + 4] == piece[k .. k + 4];
  }

  /** Channel interleaving: sample `c` of frame `f` occupies the four bytes
      starting at offset 4 * (f * channels + c). */
  lemma SampleAt(block: Block, channels: nat, f: nat, c: nat)
    requires Shaped(block, channels)
    requires f < |block| && c < channels
    ensures 4 * (f * channels + c) + 4 <= |Serialize(block)|
    ensures Serialize(block)[4 * (f * channels + c) .. 4 * (f * channels + c) + 4] == SampleBytes(block[f][c])
  {
    var start := |Serialize(block[..f])|;
    RowAt(block, f);
    RowStart(block, channels, f, c);
    SampleInRow(Serialize(block), start, block[f], c);
    SameSlice(Serialize(block), start + 4 * c, 4 * (f * channels + c), SampleBytes(block[f][c]));
  }

  /** Row f of a well-shaped block starts at byte f * channels * 4. */
  lemma RowStart(block: Block, channels: nat, f: nat, c: nat)
    requires Shaped(block, channels) && f < |block|
    ensures 4 * (f * channels + c) == |Serialize(block[..f])| + 4 * c
  {
    ShapedPrefix(block, channels, f);
    SerializeLength(block[..f], channels);
    SampleOffset(f, channels, c);
  }

  /** Sample c of a row laid down at `start` sits 4 * c bytes after it. */
  lemma SampleInRow(whole: seq<byte>, start: nat, row: seq<Sample>, c: nat)
    requires start + |RowBytes(row)| <= |whole| && whole[start .. start + |RowBytes(row)|] == RowBytes(row)
    requires c < |row|
    ensures start + 4 * c + 4 <= |whole| && whole[start + 4 * c .. start + 4 * c + 4] == SampleBytes(row[c])
  {
    SliceWithin(whole, start, RowBytes(row), 4 * c);
  }

  lemma SameSlice(s: seq<byte>, at: nat, offset: nat, piece: seq<byte>)
    requires at == offset && at + 4 <= |s| && s[at .. at + 4] == piece
    ensures offset + 4 <= |s| && s[offset .. offset + 4] == piece
  {
  }

  /** Decoding the bytes of a row gives the row back. */
  lemma {:induction false} DecodeRowBytes(row: seq<Sample>)
    ensures DecodeSamples(RowBytes(row)) == row
  {
    if row != [] {
      var r := RowBytes(row);
      assert r[4..] == RowBytes(row[1..]);
      DecodeRowBytes(row[1..]);
    }
  }

  /** Round trip: a reader told the channel count recovers every row of a
      well-shaped block exactly, in order. */
  lemma {:induction false} DeserializeSerialize(block: Block, channels: nat)
    requires channels > 0 && Shaped(block, channels)
    ensures Deserialize(Serialize(block), channels) == block
  {
    if block != [] {
      var rest := block[1..];
      ShapedTail(block, channels);
      var head := RowBytes(block[0]);
      var s := Serialize(block);
      assert |head| == BYTES_PER_SAMPLE * channels;
      assert s[..|head|] == head;
      assert s[|head|..] == Serialize(rest);
      DecodeRowBytes(block[0]);
      DeserializeSerialize(rest, channels);
    }
  }
}
