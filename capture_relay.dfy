/** The capture-relay loop: each iteration pulls one chunk from the
    recorder and writes its bytes to the encoder's standard input; an error
    from either step is logged and the loop goes on. The never-ending loop
    is bounded here by a script of N ticks, one per iteration, saying what
    the recorder returns, whether the pipe write raises, and whether the
    encoder process is found to have ended by itself (e.g. its network
    output failed), after which every write to it fails. */
module CaptureRelay {
  import opened Config
  import opened AudioFormat
  import opened EncoderProcess
  import opened DeviceResolver

  /** What one call to `record` does: return a block or raise. */
  datatype RecordOutcome = Recorded(block: Block) | RecordFailed

  /** The environment of one iteration: whether the encoder process is found
      to have ended by itself before this iteration's write (its pipe
      rejects writes from then on), the recorder's outcome, and whether the
      pipe itself raises on a write. */
  datatype Tick = Tick(encoderExits: bool, record: RecordOutcome, pipeFault: bool)

  /** The kind of exception caught and logged by the loop. */
  datatype Failure = CaptureError | WriteError

  /** How the capture routine ends: it aborts before recording when there
      is no input device at all, or it relays from the chosen device. */
  datatype CaptureOutcome = NoDevice | Relayed(device: nat, log: seq<Failure>)

  /** The effect of one iteration: a block written whole, or one log entry. */
  datatype StepResult = Wrote(block: Block) | Logged(failure: Failure)

  /** One iteration (the `try` body and its handler) against an encoder
      that is (`alive`) or is not running. */
  function StepResultOf(alive: bool, t: Tick): (r: StepResult)
    ensures r.Wrote? <==> alive && !t.pipeFault && t.record.Recorded?
    ensures r.Wrote? ==> t.record == Recorded(r.block)
    ensures r.Logged? ==> (r.failure == CaptureError <==> t.record.RecordFailed?)
  {
    match t.record
    case RecordFailed => Logged(CaptureError)
    case Recorded(block) => if alive && !t.pipeFault then Wrote(block) else Logged(WriteError)
  }

  function StepBytes(r: StepResult): seq<byte>
  {
    if r.Wrote? then Serialize(r.block) else []
  }

  /** Whether the encoder is still running during the last iteration of
      `script`, given whether it was running when the loop started. */
  function Alive(running: bool, script: seq<Tick>): bool
  {
    if script == [] then running
    else Alive(running, script[..|script| - 1]) && !script[|script| - 1].encoderExits
  }

  /** An encoder alive at the end was running when the loop started. */
  lemma {:induction false} AliveWasRunning(running: bool, script: seq<Tick>)
    ensures Alive(running, script) ==> running
  {
    if script != [] {
      AliveWasRunning(running, script[..|script| - 1]);
    }
  }

  /** The effect of the last iteration of a non-empty script. */
  function LastStep(running: bool, script: seq<Tick>): StepResult
    requires script != []
  {
    StepResultOf(Alive(running, script), script[|script| - 1])
  }

  /** The encoder's state after the iterations of `script`. */
  function StateAfter(initial: ProcessState, script: seq<Tick>): ProcessState
  {
    if Alive(initial == Running, script) then Running
    else if initial == Running then Exited
    else initial
  }

  /** Bytes appended to the encoder's standard input by the iterations of `script`. */
  function Delivered(running: bool, script: seq<Tick>): seq<byte>
  {
    if script == [] then []
    else Delivered(running, script[..|script| - 1]) + StepBytes(LastStep(running, script))
  }

  /** Log entries printed by the iterations of `script`. */
  function Log(running: bool, script: seq<Tick>): seq<Failure>
  {
    if script == [] then []
    else
      var r := LastStep(running, script);
      Log(running, script[..|script| - 1]) + (if r.Logged? then [r.failure] else [])
  }

  /** Number of iterations of `script` that wrote a block. */
  function Successes(running: bool, script: seq<Tick>): nat
  {
    if script == [] then 0
    else Successes(running, script[..|script| - 1]) + (if LastStep(running, script).Wrote? then 1 else 0)
  }

  /** The frame rows of the blocks written, in capture order. */
  function DeliveredRows(running: bool, script: seq<Tick>): Block
  {
    if script == [] then []
    else
      var r := LastStep(running, script);
      DeliveredRows(running, script[..|script| - 1]) + (if r.Wrote? then r.block else [])
  }

  /** Number of iterations whose `record` call returned a block. */
  function Captures(script: seq<Tick>): nat
  {
    if script == [] then 0
    else Captures(script[..|script| - 1]) + (if script[|script| - 1].record.Recorded? then 1 else 0)
  }

  /** The recorder keeps its promise: every block it returns is a full
      NUM_FRAMES x CHANNELS chunk. */
  predicate RecorderKeepsShape(script: seq<Tick>)
  {
    forall i :: 0 <= i < |script| && script[i].record.Recorded? ==> FullChunk(script[i].record.block)
  }

  lemma PrefixKeepsShape(script: seq<Tick>, n: nat)
    requires RecorderKeepsShape(script) && n <= |script|
    ensures RecorderKeepsShape(script[..n])
  {
    assert forall i :: 0 <= i < n ==> script[..n][i] == script[i];
  }

  /** One more iteration either appends exactly one whole block and logs
      nothing, or appends nothing and logs exactly one entry. It writes
      exactly when the encoder is still alive, the pipe holds and `record`
      returned a block. */
  lemma {:induction false} OneIteration(running: bool, script: seq<Tick>, t: Tick)
    ensures Alive(running, script + [t]) == (Alive(running, script) && !t.encoderExits)
    ensures var r := StepResultOf(Alive(running, script + [t]), t);
      || (r.Wrote? && t.record == Recorded(r.block)
          && Delivered(running, script + [t]) == Delivered(running, script) + Serialize(r.block)
          && Log(running, script + [t]) == Log(running, script)
          && Successes(running, script + [t]) == Successes(running, script) + 1)
      || (r.Logged?
          && Delivered(running, script + [t]) == Delivered(running, script)
          && Log(running, script + [t]) == Log(running, script) + [r.failure]
          && Successes(running, script + [t]) == Successes(running, script))
  {
    assert (script + [t])[..|script|] == script;
    assert (script + [t])[|script|] == t;
  }

  /** Failure isolation: every iteration is accounted for, as a write or
      as a log entry; no error ends the loop early. */
  lemma {:induction false} EveryIterationAccounted(running: bool, script: seq<Tick>)
    ensures Successes(running, script) + |Log(running, script)| == |script|
  {
    if script != [] {
      EveryIterationAccounted(running, script[..|script| - 1]);
    }
  }

  /** Byte count: each successful iteration adds exactly CHUNK_BYTES (1024) bytes. */
  lemma {:induction false} DeliveredLength(running: bool, script: seq<Tick>)
    requires RecorderKeepsShape(script)
    ensures |Delivered(running, script)| == Successes(running, script) * CHUNK_BYTES
  {
    if script != [] {
      var n := |script| - 1;
      PrefixKeepsShape(script, n);
      DeliveredLength(running, script[..n]);
      var r := LastStep(running, script);
      if r.Wrote? {
        ChunkLength(r.block);
      }
    }
  }

  /** Ordering without splitting: the block of the k-th successful iteration
      (counting from 0) occupies bytes [k * CHUNK_BYTES, (k + 1) * CHUNK_BYTES). */
  lemma {:induction false} DeliveredChunkAt(running: bool, script: seq<Tick>, i: nat)
    requires RecorderKeepsShape(script)
    requires i < |script| && LastStep(running, script[..i + 1]).Wrote?
    ensures var k := Successes(running, script[..i]);
      && (k + 1) * CHUNK_BYTES <= |Delivered(running, script)|
      && Delivered(running, script)[k * CHUNK_BYTES .. (k + 1) * CHUNK_BYTES] == Serialize(script[i].record.block)
  {
    var n := |script| - 1;
    if i == n {
      LastChunkAt(running, script, i);
    } else {
      var prefix := script[..n];
      PrefixKeepsShape(script, n);
      assert prefix[..i + 1] == script[..i + 1];
      DeliveredChunkAt(running, prefix, i);
      EarlierChunkAt(running, script, i);
    }
  }

  /** A chunk delivered before the last iteration stays where it is: each
      iteration only appends. */
  lemma EarlierChunkAt(running: bool, script: seq<Tick>, i: nat)
    requires i + 1 < |script|
    requires var prefix := script[..|script| - 1];
      var k := Successes(running, prefix[..i]);
      && LastStep(running, prefix[..i + 1]).Wrote?
      && (k + 1) * CHUNK_BYTES <= |Delivered(running, prefix)|
      && Delivered(running, prefix)[k * CHUNK_BYTES .. (k + 1) * CHUNK_BYTES] == Serialize(prefix[i].record.block)
    ensures var k := Successes(running, script[..i]);
      && (k + 1) * CHUNK_BYTES <= |Delivered(running, script)|
      && Delivered(running, script)[k * CHUNK_BYTES .. (k + 1) * CHUNK_BYTES] == Serialize(script[i].record.block)
  {
    var prefix := script[..|script| - 1];
    assert prefix[..i] == script[..i];
    assert prefix[i] == script[i];
    var k := Successes(running, script[..i]);
    var front := Delivered(running, prefix);
    var whole := Delivered(running, script);
    assert whole == front + StepBytes(LastStep(running, script));
    PrefixSlice(front, whole, k * CHUNK_BYTES, (k + 1) * CHUNK_BYTES);
  }

  /** The chunk written by the last iteration ends the byte stream. */
  lemma LastChunkAt(running: bool, script: seq<Tick>, i: nat)
    requires RecorderKeepsShape(script)
    requires i == |script| - 1 && LastStep(running, script[..i + 1]).Wrote?
    ensures var k := Successes(running, script[..i]);
      && (k + 1) * CHUNK_BYTES <= |Delivered(running, script)|
      && Delivered(running, script)[k * CHUNK_BYTES .. (k + 1) * CHUNK_BYTES] == Serialize(script[i].record.block)
  {
    var prefix := script[..i];
    assert script[..i + 1] == script;
    PrefixKeepsShape(script, i);
    var front := Delivered(running, prefix);
    var last := StepBytes(LastStep(running, script));
    DeliveredLength(running, prefix);
    ChunkLength(script[i].record.block);
    SliceWithinChunk(Delivered(running, script), front, last);
  }

  lemma SliceWithinChunk(whole: seq<byte>, front: seq<byte>, last: seq<byte>)
    requires whole == front + last
    ensures whole[|front| .. |front| + |last|] == last
  {
  }

  lemma PrefixSlice(front: seq<byte>, whole: seq<byte>, lo: nat, hi: nat)
    requires lo <= hi <= |front| <= |whole| && front == whole[..|front|]
    ensures whole[lo .. hi] == front[lo .. hi]
  {
  }

  /** The byte stream is exactly the serialization of the captured rows of
      the successful iterations, concatenated in capture order. */
  lemma {:induction false} DeliveredIsSerializedRows(running: bool, script: seq<Tick>)
    ensures Delivered(running, script) == Serialize(DeliveredRows(running, script))
  {
    if script != [] {
      var n := |script| - 1;
      DeliveredIsSerializedRows(running, script[..n]);
      var r := LastStep(running, script);
      var tail: Block := if r.Wrote? then r.block else [];
      SerializeAppend(DeliveredRows(running, script[..n]), tail);
    }
  }

  /** Every written block had the recorder's shape, so the rows delivered
      have CHANNELS samples each and number NUM_FRAMES per success. */
  lemma {:induction false} DeliveredRowsShape(running: bool, script: seq<Tick>)
    requires RecorderKeepsShape(script)
    ensures Shaped(DeliveredRows(running, script), CHANNELS)
    ensures |DeliveredRows(running, script)| == Successes(running, script) * NUM_FRAMES
  {
    if script != [] {
      var n := |script| - 1;
      PrefixKeepsShape(script, n);
      DeliveredRowsShape(running, script[..n]);
      var rows := DeliveredRows(running, script);
      var front := DeliveredRows(running, script[..n]);
      var r := LastStep(running, script);
      var tail: Block := if r.Wrote? then r.block else [];
      assert rows == front + tail;
      forall f | 0 <= f < |rows| ensures |rows[f]| == CHANNELS {
        if f >= |front| {
          assert rows[f] == tail[f - |front|];
        }
      }
    }
  }

  /** End to end: an encoder that reads `f32le` with CHANNELS channels from
      its standard input recovers exactly the captured rows of the successful
      iterations, in order. */
  lemma EncoderReadsCapturedRows(running: bool, script: seq<Tick>)
    requires RecorderKeepsShape(script)
    ensures Deserialize(Delivered(running, script), CHANNELS) == DeliveredRows(running, script)
  {
    DeliveredIsSerializedRows(running, script);
    DeliveredRowsShape(running, script);
    DeserializeSerialize(DeliveredRows(running, script), CHANNELS);
  }

  /** With an encoder that stays up and a healthy pipe, every captured
      block is written: only failed `record` calls are logged. */
  lemma {:induction false} HealthyPipeWritesEveryCapture(script: seq<Tick>)
    requires forall i :: 0 <= i < |script| ==> !script[i].pipeFault && !script[i].encoderExits
    ensures Alive(true, script)
    ensures Successes(true, script) == Captures(script)
    ensures forall i :: 0 <= i < |Log(true, script)| ==> Log(true, script)[i] == CaptureError
  {
    if script != [] {
      var n := |script| - 1;
      assert forall i :: 0 <= i < n ==> script[..n][i] == script[i];
      HealthyPipeWritesEveryCapture(script[..n]);
    }
  }

  /** Silent degradation: with the encoder gone from the start, every
      iteration logs and nothing reaches its standard input. */
  lemma {:induction false} DeadEncoderReceivesNothing(script: seq<Tick>)
    ensures !Alive(false, script)
    ensures Delivered(false, script) == []
    ensures |Log(false, script)| == |script|
  {
    if script != [] {
      DeadEncoderReceivesNothing(script[..|script| - 1]);
    }
  }

  /** An encoder that exits by itself in iteration j stays down. */
  lemma {:induction false} ExitedStaysDown(running: bool, script: seq<Tick>, j: nat)
    requires j < |script| && script[j].encoderExits
    ensures !Alive(running, script)
  {
    var n := |script| - 1;
    if j < n {
      assert script[..n][j] == script[j];
      ExitedStaysDown(running, script[..n], j);
    }
  }

  /** The last iteration against an encoder that is down writes nothing and logs once. */
  lemma LastStepDown(running: bool, script: seq<Tick>)
    requires script != [] && !Alive(running, script)
    ensures Delivered(running, script) == Delivered(running, script[..|script| - 1])
    ensures |Log(running, script)| == |Log(running, script[..|script| - 1])| + 1
  {
    assert LastStep(running, script).Logged?;
  }

  /** Silent degradation mid-stream: once the encoder exits by itself in
      iteration j, nothing more reaches its standard input, every later
      iteration (j included) logs one entry, and the loop still runs on. */
  lemma {:induction false} ExitedEncoderReceivesNothingMore(running: bool, script: seq<Tick>, j: nat)
    requires j < |script| && script[j].encoderExits
    ensures !Alive(running, script)
    ensures Delivered(running, script) == Delivered(running, script[..j])
    ensures |Log(running, script)| == |Log(running, script[..j])| + (|script| - j)
  {
    var n := |script| - 1;
    var prefix := script[..n];
    Snoc(running, script, n);
    assert script[..n + 1] == script;
    ExitedStaysDown(running, script, j);
    LastStepDown(running, script);
    if j < n {
      assert prefix[..j] == script[..j];
      assert prefix[j] == script[j];
      ExitedEncoderReceivesNothingMore(running, prefix, j);
    } else {
      assert prefix == script[..j];
    }
  }

  /** The first i + 1 iterations are the first i followed by iteration i. */
  lemma Snoc(running: bool, script: seq<Tick>, i: nat)
    requires i < |script|
    ensures Alive(running, script[..i + 1]) == (Alive(running, script[..i]) && !script[i].encoderExits)
    ensures LastStep(running, script[..i + 1]) == StepResultOf(Alive(running, script[..i + 1]), script[i])
    ensures Delivered(running, script[..i + 1]) == Delivered(running, script[..i]) + StepBytes(LastStep(running, script[..i + 1]))
    ensures var r := LastStep(running, script[..i + 1]);
      Log(running, script[..i + 1]) == Log(running, script[..i]) + (if r.Logged? then [r.failure] else [])
  {
    assert script[..i + 1][..i] == script[..i];
  }

  lemma AppendAssoc(a: seq<byte>, b: seq<byte>, c: seq<byte>)
    ensures (a + b) + c == a + (b + c)
  {
  }

  /** Iteration i in terms of the state the loop reached before it: what
      `RelayIteration` does from that state is what the specification
      functions add for iteration i. */
  lemma Advance(initial: ProcessState, script: seq<Tick>, i: nat)
    requires i < |script|
    ensures var state, t := StateAfter(initial, script[..i]), script[i];
      var r := StepResultOf(state == Running && !t.encoderExits, t);
      && StateAfter(initial, script[..i + 1]) == (if t.encoderExits && state == Running then Exited else state)
      && Delivered(initial == Running, script[..i + 1]) == Delivered(initial == Running, script[..i]) + StepBytes(r)
      && Log(initial == Running, script[..i + 1]) == Log(initial == Running, script[..i]) + (if r.Logged? then [r.failure] else [])
  {
    Snoc(initial == Running, script, i);
    AliveWasRunning(initial == Running, script[..i]);
    AliveWasRunning(initial == Running, script[..i + 1]);
  }

  /** One pass of the loop body: the encoder may end by itself first, then
      one chunk is recorded and written, or the failing step is logged. */
  method RelayIteration(encoder: Encoder, tick: Tick) returns (entries: seq<Failure>)
    modifies encoder
    ensures var r := StepResultOf(old(encoder.state) == Running && !tick.encoderExits, tick);
      && encoder.stdin == old(encoder.stdin) + StepBytes(r)
      && entries == (if r.Logged? then [r.failure] else [])
    ensures encoder.state == if tick.encoderExits && old(encoder.state) == Running then Exited else old(encoder.state)
    ensures encoder.terminations == old(encoder.terminations)
  {
    if tick.encoderExits {
      encoder.Die();
    }
    entries := [];
    match tick.record {
      case RecordFailed =>
        entries := [CaptureError];
      case Recorded(block) =>
        var bytes := Serialize(block);
        var ok := encoder.Write(bytes, tick.pipeFault);
        if !ok {
          entries := [WriteError];
        }
    }
  }

  /** The relay loop, run for the N = |script| iterations of `script`.
      Returns the entries it logged. */
  method RelayLoop(encoder: Encoder, script: seq<Tick>) returns (log: seq<Failure>)
    modifies encoder
    ensures encoder.state == StateAfter(old(encoder.state), script)
    ensures encoder.terminations == old(encoder.terminations)
    ensures encoder.stdin == old(encoder.stdin) + Delivered(old(encoder.state) == Running, script)
    ensures log == Log(old(encoder.state) == Running, script)
  {
    ghost var running := encoder.state == Running;
    log := [];
    var i := 0;
    while i < |script|
      invariant 0 <= i <= |script|
      invariant encoder.state == StateAfter(old(encoder.state), script[..i])
      invariant encoder.terminations == old(encoder.terminations)
      invariant encoder.stdin == old(encoder.stdin) + Delivered(running, script[..i])
      invariant log == Log(running, script[..i])
    {
      var tick := script[i];
      Advance(old(encoder.state), script, i);
      ghost var added := StepBytes(StepResultOf(encoder.state == Running && !tick.encoderExits, tick));
      var entries := RelayIteration(encoder, tick);
      log := log + entries;
      AppendAssoc(old(encoder.stdin), Delivered(running, script[..i]), added);
      assert encoder.state == StateAfter(old(encoder.state), script[..i + 1]);
      assert encoder.stdin == old(encoder.stdin) + Delivered(running, script[..i + 1]);
      assert log == Log(running, script[..i + 1]);
      i := i + 1;
    }
    assert script[..i] == script;
  }

  /** The capture routine: pick the loopback device for the default
      speaker, index the device list with it (on an empty list this raises,
      outside the loop's error handler, and the routine aborts), else run
      the relay loop on the recorder of the chosen device, whose behaviour
      is `script`. Opening the recorder is assumed to succeed. */
  method CaptureAudioToEncoder(encoder: Encoder, microphones: seq<string>, defaultSpeakerName: string, script: seq<Tick>)
    returns (outcome: CaptureOutcome)
    modifies encoder
    ensures encoder.terminations == old(encoder.terminations)
    ensures outcome.NoDevice? <==> |microphones| == 0
    ensures outcome.NoDevice? ==> encoder.state == old(encoder.state) && encoder.stdin == old(encoder.stdin)
    ensures outcome.Relayed? ==>
              && outcome.device < |microphones|
              && outcome.device == DefaultLoopbackIndex(microphones, defaultSpeakerName)
              && encoder.state == StateAfter(old(encoder.state), script)
              && encoder.stdin == old(encoder.stdin) + Delivered(old(encoder.state) == Running, script)
              && outcome.log == Log(old(encoder.state) == Running, script)
  {
    var loopbackIndex := GetDefaultLoopbackDevice(microphones, defaultSpeakerName);
    var device := ResolveCaptureDevice(microphones, loopbackIndex);
    if device.None? {
      return NoDevice;
    }
    var log := RelayLoop(encoder, script);
    outcome := Relayed(loopbackIndex, log);
  }
}
