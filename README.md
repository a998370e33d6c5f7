# ScreenStream audio relay — a Dafny model

ScreenStream streams a desktop to an RTMP server. It launches `ffmpeg` to
grab the screen, and it feeds system audio into ffmpeg's standard input
from a loopback recording of the default speaker. This project models the
sequential logic of `main.py` and proves properties of that model:

- **Device resolver** (`DeviceResolver`). This is a first-match scan over
  the device names. It falls back to index 0 when no name matches. An
  empty device list makes the later `microphones[loopback_index]` fail at
  startup.
- **Audio wire format** (`AudioFormat`). A chunk is 128 frames × 2 channels
  of 4-byte samples. `tobytes` lays it out frame by frame, so the channels
  are interleaved. Each sample is an opaque 4-byte word; its float value is
  not modelled.
- **Capture-relay loop** (`CaptureRelay`). Each iteration pulls one chunk
  and writes it to the encoder's stdin. A failure in either step is logged
  and the loop goes on. The source loop never ends; the model runs it for
  N iterations, given as a script of N `Tick`s. A tick says three things:
  whether the encoder is found to have ended by itself before that
  iteration's write (for example after its RTMP output failed), so that
  this and every later write to it fails; what `record` returns (a block,
  or an exception); and whether the pipe write raises.
- **Encoder process and exit hook** (`EncoderProcess`). A class `Encoder`
  holds the process state (Running / Exited / Killed), the bytes on its
  stdin and a count of delivered terminations. `CleanupOnExit` kills the
  process and swallows every error. The unbound-global case
  (`ffmpeg_process` never assigned) is a null reference.
- **Encoder argument list** (`FfmpegCommand`). This is the fixed `ffmpeg`
  argument list, together with Python's `str` of a natural number.
- **Top level** (`ScreenStream`). Launch, capture, then the exit hook.

The operating system's device list, the default speaker's name, the
recorder's behaviour, the ffmpeg executable path and the RTMP URL are all
parameters.

Two behaviours of the code that the model keeps as written:
- With no input device, the code does not stop with a diagnostic; indexing
  the empty list raises. `CaptureOutcome.NoDevice` stands for that error.
- The exit hook does not check whether the encoder is still running; it
  calls `kill()` unconditionally. The model's `Kill` has no effect on a
  process that is already down.

## Model

| member | source | states |
|---|---|---|
| `DeviceResolver.GetDefaultLoopbackDevice` | main.py:36-44 | if some device has the speaker's name, the result is such a device's index and no earlier device has that name; if none does, the result is 0; on a non-empty list the result is a valid index; the result equals `DefaultLoopbackIndex` |
| `DeviceResolver.FirstIndexOfIsFirst` | main.py:41-43 | the scan's index, when in range, names a matching device, and every device before it does not match |
| `DeviceResolver.DefaultLoopbackIndexMatches` | main.py:41-43 | when device j matches, the pick is at or before j, matches, and is the first match |
| `DeviceResolver.DefaultLoopbackIndexFallback` | main.py:44 | when no device matches, the pick is the fallback index 0 |
| `DeviceResolver.ResolveCaptureDevice` | main.py:84 | `microphones[loopback_index]` raises exactly when the index is out of range; otherwise it yields the device at that index |
| `DeviceResolver.CaptureDeviceExists` | main.py:82-84 | indexing with the resolver's pick fails if and only if the device list is empty; when some device has the speaker's name, it yields that name |
| `AudioFormat.RowBytes` | main.py:89-90 | one frame row is 4 bytes per sample, and sample c sits at bytes [4c, 4c+4) |
| `AudioFormat.Serialize` | main.py:90 | `audio_data.tobytes()` always produces whole 4-byte samples (the rows concatenated in frame order) |
| `AudioFormat.SerializeLength` | main.py:89-90 | a block of F rows of C samples serializes to exactly F × C × 4 bytes |
| `AudioFormat.ChunkLength` | main.py:14-15 | a full chunk (NUM_FRAMES rows of CHANNELS samples) is CHUNK_BYTES = 1024 bytes |
| `AudioFormat.SerializeAppend` | main.py:89-90 | serializing two blocks one after the other gives the two byte strings concatenated |
| `AudioFormat.RowAt` | main.py:89-90 | row f of a block starts right after the bytes of the rows before it, and it is not split |
| `AudioFormat.SampleAt` | main.py:89-90 | channel interleaving: sample c of frame f sits at byte offset 4 × (f × C + c) |
| `AudioFormat.DecodeRowBytes` | main.py:54-57 | reading a row's bytes back as 4-byte samples returns the row |
| `AudioFormat.DeserializeSerialize` | main.py:54-57 | a reader told the channel count splits the bytes of a well-shaped block back into exactly its rows |
| `EncoderProcess.AfterKill` | main.py:19-22 | after kill the process is not running; a process that is already down is left as it was |
| `EncoderProcess.AfterKillIdempotent` | main.py:19-22 | killing twice has the effect of killing once |
| `EncoderProcess.Encoder.Launch` | main.py:96-99 | the launched encoder runs with the given argument list, with empty stdin and no terminations |
| `EncoderProcess.Encoder.Write` | main.py:90 | a write succeeds exactly when the pipe to the process is not known broken and does not fault; on success all of the data is appended to stdin, on failure stdin is unchanged (the write buffer is left out) |
| `EncoderProcess.Encoder.Kill` | main.py:22 | kill moves Running to Killed and counts one termination; any other state is unchanged |
| `EncoderProcess.CleanupOnExit` | main.py:18-22 | the hook always returns normally, also when no process was ever bound; a bound process ends in the state after kill, its stdin untouched, with a termination counted only if it was running |
| `EncoderProcess.CleanupTwice` | main.py:18-22 | running the hook twice leaves the process down, in the same state as after one call, with stdin untouched; a termination is delivered only if the process was running before the first call, and then exactly one |
| `CaptureRelay.StepResultOf` | main.py:88-92 | one pass of the `try` body: it writes if and only if the encoder is alive, the pipe holds and `record` returned a block, and the block written is the one recorded; otherwise it logs a capture error exactly when `record` raised, else a write error |
| `CaptureRelay.RelayIteration` | main.py:87-92 | one pass of the loop body changes stdin and the log exactly as `StepResultOf` says for the state it found; the process becomes Exited only when it ends in this iteration, and no termination is delivered |
| `CaptureRelay.OneIteration` | main.py:87-92 | one iteration either appends exactly the whole serialized chunk and logs nothing, or appends nothing and logs exactly one entry; the encoder is alive in it exactly when it was alive before and does not exit in this iteration |
| `CaptureRelay.EveryIterationAccounted` | main.py:87-92 | failure isolation: after N iterations, successes plus log entries equal N |
| `CaptureRelay.DeliveredLength` | main.py:89-90 | total bytes on stdin = successful iterations × 1024 |
| `CaptureRelay.DeliveredChunkAt` | main.py:89-90 | the chunk of the k-th successful iteration occupies bytes [k × 1024, (k+1) × 1024) of stdin, whole and in capture order |
| `CaptureRelay.DeliveredIsSerializedRows` | main.py:89-90 | the stdin bytes are exactly the serialization of the captured rows of the successful iterations, concatenated in capture order |
| `CaptureRelay.DeliveredRowsShape` | main.py:86-89 | the delivered rows each have CHANNELS samples, and there are NUM_FRAMES of them per success |
| `CaptureRelay.EncoderReadsCapturedRows` | main.py:54-58 | an encoder reading `f32le` with CHANNELS channels from stdin recovers exactly the captured rows of the successful iterations, in order |
| `CaptureRelay.HealthyPipeWritesEveryCapture` | main.py:88-92 | with an encoder that stays up and a healthy pipe, every block that was recorded is written, and every log entry is a capture error |
| `CaptureRelay.DeadEncoderReceivesNothing` | main.py:88-92 | with the encoder down (its pipe failing) from the start, nothing reaches stdin and every one of the N iterations logs |
| `CaptureRelay.ExitedStaysDown` | main.py:87-92 | once the encoder exits by itself in some iteration, it is down for the rest of the run |
| `CaptureRelay.ExitedEncoderReceivesNothingMore` | main.py:87-92 | once the encoder is found to have exited in iteration j (its first failing write), stdin gains nothing more, every iteration from j on logs one entry, and the loop still runs all N iterations |
| `CaptureRelay.RelayLoop` | main.py:87-92 | after N iterations, stdin is its old contents followed by `Delivered` of the script, the log is `Log` of the script, the process is Running exactly while it has not exited by itself (else Exited, or its earlier dead state), and no termination is delivered |
| `CaptureRelay.CaptureAudioToEncoder` | main.py:78-92 | in the model, where opening the recorder always succeeds, the routine fails before recording if and only if the device list is empty; otherwise it relays from the resolver's pick, with state, stdin and log as `RelayLoop` states |
| `FfmpegCommand.DecimalString` | main.py:55-56 | `str` of a natural number is a non-empty string of decimal digits without a leading zero |
| `FfmpegCommand.ParseDecimalString` | main.py:55-56 | the decimal text of n parses back to n |
| `FfmpegCommand.Command` | main.py:48-75 | the `ffmpeg_cmd` list has 40 entries; the executable is the first, the destination URL is the last, and `-f flv` comes right before it |
| `FfmpegCommand.VideoInputFirst` | main.py:50-52 | the video input `-f gdigrab -framerate 30 -i desktop` comes first, with no other `-i` before it |
| `FfmpegCommand.AudioInputDeclaration` | main.py:54-58 | the audio input is the `-i` right after the video input, reading `pipe:0`; the options between them are `-f f32le`, `-ar str(SAMPLE_RATE)`, `-ac str(CHANNELS)` and `-channel_layout stereo`, with no other `-i` |
| `FfmpegCommand.AudioParametersReadBack` | main.py:55-56 | the `-ar` and `-ac` values read back as exactly SAMPLE_RATE and CHANNELS |
| `FfmpegCommand.ConfiguredTexts` | main.py:13-14 | `str(SAMPLE_RATE)` is "48000" and `str(CHANNELS)` is "2" |
| `ScreenStream.RunUntilExit` | main.py:95-100 | a fresh encoder is launched with the fixed argument list; its stdin holds exactly the delivered bytes (none without a device); at exit it is down; the hook delivers one termination, making it Killed, unless the encoder had already exited by itself during the run, in which case it stays Exited and receives none |

## Left out

- Device enumeration and `sc.default_speaker()`: these are calls into the OS audio subsystem. The device names and the speaker's name are parameters.
- `recorder(...)`: opening the capture session is assumed to succeed. In the program an error there (main.py:86) is outside the loop's `try` and ends the capture routine before any `record`, like the empty-list error; the model does not have that path.
- `record`: this is real-time capture through a library. Each call becomes an abstract outcome in the script, either a block or an exception. The model assumes that `record` returns a full 128 × 2 block whenever it succeeds (`RecorderKeepsShape`); the library promises this.
- Sample values and numpy's float layout: floating point is not modelled. A sample is an opaque 4-byte word.
- `subprocess.Popen`, a failure to launch, blocking writes and backpressure: these are process and I/O plumbing. A write either accepts all its bytes or raises and accepts none; a partial write is not modelled.
- `EncoderProcess.Encoder.Write`: the encoder's stdin is opened with the default buffering (main.py:96-99), so `write` (main.py:90) copies into an 8 KiB buffer and touches the pipe only when the buffer is flushed. After ffmpeg ends, writes therefore keep succeeding, unlogged, until a flush reaches the dead pipe (up to eight 1024-byte chunks), and the bytes accepted in that window never reach ffmpeg. The model has no buffer: it treats the end of the process and its first failing write as one moment (`encoderExits`), so a write succeeds only while the encoder is running and everything accepted is delivered. `DeadEncoderReceivesNothing`, `ExitedEncoderReceivesNothingMore` and `RunUntilExit` hold of the model under that reading; in the program those first buffered iterations log nothing, and the hook can find a process that has already ended while its writes still succeed.
- The ffmpeg encoding, muxing and RTMP output: ffmpeg is an opaque external tool.
- The `atexit` registration itself: this belongs to the runtime. Only the effect of calling the hook is modelled, once or twice.
- `get_ffmpeg_executable_path`: it only wraps `os.path` and a `globals()` check. The executable path is a parameter, and so is `rtmp_url`, which is a placeholder in the source.
- The text of the log line: the log is modelled as one entry per failure, recording the failing step.
- Timing: the blocking of `record` for one frame period is not modelled.
- The infinite loop: it is bounded by the length of the script. Interruption (for example Ctrl-C, an exception the loop does not catch) is modelled only as the end of the script.
- `CaptureRelay.RelayLoop`: the encoder ending by itself is observed at iteration granularity, before that iteration's write; its exact timing against a write in progress is not modelled (see `EncoderProcess.Encoder.Write` above for the buffered writes in between).
