/** The program's top level: launch the encoder with the fixed argument
    list, relay audio into it, and, when the process exits (modelled as the
    end of the bounded loop), run the exit hook. */
module ScreenStream {
  import opened EncoderProcess
  import opened CaptureRelay
  import opened FfmpegCommand

  method RunUntilExit(executable: string, rtmpUrl: string, microphones: seq<string>,
                      defaultSpeakerName: string, script: seq<Tick>)
    returns (encoder: Encoder, outcome: CaptureOutcome)
    ensures fresh(encoder)
    ensures encoder.args == Command(executable, rtmpUrl)
    ensures outcome.NoDevice? <==> |microphones| == 0
    ensures encoder.stdin == if outcome.NoDevice? then [] else Delivered(true, script)
    ensures outcome.Relayed? ==> outcome.log == Log(true, script)
    ensures encoder.state != Running
    ensures encoder.terminations == (if outcome.Relayed? && !Alive(true, script) then 0 else 1)
    ensures encoder.state == (if encoder.terminations == 1 then Killed else Exited)
  {
    encoder := new Encoder.Launch(Command(executable, rtmpUrl));
    outcome := CaptureAudioToEncoder(encoder, microphones, defaultSpeakerName, script);
    CleanupOnExit(encoder);
  }
}
