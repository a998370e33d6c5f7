/** The fixed argument list the encoder is launched with: a desktop video
    grab, raw audio on standard input, the codecs and the destination. The
    executable path and the destination URL are parameters. */
module FfmpegCommand {
  import opened Config

  /** Python's `str` of a non-negative integer: its decimal digits without
      leading zeros. */
  function DecimalString(n: nat): (s: string)
    ensures |s| > 0
    ensures forall i :: 0 <= i < |s| ==> '0' <= s[i] <= '9'
    ensures |s| > 1 ==> s[0] != '0'
  {
    if n < 10 then [DigitChar(n)] else DecimalString(n / 10) + [DigitChar(n % 10)]
  }

  function DigitChar(d: nat): (c: char)
    requires d < 10
    ensures '0' <= c <= '9'
  {
    "0123456789"[d]
  }

  function DigitValue(c: char): nat
  {
    if '0' <= c <= '9' then (c as int - '0' as int) as nat else 0
  }

  /** How a reader of the argument parses a string of decimal digits. */
  function ParseDecimal(s: string): nat
  {
    if s == [] then 0 else ParseDecimal(s[..|s| - 1]) * 10 + DigitValue(s[|s| - 1])
  }

  lemma DigitRoundTrip(d: nat)
    requires d < 10
    ensures DigitValue(DigitChar(d)) == d
  {
  }

  /** Round trip: the decimal text of `n` is read back as `n`. */
  lemma {:induction false} ParseDecimalString(n: nat)
    ensures ParseDecimal(DecimalString(n)) == n
  {
    var s := DecimalString(n);
    if n < 10 {
      DigitRoundTrip(n);
      assert s[..|s| - 1] == [];
    } else {
      var front := DecimalString(n / 10);
      assert s[..|s| - 1] == front;
      ParseDecimalString(n / 10);
      DigitRoundTrip(n % 10);
    }
  }

  /** The video input: the Windows desktop grabbed at 30 frames per second. */
  function VideoInput(): seq<string>
  {
    ["-f", "gdigrab", "-framerate", "30", "-i", "desktop"]
  }

  /** The audio input: raw 32-bit float samples on standard input. */
  function AudioInput(): seq<string>
  {
    [ "-f", "f32le", "-ar", DecimalString(SAMPLE_RATE), "-ac", DecimalString(CHANNELS),
      "-channel_layout", "stereo", "-i", "pipe:0" ]
  }

  /** Synchronisation and codec options. */
  function EncodingOptions(): seq<string>
  {
    [ "-fps_mode", "cfr", "-async", "1",
      "-c:v", "libx264", "-preset", "ultrafast", "-b:v", "6000k",
      "-maxrate", "6000k", "-bufsize", "6000k", "-pix_fmt", "yuv420p",
      "-c:a", "aac", "-b:a", "128k" ]
  }

  /** The argument list, in the order the encoder requires. */
  function Command(executable: string, rtmpUrl: string): (cmd: seq<string>)
    ensures |cmd| == 40
    ensures cmd[0] == executable && cmd[|cmd| - 1] == rtmpUrl
    ensures cmd[|cmd| - 3 .. |cmd| - 1] == ["-f", "flv"]
  {
    [executable] + VideoInput() + AudioInput() + EncodingOptions() + ["-f", "flv", rtmpUrl]
  }

  /** The groups sit back to back: video from index 1, audio from index 7. */
  lemma CommandLayout(executable: string, rtmpUrl: string)
    ensures var cmd := Command(executable, rtmpUrl);
      cmd[1..7] == VideoInput() && cmd[7..17] == AudioInput()
  {
    var v, a := VideoInput(), AudioInput();
    var cmd := Command(executable, rtmpUrl);
    assert cmd == [executable] + v + a + (EncodingOptions() + ["-f", "flv", rtmpUrl]);
    assert cmd[1..7] == v;
    assert cmd[7..17] == a;
  }

  /** The audio input is the second `-i`, reading `pipe:0` (standard
      input); between it and the video input `desktop` there is no other
      input, and the options there declare the format `f32le`, the sample
      rate as `str(SAMPLE_RATE)` and the channel count as `str(CHANNELS)`. */
  lemma AudioInputDeclaration(executable: string, rtmpUrl: string)
    ensures var cmd := Command(executable, rtmpUrl);
      && |cmd| == 40
      && cmd[5] == "-i" && cmd[6] == "desktop"
      && cmd[7] == "-f" && cmd[8] == "f32le"
      && cmd[9] == "-ar" && cmd[10] == DecimalString(SAMPLE_RATE)
      && cmd[11] == "-ac" && cmd[12] == DecimalString(CHANNELS)
      && cmd[13] == "-channel_layout" && cmd[14] == "stereo"
      && cmd[15] == "-i" && cmd[16] == "pipe:0"
      && (forall j :: 7 <= j < 15 ==> cmd[j] != "-i")
  {
    var cmd := Command(executable, rtmpUrl);
    CommandLayout(executable, rtmpUrl);
    var a := AudioInput();
    assert a[3][0] != '-' && a[5][0] != '-';
    forall j | 7 <= j < 15
      ensures cmd[j] != "-i"
    {
      assert cmd[j] == cmd[7..17][j - 7];
    }
  }

  /** The encoder reads the `-ar` and `-ac` values back as exactly the
      configured sample rate and channel count. */
  lemma AudioParametersReadBack(executable: string, rtmpUrl: string)
    ensures var cmd := Command(executable, rtmpUrl);
      ParseDecimal(cmd[10]) == SAMPLE_RATE && ParseDecimal(cmd[12]) == CHANNELS
  {
    AudioInputDeclaration(executable, rtmpUrl);
    ParseDecimalString(SAMPLE_RATE);
    ParseDecimalString(CHANNELS);
  }

  /** The sample rate and channel count appear as the literal texts "48000" and "2". */
  lemma ConfiguredTexts()
    ensures DecimalString(SAMPLE_RATE) == "48000"
    ensures DecimalString(CHANNELS) == "2"
  {
  }

  /** The video input comes first: `-f gdigrab -framerate 30 -i desktop`,
      with no other input before it. */
  lemma VideoInputFirst(executable: string, rtmpUrl: string)
    ensures var cmd := Command(executable, rtmpUrl);
      && cmd[1] == "-f" && cmd[2] == "gdigrab" && cmd[3] == "-framerate" && cmd[4] == "30"
      && cmd[5] == "-i" && cmd[6] == "desktop"
      && (forall j :: 1 <= j < 5 ==> cmd[j] != "-i")
  {
    var cmd := Command(executable, rtmpUrl);
    CommandLayout(executable, rtmpUrl);
    var v := VideoInput();
    assert v[0][1] != 'i' && v[1][0] != '-' && v[2][1] != 'i' && v[3][0] != '-';
    forall j | 1 <= j < 5
      ensures cmd[j] != "-i"
    {
      assert cmd[j] == cmd[1..7][j - 1];
    }
  }
}
