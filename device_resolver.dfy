/** Selection of the loopback input that mirrors the default speaker. The
    device list and the default speaker's name, which the program obtains
    from the operating system's audio subsystem, are parameters here. */
module DeviceResolver {

  datatype Option<T> = None | Some(value: T)

  /** Index of the first name equal to `target`, or |names| when there is none. */
  function FirstIndexOf(names: seq<string>, target: string): (r: nat)
    ensures r <= |names|
  {
    if names == [] then 0
    else if names[0] == target then 0
    else 1 + FirstIndexOf(names[1..], target)
  }

  /** The device index the resolver picks: the first device named like the
      default speaker, or the fallback index 0. */
  function DefaultLoopbackIndex(names: seq<string>, speaker: string): nat
  {
    var k := FirstIndexOf(names, speaker);
    if k < |names| then k else 0
  }

  /** FirstIndexOf finds the first occurrence, and only reports absence when
      there is no occurrence at all. */
  lemma {:induction false} FirstIndexOfIsFirst(names: seq<string>, target: string)
    ensures FirstIndexOf(names, target) < |names| ==> names[FirstIndexOf(names, target)] == target
    ensures forall j :: 0 <= j < FirstIndexOf(names, target) ==> names[j] != target
  {
    if names != [] && names[0] != target {
      FirstIndexOfIsFirst(names[1..], target);
      assert forall j :: 1 <= j < |names| ==> names[j] == names[1..][j - 1];
    }
  }

  /** With a matching device, the pick is that device and no earlier device
      has the speaker's name. */
  lemma DefaultLoopbackIndexMatches(names: seq<string>, speaker: string, j: nat)
    requires j < |names| && names[j] == speaker
    ensures DefaultLoopbackIndex(names, speaker) <= j
    ensures names[DefaultLoopbackIndex(names, speaker)] == speaker
    ensures forall i :: 0 <= i < DefaultLoopbackIndex(names, speaker) ==> names[i] != speaker
  {
    FirstIndexOfIsFirst(names, speaker);
  }

  /** Without a matching device, the pick is the fallback index 0. */
  lemma DefaultLoopbackIndexFallback(names: seq<string>, speaker: string)
    requires forall j :: 0 <= j < |names| ==> names[j] != speaker
    ensures DefaultLoopbackIndex(names, speaker) == 0
  {
    FirstIndexOfIsFirst(names, speaker);
  }

  /** The loop of the resolver: scan the devices in order and return at the
      first whose name equals the default speaker's, else 0. */
  method GetDefaultLoopbackDevice(microphones: seq<string>, defaultSpeakerName: string) returns (index: nat)
    ensures (exists j :: 0 <= j < |microphones| && microphones[j] == defaultSpeakerName) ==>
              index < |microphones| && microphones[index] == defaultSpeakerName
    ensures (forall j :: 0 <= j < |microphones| ==> microphones[j] != defaultSpeakerName) ==> index == 0
    ensures forall j :: 0 <= j < index ==> microphones[j] != defaultSpeakerName
    ensures |microphones| > 0 ==> index < |microphones|
    ensures index == DefaultLoopbackIndex(microphones, defaultSpeakerName)
  {
    var i := 0;
    while i < |microphones|
      invariant 0 <= i <= |microphones|
      invariant forall j :: 0 <= j < i ==> microphones[j] != defaultSpeakerName
    {
      if microphones[i] == defaultSpeakerName {
        FirstIndexOfIsFirst(microphones, defaultSpeakerName);
        DefaultLoopbackIndexMatches(microphones, defaultSpeakerName, i);
        return i;
      }
      i := i + 1;
    }
    DefaultLoopbackIndexFallback(microphones, defaultSpeakerName);
    return 0;
  }

  /** Indexing the device list, `microphones[loopback_index]`: it raises
      (None) when the index is out of range. */
  function ResolveCaptureDevice(microphones: seq<string>, loopbackIndex: nat): (r: Option<string>)
    ensures r.Some? <==> loopbackIndex < |microphones|
    ensures r.Some? ==> r.value == microphones[loopbackIndex]
  {
    if loopbackIndex < |microphones| then Some(microphones[loopbackIndex]) else None
  }

  /** At startup, indexing with the resolver's pick fails exactly when there
      is no device at all; otherwise it yields the speaker's loopback device
      whenever one exists. */
  lemma CaptureDeviceExists(microphones: seq<string>, defaultSpeakerName: string)
    ensures var device := ResolveCaptureDevice(microphones, DefaultLoopbackIndex(microphones, defaultSpeakerName));
      && (device.Some? <==> |microphones| > 0)
      && ((exists j :: 0 <= j < |microphones| && microphones[j] == defaultSpeakerName) ==>
            device == Some(defaultSpeakerName))
  {
    FirstIndexOfIsFirst(microphones, defaultSpeakerName);
  }
}
