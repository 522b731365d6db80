/** The entry point of main.py: script, then audio, then delivery. */
module Pipeline {
  import opened Optional
  import Script
  import Caption
  import Audio

  /** What one run does, in order. The two failure reports stand for the messages
      the entry point prints when a stage produced nothing. */
  datatype Event =
    | ScriptRequested
    | AudioRequested(text: string)
    | AudioPosted(file: string, audio: seq<Audio.byte>, caption: string)
    | ScriptFailureReported
    | AudioFailureReported

  /** An event that ends a run. */
  predicate Final(e: Event) {
    e.AudioPosted? || e.ScriptFailureReported? || e.AudioFailureReported?
  }

  /** The events of a run whose script stage produced `script` and whose speech
      service answers `response`. Audio is requested only for a non-empty script,
      with that script; the file is posted at most once, last, only after the audio
      stage returned a file name, with the streamed bytes and the caption built from
      the script; every run ends in exactly one final event. */
  function Trace(script: string, response: Audio.Response): (r: seq<Event>)
    ensures 2 <= |r| <= 3 && r[0] == ScriptRequested
    ensures Final(r[|r| - 1]) && forall i :: 0 <= i < |r| - 1 ==> !Final(r[i])
    ensures forall i :: 0 <= i < |r| && r[i].AudioRequested? ==> i == 1 && script != [] && r[i].text == script
    ensures forall i :: 0 < i < |r| ==> !r[i].ScriptRequested?
    ensures script != [] <==> r[1].AudioRequested?
    ensures r[|r| - 1] == ScriptFailureReported <==> script == []
    ensures r[|r| - 1] == AudioFailureReported <==> script != [] && Audio.AudioResult(response).None?
    ensures r[|r| - 1].AudioPosted? <==> script != [] && Audio.AudioResult(response).Some?
    ensures forall i :: 0 <= i < |r| && r[i].AudioPosted? ==>
      i == 2 && r[1] == AudioRequested(script) &&
      r[i].file == Audio.FileName &&
      r[i].audio == Audio.Written(response.steps) &&
      r[i].caption == Caption.BuildCaption(script)
  {
    if script == [] then
      [ScriptRequested, ScriptFailureReported]
    else
      match Audio.AudioResult(response)
      case Some(file) =>
        [ScriptRequested, AudioRequested(script),
         AudioPosted(file, Audio.Written(response.steps), Caption.BuildCaption(script))]
      case None =>
        [ScriptRequested, AudioRequested(script), AudioFailureReported]
  }

  /** The number of posts in a trace. */
  function Posts(t: seq<Event>): nat {
    if t == [] then 0 else (if t[0].AudioPosted? then 1 else 0) + Posts(t[1..])
  }

  /** A run posts the audio at most once: once exactly when the script is non-empty
      and the audio stage succeeded, never otherwise. */
  lemma PostedAtMostOnce(script: string, response: Audio.Response)
    ensures Posts(Trace(script, response)) == if script != [] && Audio.AudioResult(response).Some? then 1 else 0
  {
    var t := Trace(script, response);
    assert Posts(t) == Posts(t[1..]);
    assert t[1..][1..] == t[2..];
    assert Posts(t[1..]) == Posts(t[2..]);
    if |t| == 3 {
      assert t[2..][1..] == [];
      assert Posts(t[2..]) == if t[2].AudioPosted? then 1 else 0;
    } else {
      assert t[2..] == [];
    }
  }

  /** The entry point: `generate_script`, and for a non-empty script `generate_audio`,
      and for a returned file name `send_telegram`, which opens the file and posts
      its bytes with the caption. The service's answer to the post is not looked at. */
  method Run(reply: Option<string>, tts: string -> Audio.Response, file: Audio.AudioFile) returns (trace: seq<Event>)
    modifies file
    ensures trace == Trace(Script.GenerateScript(reply), tts(Script.GenerateScript(reply)))
    ensures Script.GenerateScript(reply) == [] || tts(Script.GenerateScript(reply)).Refused? ==>
      file.contents == old(file.contents)
    ensures Script.GenerateScript(reply) != [] && tts(Script.GenerateScript(reply)).Stream? ==>
      file.contents == Audio.Written(tts(Script.GenerateScript(reply)).steps)
  {
    var script := Script.GenerateScript(reply);
    ghost var response := tts(script);
    if script != [] {
      var audio := Audio.GenerateAudio(script, tts, file);
      if audio.Some? {
        trace := [ScriptRequested, AudioRequested(script), SendTelegram(audio.value, file.contents, script)];
      } else {
        trace := [ScriptRequested, AudioRequested(script), AudioFailureReported];
      }
    } else {
      trace := [ScriptRequested, ScriptFailureReported];
    }
    assert trace == Trace(script, response);
  }

  /** `send_telegram`: the post made, carrying the file's
      bytes and the caption built from the script, so at most 1024 code points long
      and starting with the header. */
  function SendTelegram(audioFile: string, audio: seq<Audio.byte>, script: string): (e: Event)
    ensures e.AudioPosted? && e.file == audioFile && e.audio == audio
    ensures |e.caption| <= Caption.MaxCaption
    ensures |Caption.Header| <= |e.caption| && e.caption[..|Caption.Header|] == Caption.Header
    ensures |Caption.Header + script| <= Caption.MaxCaption ==> e.caption == Caption.Header + script
    ensures e.caption == Caption.BuildCaption(script)
  {
    AudioPosted(audioFile, audio, Caption.BuildCaption(script))
  }
}
