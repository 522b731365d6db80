/** Streaming the speech audio into the local file (`generate_audio` in main.py). */
module Audio {
  import opened Optional

  newtype byte = x: int | 0 <= x < 256

  /** One step of iterating the text-to-speech generator: a chunk of bytes, or an
      exception raised while fetching the next chunk. */
  datatype Step = Chunk(bytes: seq<byte>) | Raise

  /** What the text-to-speech call gives back: it raised before returning a
      generator, or it returned a generator whose iteration yields `steps`. */
  datatype Response = Refused | Stream(steps: seq<Step>)

  /** The name of the file the audio is written to. */
  const FileName: string := "motivation.mp3"

  /** The iteration runs to its end: no step raises. */
  predicate Completes(steps: seq<Step>) {
    forall i :: 0 <= i < |steps| ==> steps[i].Chunk?
  }

  /** The bytes written before the iteration stopped: the chunks up to the first
      raising step, concatenated in arrival order. */
  function Written(steps: seq<Step>): (r: seq<byte>)
    ensures Completes(steps) ==> |r| == TotalLength(steps)
  {
    if steps == [] then []
    else match steps[0]
      case Raise => []
      case Chunk(b) => b + Written(steps[1..])
  }

  /** The total number of bytes in the chunks of a completing iteration. */
  function TotalLength(steps: seq<Step>): nat
    requires Completes(steps)
  {
    if steps == [] then 0 else |steps[0].bytes| + TotalLength(steps[1..])
  }

  /** Writing stops at the first raise: the bytes of a completed prefix are followed
      by whatever its continuation writes. */
  lemma {:induction false} WrittenAppend(a: seq<Step>, b: seq<Step>)
    requires Completes(a)
    ensures Written(a + b) == Written(a) + Written(b)
  {
    if a == [] {
      assert a + b == b;
    } else {
      assert (a + b)[0] == a[0];
      assert (a + b)[1..] == a[1..] + b;
      WrittenAppend(a[1..], b);
    }
  }

  /** The file name `generate_audio` returns for a response: the file name when the
      call and the whole iteration succeed, `None` when anything raised. */
  function AudioResult(response: Response): (r: Option<string>)
    ensures r.Some? <==> response.Stream? && Completes(response.steps)
    ensures r.Some? ==> r.value == FileName && r.value != []
  {
    if response.Stream? && Completes(response.steps) then Some(FileName) else None
  }

  /** The local audio file, as the bytes it holds. */
  class AudioFile {
    var contents: seq<byte>

    constructor (initial: seq<byte>)
      ensures contents == initial
    {
      contents := initial;
    }

    /** Opening the file for binary writing empties it. */
    method Open()
      modifies this
      ensures contents == []
    {
      contents := [];
    }

    /** Writing a chunk appends it to the file. */
    method Write(chunk: seq<byte>)
      modifies this
      ensures contents == old(contents) + chunk
    {
      contents := contents + chunk;
    }
  }

  /** `generate_audio`: asks the speech service (`tts`) for `text`, and when it
      answers, empties the file and writes the chunks into it one by one. Returns
      the file name only when no exception was raised. A refused call leaves the
      file alone; an exception during the iteration leaves the chunks received so
      far in the file. */
  method GenerateAudio(text: string, tts: string -> Response, file: AudioFile) returns (name: Option<string>)
    modifies file
    ensures name == AudioResult(tts(text))
    ensures tts(text).Refused? ==> file.contents == old(file.contents)
    ensures tts(text).Stream? ==> file.contents == Written(tts(text).steps)
  {
    var response := tts(text);
    if response.Refused? {
      return None;
    }
    var steps := response.steps;
    file.Open();
    var i := 0;
    while i < |steps|
      invariant 0 <= i <= |steps|
      invariant Completes(steps[..i])
      invariant file.contents == Written(steps[..i])
    {
      assert steps == steps[..i] + steps[i..];
      WrittenAppend(steps[..i], steps[i..]);
      match steps[i]
      case Raise =>
        assert !Completes(steps);
        return None;
      case Chunk(b) =>
        file.Write(b);
        assert steps[..i + 1] == steps[..i] + [steps[i]];
        WrittenAppend(steps[..i], [steps[i]]);
        i := i + 1;
    }
    assert steps[..i] == steps;
    name := Some(FileName);
  }

  /** The example stream of two chunks `01 02` and `03 04` leaves `01 02 03 04` in
      the file and yields the file name. */
  lemma TwoChunkExample()
    ensures Written([Chunk([1, 2]), Chunk([3, 4])]) == [1, 2, 3, 4]
    ensures AudioResult(Stream([Chunk([1, 2]), Chunk([3, 4])])) == Some(FileName)
  {
    assert [Chunk([1, 2]), Chunk([3, 4])][1..] == [Chunk([3, 4])];
  }

  /** An empty stream still succeeds: the file is emptied and its name returned. */
  lemma EmptyStreamSucceeds()
    ensures Written([]) == [] && AudioResult(Stream([])) == Some(FileName)
  {
  }
}
