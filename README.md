# Daily audio bot: a Dafny model of its core

The bot runs once per day. It asks a language model for a short motivational script,
has a text-to-speech service read it into `motivation.mp3`, and posts that file to a
Telegram chat with a caption. This project models the parts of `main.py` that carry
behaviour and proves properties about them:

- **Script clean-up and fallback** (module `Script`, `script.dfy`). Every `*` and then every `#` is
  deleted from the reply, and the whitespace at both ends is removed. If the call raises, the result is the fixed
  sentence "Wake up. The competition is not sleeping. Get to work." A reply whose `text` is
  missing raises too, and is modelled the same way. The external call becomes a parameter:
  `Option<string>`, where `None` means "raised".
- **Caption** (module `Caption`, `caption.dfy`). A fixed header is placed in front of the script:
  the microphone emoji, ` **Daily Fuel (Flash v2.5)**` and an empty line, 32 code points in all.
  A caption over 1024 code points becomes its first 1021 code points followed by `...`.
- **Audio streaming** (module `Audio`, `audio.dfy`). The text-to-speech answer is a parameter
  `tts: string -> Response`. The call either raises (`Refused`) or returns a generator. Iterating
  the generator yields steps: a chunk of bytes, or an exception (`Raise`). The output file is a
  class `AudioFile` holding a byte sequence. Opening it with `"wb"` empties it, and each `write`
  appends a chunk. `GenerateAudio` is the loop of `generate_audio`, proved against the function
  `Written`.
- **Entry point** (module `Pipeline`, `pipeline.dfy`). The `__main__` block becomes the method
  `Run`. It returns the sequence of stage events it went through, and that sequence equals the
  specification function `Trace`. `Trace` states the ordering properties: audio is requested only
  for a non-empty script, the post happens at most once and comes last, and every run ends in
  exactly one final event.

Behaviour of the code that a reader might not expect:

- `generate_script` returns the empty string for a reply made only of markup and whitespace
  (`Script.EmptyScriptPossible`). The entry point then reports "Failed to generate script."
  Only the exception path is guaranteed to give a non-empty script.
- A stream with no chunks is not an error: the file is emptied and its name returned
  (`Audio.EmptyStreamSucceeds`).
- The audio is requested in the fixed format `mp3_44100_128`, and the bytes are written exactly
  as received. The model treats them as opaque.
- The HTTP answer to the post is never inspected. `send_telegram` catches exceptions and prints,
  and the process sets no exit status. The model therefore records that a post was made and
  claims nothing about whether it was delivered.

## Model

| member | source | states |
|---|---|---|
| Script.Remove | main.py:38 | `replace(c, "")`: the result has no `c`, is no longer than the input, holds only characters of the input, and equals the input when `c` is absent |
| Script.RemoveAppend | main.py:38 | deleting a character distributes over concatenation, so the other characters keep their order |
| Script.StripLeft | main.py:38 | the result is a suffix of the input, everything dropped is whitespace, and the result does not start with whitespace |
| Script.StripRight | main.py:38 | the result is a prefix of the input, everything dropped is whitespace, and the result does not end with whitespace |
| Script.LeadingSpace | main.py:38 | the count of leading whitespace: everything before it is whitespace, and the character at it is not |
| Script.StripLeftDropsLeading | main.py:38 | `lstrip()` drops exactly the leading whitespace |
| Script.StripShape | main.py:38 | the two strips leave no whitespace at either end and only characters of the input |
| Script.StripSlice | main.py:38 | the two strips leave a prefix of what follows the leading whitespace, with only whitespace after it |
| Script.StripEmpty | main.py:38 | stripping both ends leaves nothing exactly when the input is all whitespace |
| Script.Strip | main.py:38 | `strip()`: the result has no whitespace at either end; it is the prefix of what follows the input's leading whitespace, and only whitespace comes after it; it holds only the input's characters, and is empty exactly when the input is all whitespace |
| Script.StripTrimmed | main.py:38 | a string with no surrounding whitespace is unchanged by `strip()` |
| Script.Clean | main.py:38 | the cleaned reply contains no `*` and no `#` and has no surrounding whitespace; it is the reply with every `*` and `#` deleted, cut to the part between its leading and trailing whitespace |
| Script.CleanIdempotent | main.py:38 | cleaning an already-cleaned string returns it unchanged |
| Script.CleanWithoutMarkup | main.py:38 | for a reply with no markup, the clean-up is its plain `strip()` |
| Script.EmptyClean | main.py:38 | the clean-up is empty exactly when the reply holds nothing but `*`, `#` and whitespace |
| Script.RemoveNoise | main.py:38 | after deleting a character only whitespace and other noise is left exactly when the text held only those and the deleted character |
| Script.FallbackClean | main.py:41 | the fallback sentence is non-empty, has no markup and no surrounding whitespace |
| Script.GenerateScript | main.py:33-41 | on success the script is the clean-up of the reply: no longer than it, and empty exactly when the reply is only markup and whitespace; on an exception it is exactly the fixed, non-empty fallback sentence; in both cases it has no markup and no surrounding whitespace |
| Script.EmptyScriptPossible | main.py:38 | the reply `**` gives the empty script, which the entry point treats as a failure |
| Caption.Truncate | main.py:75 | the result is at most 1024 long; it equals the input exactly when the input is at most 1024 long; otherwise it is exactly 1024 long, its first 1021 code points are the input's, and it ends in `...` |
| Caption.TruncateIdempotent | main.py:75 | truncating a truncated caption changes nothing |
| Caption.BuildCaption | main.py:74-75 | the caption is at most 1024 long, always starts with the header, and is the header followed by the whole script exactly when that fits |
| Caption.CaptionOfScript | main.py:74-75 | the header is 32 code points; a script of at most 992 is sent whole; a longer one keeps its first 989 code points plus `...`, making 1024 |
| Audio.WrittenAppend | main.py:59-60 | for a prefix that raises nothing, what is written is that prefix's bytes followed by what the rest writes |
| Audio.Written | main.py:59-60 | the bytes the loop leaves in the file, the chunks up to the first exception in arrival order; when nothing raises, they are exactly as many as all the chunks hold |
| Audio.AudioResult | main.py:47-65 | a file name is returned exactly when neither the call nor the iteration raised, and that name is the non-empty `motivation.mp3` |
| Audio.AudioFile.Open | main.py:58 | opening for writing empties the file |
| Audio.AudioFile.Write | main.py:60 | a write appends the chunk to the file's contents |
| Audio.GenerateAudio | main.py:44-65 | the returned name is `AudioResult` of the service's answer to the text; a refused call leaves the file untouched; otherwise the file holds exactly the chunks received before any exception, in arrival order |
| Audio.TwoChunkExample | main.py:59-60 | chunks `01 02` then `03 04` leave `01 02 03 04` in the file, and the name is returned |
| Audio.EmptyStreamSucceeds | main.py:58-62 | an empty stream leaves an empty file, and the name is still returned |
| Pipeline.Trace | main.py:84-93 | a run starts with the script stage, which happens only once; audio is requested only for a non-empty script, and with that script; the post comes last, happens only when the audio stage returned a name, and carries that name, the streamed bytes and the caption built from the script; the script failure is reported exactly when the script is empty, the audio failure exactly when audio was requested and returned no name; exactly one final event ends each run |
| Pipeline.PostedAtMostOnce | main.py:85-89 | a run posts once when the script is non-empty and the audio stage succeeded, and never otherwise |
| Pipeline.Run | main.py:83-93 | the entry point's events are `Trace` of the cleaned script and the service's answer to that script; the file is touched only when audio was requested and the service answered |
| Pipeline.SendTelegram | main.py:68-77 | the post carries the file name, its bytes and the caption built from the script: at most 1024 code points, starting with the header, the header plus the script whenever that fits |

## Left out

- Loading keys from the environment and stripping quotes from them (main.py:7-10): this is configuration input.
- Building the Gemini, ElevenLabs and Telegram clients, and the calls to them (main.py:19-20, 34-37, 49-54, 77): these are foreign network calls. Their outcomes are parameters: an optional reply text, and a speech response made of chunks and exceptions.
- The HTTP response of the post is never read (main.py:77-78), so the model does not say whether delivery succeeded. An exception while opening the audio file in `send_telegram`, or during the post, is only printed; the model records the post and nothing about that failure.
- All `print` output, including the "Script:" echo: this is logging. The two "Failed to ..." messages appear only as the events `ScriptFailureReported` and `AudioFailureReported`.
- Real file handling is reduced to a byte buffer: `open`, `write` and the implicit close. `Refused` stands for a failing `open` as well as a failing call, since both leave the file untouched; a `Raise` step stands for a failing `write` as well as a failing iteration, since both stop after `open` has emptied the file.
- Script.IsSpace: approximates Python's `str.strip()` whitespace with an explicit list of code points (U+0009 to U+000D, U+001C to U+0020, U+0085, U+00A0, U+1680, U+2000 to U+200A, U+2028, U+2029, U+202F, U+205F, U+3000).
- Audio.Response: a stream is a finite sequence of steps. The source sets no timeout, so a generator that never ends would hang the write loop (main.py:59); the model cannot express that run.
- Caption lengths count Unicode code points, as Python's `len` does. The Telegram server's own way of counting the caption limit is not modelled.
