/** The caption that accompanies the audio file (`send_telegram` in main.py). */
module Caption {

  /** The fixed first line of every caption, followed by an empty line: a microphone
      emoji (U+1F399 and the emoji-presentation selector U+FE0F), a space and a
      bold-marked title. Lengths count code points, as Python's `len` does. */
  const Header: string := "\U{1F399}\U{FE0F} **Daily Fuel (Flash v2.5)**\n\n"

  /** The longest caption that is sent. */
  const MaxCaption: nat := 1024

  /** The marker appended to a cut caption. */
  const Ellipsis: string := "..."

  /** A caption longer than `MaxCaption` keeps its first `MaxCaption - |Ellipsis|`
      code points, followed by `Ellipsis`; a caption that fits is left as it is. */
  function Truncate(caption: string): (r: string)
    ensures |r| <= MaxCaption
    ensures r == caption <==> |caption| <= MaxCaption
    ensures |caption| > MaxCaption ==>
      |r| == MaxCaption && r[..MaxCaption - |Ellipsis|] == caption[..MaxCaption - |Ellipsis|] &&
      r[MaxCaption - |Ellipsis|..] == Ellipsis
  {
    if |caption| > MaxCaption then caption[..MaxCaption - |Ellipsis|] + Ellipsis else caption
  }

  /** A caption is truncated at most once: truncating the result again changes nothing. */
  lemma TruncateIdempotent(caption: string)
    ensures Truncate(Truncate(caption)) == Truncate(caption)
  {
  }

  /** The caption built for a script: the header, then the script, cut to the limit. */
  function BuildCaption(script: string): (r: string)
    ensures |r| <= MaxCaption
    ensures |Header| <= |r| && r[..|Header|] == Header
    ensures |Header + script| <= MaxCaption <==> r == Header + script
  {
    Truncate(Header + script)
  }

  /** In terms of the script alone: a script of at most 992 code points is sent whole
      after the 32-code-point header; a longer one keeps its first 989 code points,
      followed by the ellipsis, making the caption exactly 1024 code points long. */
  lemma CaptionOfScript(script: string)
    ensures |Header| == 32
    ensures |script| <= 992 ==> BuildCaption(script) == Header + script
    ensures |script| > 992 ==>
      |BuildCaption(script)| == MaxCaption && BuildCaption(script) == Header + script[..989] + Ellipsis
  {
    if |script| > 992 {
      var c := Header + script;
      assert c[..1021] == Header + script[..989];
    }
  }
}
