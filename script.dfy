/** Clean-up of the language model's reply and the fixed fallback script
    (`generate_script` in main.py). */
module Script {
  import opened Optional

  /** The sentence returned whenever the script call raises. */
  const Fallback: string := "Wake up. " + "The competition is not sleeping. " + "Get to work."

  /** The characters that `str.strip()` without arguments removes: the code points
      Python classifies as whitespace. */
  predicate IsSpace(c: char) {
    ('\U{9}' <= c <= '\U{D}') || ('\U{1C}' <= c <= '\U{20}') ||
    c == '\U{85}' || c == '\U{A0}' || c == '\U{1680}' ||
    ('\U{2000}' <= c <= '\U{200A}') || c == '\U{2028}' || c == '\U{2029}' ||
    c == '\U{202F}' || c == '\U{205F}' || c == '\U{3000}'
  }

  /** Neither `*` nor `#` occurs in `s`. */
  predicate NoMarkup(s: string) {
    '*' !in s && '#' !in s
  }

  /** `s` neither begins nor ends with whitespace. */
  predicate Trimmed(s: string) {
    s != [] ==> !IsSpace(s[0]) && !IsSpace(s[|s| - 1])
  }

  /** `s.replace(c, "")`: every occurrence of `c` deleted, the rest kept in order. */
  function Remove(s: string, c: char): (r: string)
    ensures c !in r
    ensures |r| <= |s|
    ensures forall d :: d in r ==> d in s
    ensures c !in s ==> r == s
  {
    if s == [] then []
    else if s[0] == c then Remove(s[1..], c)
    else [s[0]] + Remove(s[1..], c)
  }

  /** Deleting `c` distributes over concatenation, so `Remove` keeps the order of
      the characters it does not delete. */
  lemma {:induction false} RemoveAppend(a: string, b: string, c: char)
    ensures Remove(a + b, c) == Remove(a, c) + Remove(b, c)
  {
    if a == [] {
      assert a + b == b;
    } else {
      assert (a + b)[1..] == a[1..] + b;
      RemoveAppend(a[1..], b, c);
    }
  }

  /** `s.lstrip()`: the longest suffix of `s` not starting with whitespace; what
      is dropped is all whitespace. */
  function StripLeft(s: string): (r: string)
    ensures |r| <= |s| && r == s[|s| - |r|..]
    ensures forall k :: 0 <= k < |s| - |r| ==> IsSpace(s[k])
    ensures r != [] ==> !IsSpace(r[0])
  {
    if s != [] && IsSpace(s[0]) then StripLeft(s[1..]) else s
  }

  /** `s.rstrip()`: the longest prefix of `s` not ending with whitespace; what is
      dropped is all whitespace. */
  function StripRight(s: string): (r: string)
    ensures |r| <= |s| && r == s[..|r|]
    ensures forall k :: |r| <= k < |s| ==> IsSpace(s[k])
    ensures r != [] ==> !IsSpace(r[|r| - 1])
  {
    if s != [] && IsSpace(s[|s| - 1]) then StripRight(s[..|s| - 1]) else s
  }

  /** Every character of `s` is whitespace. */
  predicate Blank(s: string) {
    forall k :: 0 <= k < |s| ==> IsSpace(s[k])
  }

  /** The number of whitespace characters `s` starts with: all of them are
      whitespace, and the character after them, if any, is not. */
  function LeadingSpace(s: string): (n: nat)
    ensures n <= |s| && Blank(s[..n])
    ensures n < |s| ==> !IsSpace(s[n])
  {
    if s != [] && IsSpace(s[0]) then
      assert forall k :: 1 <= k <= LeadingSpace(s[1..]) ==> s[k] == s[1..][k - 1];
      1 + LeadingSpace(s[1..])
    else 0
  }

  /** `s.lstrip()` drops exactly the leading whitespace. */
  lemma {:induction false} StripLeftDropsLeading(s: string)
    ensures StripLeft(s) == s[LeadingSpace(s)..]
  {
    if s != [] && IsSpace(s[0]) {
      StripLeftDropsLeading(s[1..]);
      assert s[1..][LeadingSpace(s[1..])..] == s[1 + LeadingSpace(s[1..])..];
    }
  }

  /** `s.strip()`: what is left of `s` after its leading whitespace is a prefix
      of it followed only by whitespace; nothing inside the result is touched. */
  function Strip(s: string): (r: string)
    ensures Trimmed(r) && |r| <= |s|
    ensures var rest := s[LeadingSpace(s)..];
      |r| <= |rest| && r == rest[..|r|] && Blank(rest[|r|..])
    ensures forall d :: d in r ==> d in s
    ensures r == [] <==> Blank(s)
  {
    StripShape(s);
    StripSlice(s);
    StripEmpty(s);
    StripRight(StripLeft(s))
  }

  /** The two strips leave no whitespace at either end, and only characters of `s`. */
  lemma StripShape(s: string)
    ensures var r := StripRight(StripLeft(s));
      Trimmed(r) && |r| <= |s| && forall d :: d in r ==> d in s
  {
    var t := StripLeft(s);
    var r := StripRight(t);
    assert r != [] ==> r[0] == t[0];
    assert forall d :: d in r ==> d in t;
  }

  /** The right strip of the left strip is a prefix of what follows the leading
      whitespace, and only whitespace comes after it. */
  lemma StripSlice(s: string)
    ensures var rest := s[LeadingSpace(s)..]; var r := StripRight(StripLeft(s));
      |r| <= |rest| && r == rest[..|r|] && Blank(rest[|r|..])
  {
    StripLeftDropsLeading(s);
    var t := StripLeft(s);
    var r := StripRight(t);
    assert forall k :: 0 <= k < |t| - |r| ==> t[|r|..][k] == t[|r| + k];
  }

  /** Both strips together leave nothing exactly when `s` is all whitespace. */
  lemma StripEmpty(s: string)
    ensures StripRight(StripLeft(s)) == [] <==> Blank(s)
  {
    var t := StripLeft(s);
    if StripRight(t) == [] {
      assert forall k :: 0 <= k < |s| ==> IsSpace(s[k]);
    }
  }

  /** A string with no whitespace at either end is its own strip. */
  lemma StripTrimmed(s: string)
    requires Trimmed(s)
    ensures Strip(s) == s
  {
  }

  /** The clean-up of a reply: every `*` and then every `#` deleted, and the
      whitespace at both ends removed. The result is the slice of the reply without
      its markup that remains once the surrounding whitespace is dropped. */
  function Clean(text: string): (r: string)
    ensures NoMarkup(r) && Trimmed(r)
    ensures var rest := Remove(Remove(text, '*'), '#')[LeadingSpace(Remove(Remove(text, '*'), '#'))..];
      |r| <= |rest| && r == rest[..|r|] && Blank(rest[|r|..])
  {
    Strip(Remove(Remove(text, '*'), '#'))
  }

  /** Cleaning is idempotent: a cleaned reply passes through a second clean-up unchanged. */
  lemma CleanIdempotent(text: string)
    ensures Clean(Clean(text)) == Clean(text)
  {
    var c := Clean(text);
    assert Remove(c, '*') == c;
    assert Remove(c, '#') == c;
    StripTrimmed(c);
  }

  /** A reply that has no markup is cleaned to its own strip. */
  lemma CleanWithoutMarkup(text: string)
    requires NoMarkup(text)
    ensures Clean(text) == Strip(text)
  {
  }

  /** Every character of `s` is whitespace or one of `noise`. */
  predicate OnlyNoise(s: string, noise: set<char>) {
    forall k :: 0 <= k < |s| ==> s[k] in noise || IsSpace(s[k])
  }

  /** The fallback sentence is non-empty, has no markup and no surrounding whitespace. */
  lemma FallbackClean()
    ensures Fallback != [] && NoMarkup(Fallback) && Trimmed(Fallback)
  {
  }

  /** `generate_script`: the cleaned reply, or the fallback sentence when the call
      raised (a reply without text raises as well). Whatever happens, the script
      carries no markup and no surrounding whitespace; the failure path always
      yields the non-empty fallback. */
  function GenerateScript(reply: Option<string>): (r: string)
    ensures NoMarkup(r) && Trimmed(r)
    ensures reply.None? ==> r == Fallback && r != []
    ensures reply.Some? ==> r == Clean(reply.value)
    ensures reply.Some? ==> |r| <= |reply.value|
    ensures reply.Some? ==> (r == [] <==> OnlyNoise(reply.value, {'*', '#'}))
  {
    match reply
    case None =>
      FallbackClean();
      Fallback
    case Some(text) =>
      EmptyClean(text);
      Clean(text)
  }

  /** A clean-up comes out empty exactly when the reply holds nothing but `*`, `#`
      and whitespace. */
  lemma EmptyClean(text: string)
    ensures Clean(text) == [] <==> OnlyNoise(text, {'*', '#'})
  {
    var u := Remove(text, '*');
    RemoveNoise(u, '#', {});
    RemoveNoise(text, '*', {'#'});
    assert {'#'} + {'*'} == {'*', '#'};
  }

  /** Deleting `c` leaves only noise exactly when the text held only noise and `c`. */
  lemma {:induction false} RemoveNoise(s: string, c: char, noise: set<char>)
    ensures OnlyNoise(Remove(s, c), noise) <==> OnlyNoise(s, noise + {c})
  {
    if s != [] {
      RemoveNoise(s[1..], c, noise);
      NoiseCons(s, noise + {c});
      if s[0] != c {
        NoiseCons([s[0]] + Remove(s[1..], c), noise);
        assert ([s[0]] + Remove(s[1..], c))[1..] == Remove(s[1..], c);
      }
    }
  }

  /** Only noise in a non-empty string: only noise in its first character and its rest. */
  lemma NoiseCons(s: string, noise: set<char>)
    requires s != []
    ensures OnlyNoise(s, noise) <==> (s[0] in noise || IsSpace(s[0])) && OnlyNoise(s[1..], noise)
  {
    if (s[0] in noise || IsSpace(s[0])) && OnlyNoise(s[1..], noise) {
      forall k | 0 <= k < |s| ensures s[k] in noise || IsSpace(s[k]) {
        if k > 0 {
          assert s[k] == s[1..][k - 1];
        }
      }
    }
  }

  /** A reply made only of markup yields the empty script: the success path can
      return a falsy script, which the entry point then reports as a failure. */
  lemma EmptyScriptPossible()
    ensures GenerateScript(Some("**")) == ""
  {
  }
}
