/** `TexTCleaner` (utils/text_cleaner.py): locating a brace-delimited part of
    a text. Parsing the located candidate (`json.loads`, then `eval`) is not
    part of this model. */
module TextCleaner {
  import opened Wrappers

  /** `text.split('{')[0]`: the text before the first '{', or all of it. */
  function ExtractDeleteJson(text: string): (r: string)
    ensures r <= text
    ensures '{' !in r
    ensures |r| < |text| ==> text[|r|] == '{'
  {
    if text == [] then []
    else if text[0] == '{' then []
    else [text[0]] + ExtractDeleteJson(text[1..])
  }

  /** `text.replace('\n', '')`. */
  function RemoveNewlines(text: string): (r: string)
    ensures '\n' !in r
    ensures forall ch :: ch != '\n' ==> (ch in r <==> ch in text)
    ensures |r| <= |text|
    ensures '\n' !in text ==> r == text
  {
    if text == [] then []
    else if text[0] == '\n' then RemoveNewlines(text[1..])
    else [text[0]] + RemoveNewlines(text[1..])
  }

  /** Removing newlines works piece by piece: with the line above, it pins
      the result to the text's other characters in their order. */
  lemma {:induction false} RemoveNewlinesAppend(a: string, b: string)
    ensures RemoveNewlines(a + b) == RemoveNewlines(a) + RemoveNewlines(b)
  {
    if a != [] {
      assert (a + b)[1..] == a[1..] + b;
      RemoveNewlinesAppend(a[1..], b);
    } else {
      assert a + b == b;
    }
  }

  /** Index of the first `ch` in `s`, or |s| when there is none. */
  function FirstIndexOf(s: string, ch: char): (i: nat)
    ensures i <= |s|
    ensures i < |s| ==> s[i] == ch
    ensures forall k :: 0 <= k < i ==> s[k] != ch
  {
    if s == [] then 0
    else if s[0] == ch then 0
    else 1 + FirstIndexOf(s[1..], ch)
  }

  /** Index of the last `ch` in `s`, if there is one. */
  function LastIndexOf(s: string, ch: char): (i: Option<nat>)
    ensures i.Some? ==> i.value < |s| && s[i.value] == ch
    ensures i.Some? ==> forall k :: i.value < k < |s| ==> s[k] != ch
    ensures i.None? ==> forall k :: 0 <= k < |s| ==> s[k] != ch
  {
    if s == [] then None
    else if s[|s| - 1] == ch then Some(|s| - 1)
    else LastIndexOf(s[..|s| - 1], ch)
  }

  /** Some '{' is followed, later in `t`, by a '}'. */
  predicate HasBracePair(t: string) {
    exists i, j :: 0 <= i < j < |t| && t[i] == '{' && t[j] == '}'
  }

  /** The match of the greedy pattern `\{.*\}` in a newline-free text: the
      leftmost '{' that some '}' follows, up to the last '}'. */
  function GreedyBraces(t: string): Option<string>
    requires '\n' !in t
  {
    var i := FirstIndexOf(t, '{');
    var j := LastIndexOf(t, '}');
    if i < |t| && j.Some? && i < j.value then Some(t[i..j.value + 1]) else None
  }

  /** What the greedy match is: there is one exactly when some '{' has a
      later '}', and it runs from the first '{' to the last '}'. */
  lemma GreedyBracesSpec(t: string)
    requires '\n' !in t
    ensures var m := GreedyBraces(t);
      && (m.None? <==> !HasBracePair(t))
      && (m.Some? ==> exists i, j :: 0 <= i < j < |t| && t[i] == '{' && t[j] == '}' && m.value == t[i..j + 1]
                        && (forall k :: 0 <= k < i ==> t[k] != '{')
                        && (forall k :: j < k < |t| ==> t[k] != '}'))
      && (m.Some? ==> |m.value| >= 2 && m.value[0] == '{' && m.value[|m.value| - 1] == '}')
      && (m.Some? ==> forall ch :: ch in m.value ==> ch in t)
  {
    GreedyBracesFound(t);
    var i := FirstIndexOf(t, '{');
    var j := LastIndexOf(t, '}');
    if i < |t| && j.Some? && i < j.value {
      var m := t[i..j.value + 1];
      forall ch | ch in m
        ensures ch in t
      {
        var k :| 0 <= k < |m| && m[k] == ch;
        assert t[i + k] == ch;
      }
    }
  }

  /** The greedy pattern matches exactly when some '{' has a later '}'. */
  lemma GreedyBracesFound(t: string)
    requires '\n' !in t
    ensures GreedyBraces(t).None? <==> !HasBracePair(t)
  {
    var i := FirstIndexOf(t, '{');
    var j := LastIndexOf(t, '}');
    if HasBracePair(t) {
      var a, b :| 0 <= a < b < |t| && t[a] == '{' && t[b] == '}';
      assert i <= a;
      assert j.Some? && b <= j.value;
    }
  }

  /** The candidate `extract_json_from_text` hands to the JSON parser: the
      greedy match in the text with every newline removed. */
  function LocateJson(text: string): (m: Option<string>)
    ensures m.None? <==> !HasBracePair(RemoveNewlines(text))
    ensures m.Some? ==> '\n' !in m.value && |m.value| >= 2 && m.value[0] == '{' && m.value[|m.value| - 1] == '}'
  {
    GreedyBracesSpec(RemoveNewlines(text));
    GreedyBraces(RemoveNewlines(text))
  }

  /** Removing what follows the first '{' twice changes nothing more. */
  lemma {:induction false} ExtractDeleteJsonIdempotent(text: string)
    ensures ExtractDeleteJson(ExtractDeleteJson(text)) == ExtractDeleteJson(text)
  {
    if text != [] && text[0] != '{' {
      ExtractDeleteJsonIdempotent(text[1..]);
    }
  }
}
