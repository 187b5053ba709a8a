/** Trimming as Rust does it, where every character with the Unicode White_Space property counts, and
ASCII lower case. */
module Text {

  predicate IsWhitespace(c: char) {
    || '\t' <= c <= '\r' || c == ' ' || c == '\U{85}' || c == '\U{A0}' || c == '\U{1680}'
    || '\U{2000}' <= c <= '\U{200A}' || c == '\U{2028}' || c == '\U{2029}' || c == '\U{202F}'
    || c == '\U{205F}' || c == '\U{3000}'
  }

  function TrimStart(text: string): string {
    if text != "" && IsWhitespace(text[0]) then TrimStart(text[1..]) else text
  }

  function TrimEnd(text: string): string {
    if text != "" && IsWhitespace(text[|text| - 1]) then TrimEnd(text[..|text| - 1]) else text
  }

  function Trim(text: string): string {
    TrimStart(TrimEnd(text))
  }

  /** ASCII letters in lower case, everything else as it is. */
  function LowerChar(c: char): char {
    if 'A' <= c <= 'Z' then c - 'A' + 'a' else c
  }

  function Lower(text: string): string {
    seq(|text|, i requires 0 <= i < |text| => LowerChar(text[i]))
  }

  predicate IsBlank(text: string) {
    forall i :: 0 <= i < |text| ==> IsWhitespace(text[i])
  }

  lemma {:induction false} TrimStartDropsPadding(padding: string, text: string)
    requires IsBlank(padding)
    ensures TrimStart(padding + text) == TrimStart(text)
  {
    if padding == "" {
      assert padding + text == text;
    } else {
      TrimStartDropsPadding(padding[1..], text);
      assert (padding + text)[1..] == padding[1..] + text;
    }
  }

  lemma {:induction false} TrimEndDropsPadding(text: string, padding: string)
    requires IsBlank(padding)
    ensures TrimEnd(text + padding) == TrimEnd(text)
  {
    if padding == "" {
      assert text + padding == text;
    } else {
      TrimEndDropsPadding(text, padding[..|padding| - 1]);
      assert (text + padding)[..|text + padding| - 1] == text + padding[..|padding| - 1];
    }
  }

  /** Padding on either side of a text with no padding of its own is what trimming removes. */
  lemma TrimDropsPadding(before: string, text: string, after: string)
    requires IsBlank(before) && IsBlank(after)
    requires text != "" && !IsWhitespace(text[0]) && !IsWhitespace(text[|text| - 1])
    ensures Trim(before + text + after) == text
  {
    TrimEndDropsPadding(before + text, after);
    assert (before + text)[|before + text| - 1] == text[|text| - 1];
    TrimStartDropsPadding(before, text);
  }
}
