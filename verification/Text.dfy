/** Character classes and prefix facts shared by the text components. */
module Text {

  predicate IsDigit(c: char) { '0' <= c <= '9' }

  predicate IsAlpha(c: char) { 'a' <= c <= 'z' || 'A' <= c <= 'Z' }

  /** `isalnum` in the C locale, or an underscore. */
  predicate IsWord(c: char) { IsDigit(c) || IsAlpha(c) || c == '_' }

  /** `isspace` in the C locale: blank, tab, newline, vertical tab, form feed, carriage return. */
  predicate IsSpace(c: char) { c == ' ' || '\t' <= c <= '\r' }

  /** Drops every trailing blank. */
  function TrimTrailing(s: string): (r: string)
    ensures r <= s
    ensures r != "" ==> !IsSpace(r[|r| - 1])
    ensures forall k :: |r| <= k < |s| ==> IsSpace(s[k])
  {
    if s == "" || !IsSpace(s[|s| - 1]) then s else TrimTrailing(s[..|s| - 1])
  }

  /** Trimming commutes with growth: a longer text keeps the trimmed shorter text as a prefix. */
  lemma {:induction false} TrimTrailingMonotone(p: string, s: string)
    requires p <= s
    ensures TrimTrailing(p) <= TrimTrailing(s)
  {
    var a, b := TrimTrailing(p), TrimTrailing(s);
    assert a != "" ==> s[|a| - 1] == a[|a| - 1];
    assert a == s[..|a|] && b == s[..|b|];
  }
}
