/** Trimming, and comparing ASCII text. */
module Text {
  import opened Wrappers

  predicate IsWhitespace(c: char) {
    || '\U{0009}' <= c <= '\U{000D}'
    || c in ['\U{0020}', '\U{0085}', '\U{00A0}', '\U{1680}']
    || '\U{2000}' <= c <= '\U{200A}'
    || c in ['\U{2028}', '\U{2029}', '\U{202F}', '\U{205F}', '\U{3000}']
  }

  /** Among ASCII these are the space, tab, line feed, vertical tab, form feed and carriage return. */
  lemma AsciiWhitespace(c: char)
    requires c as int < 0x80
    ensures IsWhitespace(c) <==> c in " \t\n\r\U{000B}\U{000C}"
  {
    var all := " \t\n\r\U{000B}\U{000C}";
    assert all[0] == ' ' && all[1] == '\t' && all[2] == '\n' && all[3] == '\r';
    assert all[4] == '\U{000B}' && all[5] == '\U{000C}';
  }

  function Trim(s: string): (t: string)
    ensures |t| <= |s|
    ensures t != "" ==> !IsWhitespace(t[0]) && !IsWhitespace(t[|t| - 1])
    ensures (forall i | 0 <= i < |s| :: !IsWhitespace(s[i])) ==> t == s
  {
    if s == "" then ""
    else if IsWhitespace(s[0]) then Trim(s[1..])
    else if IsWhitespace(s[|s| - 1]) then Trim(s[..|s| - 1])
    else s
  }

  ghost predicate IsSpace(s: string) {
    forall i | 0 <= i < |s| :: IsWhitespace(s[i])
  }

  lemma OneMoreInFront(s: string, before: string, middle: string, after: string)
    requires s != "" && s[1..] == before + middle + after && IsWhitespace(s[0]) && IsSpace(before)
    ensures s == [s[0]] + before + middle + after && IsSpace([s[0]] + before)
  {
    assert s == [s[0]] + s[1..];
  }

  lemma OneMoreBehind(s: string, before: string, middle: string, after: string)
    requires s != "" && s[..|s| - 1] == before + middle + after && IsWhitespace(s[|s| - 1]) && IsSpace(after)
    ensures s == before + middle + (after + [s[|s| - 1]]) && IsSpace(after + [s[|s| - 1]])
  {
    assert s == s[..|s| - 1] + [s[|s| - 1]];
  }

  /** What is trimmed off at both ends is space. */
  lemma {:induction false} TrimRemovesSpace(s: string) returns (before: string, after: string)
    ensures s == before + Trim(s) + after && IsSpace(before) && IsSpace(after)
    decreases |s|
  {
    before, after := "", "";
    if s != "" {
      if IsWhitespace(s[0]) {
        before, after := TrimRemovesSpace(s[1..]);
        OneMoreInFront(s, before, Trim(s[1..]), after);
        before := [s[0]] + before;
      } else if IsWhitespace(s[|s| - 1]) {
        before, after := TrimRemovesSpace(s[..|s| - 1]);
        OneMoreBehind(s, before, Trim(s[..|s| - 1]), after);
        after := after + [s[|s| - 1]];
      }
    }
  }

  /** A value without the space around it; blank values count as absent. */
  function Stated(value: Option<string>): Option<string> {
    if value.Some? && Trim(value.value) != "" then Some(Trim(value.value)) else None
  }

  function LowerAscii(c: char): char {
    if 'A' <= c <= 'Z' then c + 32 as char else c
  }

  predicate EqualIgnoringAsciiCase(a: string, b: string) {
    |a| == |b| && forall i | 0 <= i < |a| :: LowerAscii(a[i]) == LowerAscii(b[i])
  }
}
