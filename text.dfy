/** Character classes and the few `str` methods the scrapers rely on. */
module Text {
  import opened Maybe

  /** `\d` and `str.isdigit`, read as the ASCII decimal digits. */
  predicate IsDigit(c: char) { '0' <= c <= '9' }

  predicate IsAsciiLetter(c: char) { 'a' <= c <= 'z' || 'A' <= c <= 'Z' }

  /** The range `一-龥` of the regexes: the CJK unified ideographs the scrapers accept. */
  predicate IsCjk(c: char) { '\U{4E00}' <= c <= '\U{9FA5}' }

  /** A character that makes a string look like a name: CJK or an ASCII letter. */
  predicate IsNameChar(c: char) { IsCjk(c) || IsAsciiLetter(c) }

  /** Python's `str.isspace`, which is also what `\s` and `str.strip()` use on `str`. */
  predicate IsSpace(c: char) {
    || '\t' <= c <= '\r'
    || '\U{1C}' <= c <= '\U{1F}'
    || c == ' ' || c == '\U{85}' || c == '\U{A0}' || c == '\U{1680}'
    || '\U{2000}' <= c <= '\U{200A}'
    || c == '\U{2028}' || c == '\U{2029}' || c == '\U{202F}' || c == '\U{205F}' || c == '\U{3000}'
  }

  predicate AllDigits(s: string) { forall k :: 0 <= k < |s| ==> IsDigit(s[k]) }

  predicate AllSpace(s: string) { forall k :: 0 <= k < |s| ==> IsSpace(s[k]) }

  /** Length of the run of whitespace at the start of `s`. */
  function LeadingSpaces(s: string): (n: nat)
    ensures n <= |s|
    ensures AllSpace(s[..n])
    ensures n == |s| || !IsSpace(s[n])
  {
    if s == [] || !IsSpace(s[0]) then 0
    else
      var m := LeadingSpaces(s[1..]);
      assert s[1..][..m] == s[1..m + 1];
      1 + m
  }

  /** Length of the whitespace run at index `j`; a greedy `\s*` takes all of it. */
  function SpaceRun(text: string, j: nat): (n: nat)
    requires j <= |text|
    ensures j + n <= |text|
    ensures AllSpace(text[j..j + n])
    ensures j + n == |text| || !IsSpace(text[j + n])
  {
    var n := LeadingSpaces(text[j..]);
    assert text[j..][..n] == text[j..j + n];
    n
  }

  /** Length of the run of whitespace at the end of `s`. */
  function TrailingSpaces(s: string): (n: nat)
    ensures n <= |s|
    ensures AllSpace(s[|s| - n..])
    ensures n == |s| || !IsSpace(s[|s| - n - 1])
  {
    if s == [] || !IsSpace(s[|s| - 1]) then 0
    else
      var m := TrailingSpaces(s[..|s| - 1]);
      assert s[..|s| - 1][|s| - 1 - m..] == s[|s| - 1 - m..|s| - 1];
      1 + m
  }

  /** `str.strip()` with no argument: `s` without its leading and trailing whitespace. */
  function Strip(s: string): (r: string)
    ensures r == [] || (!IsSpace(r[0]) && !IsSpace(r[|r| - 1]))
    ensures exists i, j :: 0 <= i <= j <= |s| && r == s[i..j] && AllSpace(s[..i]) && AllSpace(s[j..])
  {
    var i := LeadingSpaces(s);
    var t := s[i..];
    var n := TrailingSpaces(t);
    var j := i + |t| - n;
    assert t[..|t| - n] == s[i..j];
    assert t[|t| - n..] == s[j..];
    assert i < j ==> s[i..j][0] == t[0] && s[i..j][j - i - 1] == t[|t| - n - 1];
    assert AllSpace(s[..i]) && AllSpace(s[j..]);
    s[i..j]
  }

  /** Fully stripped text: no whitespace at either end. */
  predicate Trimmed(s: string) { s == [] || (!IsSpace(s[0]) && !IsSpace(s[|s| - 1])) }

  lemma {:induction false} StripTrimmed(s: string)
    requires Trimmed(s)
    ensures Strip(s) == s
  {
    assert LeadingSpaces(s) == 0;
    assert s[0..] == s;
    assert TrailingSpaces(s) == 0;
  }

  /** `pat` occurs in `text` starting at index `p`. */
  predicate OccursAt(pat: string, text: string, p: nat) {
    p + |pat| <= |text| && text[p..p + |pat|] == pat
  }

  /** `pat in text` for strings. */
  predicate Contains(text: string, pat: string) {
    exists p: nat :: p + |pat| <= |text| && OccursAt(pat, text, p)
  }

  /** `text.find(pat)`: the first index where `pat` occurs, None for Python's -1. */
  function Find(text: string, pat: string): (r: Option<nat>)
    ensures r.Some? ==> OccursAt(pat, text, r.value)
    ensures r.Some? ==> forall q: nat :: q < r.value ==> !OccursAt(pat, text, q)
    ensures r.None? <==> !Contains(text, pat)
  {
    FindFrom(text, pat, 0)
  }

  function FindFrom(text: string, pat: string, i: nat): (r: Option<nat>)
    requires forall q: nat :: q < i ==> !OccursAt(pat, text, q)
    ensures r.Some? ==> i <= r.value && OccursAt(pat, text, r.value)
    ensures r.Some? ==> forall q: nat :: q < r.value ==> !OccursAt(pat, text, q)
    ensures r.None? ==> forall q: nat :: !OccursAt(pat, text, q)
    decreases |text| - i
  {
    if i + |pat| > |text| then None
    else if text[i..i + |pat|] == pat then Some(i)
    else FindFrom(text, pat, i + 1)
  }

  /** ASCII lower-casing; what `str.lower()` does to every character that can take part
      in matching one of the ASCII file extensions. */
  function LowerChar(c: char): char {
    if 'A' <= c <= 'Z' then (c as int + 32) as char else c
  }

  function LowerAscii(s: string): (r: string)
    ensures |r| == |s|
    ensures forall k :: 0 <= k < |s| ==> r[k] == LowerChar(s[k])
  {
    seq(|s|, k requires 0 <= k < |s| => LowerChar(s[k]))
  }
}
