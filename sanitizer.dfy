/** `clean_text` (phone_scraper.py and simple_scraper.py): drop every character
    outside a whitelist, then turn each run of whitespace into one space and strip. */
module Sanitizer {
  import opened Text

  /** The class `[一-龥a-zA-Z0-9\s：:()（）]`. */
  predicate Allowed(c: char) {
    IsCjk(c) || IsAsciiLetter(c) || IsDigit(c) || IsSpace(c)
    || c == '：' || c == ':' || c == '(' || c == ')' || c == '（' || c == '）'
  }

  /** `re.sub(r'[^...]', '', text)`. */
  function Whitelist(s: string): (r: string)
    ensures forall k :: 0 <= k < |r| ==> Allowed(r[k])
  {
    if s == [] then []
    else (if Allowed(s[0]) then [s[0]] else []) + Whitelist(s[1..])
  }

  /** The characters of `s` that are not whitespace, in order. */
  function NonSpace(s: string): string {
    if s == [] then []
    else (if IsSpace(s[0]) then [] else [s[0]]) + NonSpace(s[1..])
  }

  /** The visible content `clean_text` keeps: allowed characters that are not whitespace. */
  function Visible(s: string): string {
    if s == [] then []
    else (if Allowed(s[0]) && !IsSpace(s[0]) then [s[0]] else []) + Visible(s[1..])
  }

  /** No two neighbouring characters are both whitespace. */
  ghost predicate NoDoubleSpace(s: string) {
    forall i, j :: 0 <= i < j < |s| && j == i + 1 ==> !(IsSpace(s[i]) && IsSpace(s[j]))
  }

  predicate SpacesArePlain(s: string) {
    forall k :: 0 <= k < |s| && IsSpace(s[k]) ==> s[k] == ' '
  }

  /** `re.sub(r'\s+', ' ', s)`. */
  function Collapse(s: string): string
    decreases |s|
  {
    if s == [] then []
    else if IsSpace(s[0]) then
      var n := LeadingSpaces(s);
      [' '] + Collapse(s[n..])
    else [s[0]] + Collapse(s[1..])
  }

  /** What `re.sub(r'\s+', ' ', s)` leaves: each whitespace run is one plain space, and
      every other character comes from `s`. */
  lemma {:induction false} CollapseShape(s: string)
    ensures var r := Collapse(s);
      && (s == [] <==> r == [])
      && (s != [] ==> (IsSpace(r[0]) <==> IsSpace(s[0])))
      && SpacesArePlain(r) && NoDoubleSpace(r)
      && forall k :: 0 <= k < |r| ==> r[k] == ' ' || r[k] in s
    decreases |s|
  {
    if s != [] {
      if IsSpace(s[0]) {
        var n := LeadingSpaces(s);
        var t := Collapse(s[n..]);
        CollapseShape(s[n..]);
        assert n == |s| || !IsSpace(s[n]);
        ShapeCons(' ', t, s[n..], s);
      } else {
        var t := Collapse(s[1..]);
        CollapseShape(s[1..]);
        ShapeCons(s[0], t, s[1..], s);
      }
    }
  }

  /** One character in front of a collapsed tail keeps the shape, provided a space is not
      followed by another whitespace. */
  lemma ShapeCons(c: char, t: string, rest: string, s: string)
    requires SpacesArePlain(t) && NoDoubleSpace(t)
    requires forall k :: 0 <= k < |t| ==> t[k] == ' ' || t[k] in rest
    requires rest == [] <==> t == []
    requires rest != [] ==> (IsSpace(t[0]) <==> IsSpace(rest[0]))
    requires IsSpace(c) ==> c == ' ' && (rest == [] || !IsSpace(rest[0]))
    requires c == ' ' || c in s
    requires forall x :: x in rest ==> x in s
    ensures var r := [c] + t;
      && SpacesArePlain(r) && NoDoubleSpace(r)
      && forall k :: 0 <= k < |r| ==> r[k] == ' ' || r[k] in s
  {
    var r := [c] + t;
    assert forall k :: 1 <= k < |r| ==> r[k] == t[k - 1];
    forall i, j | 0 <= i < j < |r| && j == i + 1
      ensures !(IsSpace(r[i]) && IsSpace(r[j]))
    {
      if i > 0 {
        assert r[i] == t[i - 1] && r[j] == t[j - 1];
      }
    }
  }

  /** `clean_text(text)`. */
  function CleanText(s: string): string {
    if s == [] then [] else Strip(Collapse(Whitelist(s)))
  }

  lemma {:induction false} NonSpaceSkip(s: string, n: nat)
    requires n <= |s| && AllSpace(s[..n])
    ensures NonSpace(s) == NonSpace(s[n..])
  {
    if n > 0 {
      assert IsSpace(s[..n][0]);
      assert s[1..][..n - 1] == s[1..n];
      NonSpaceSkip(s[1..], n - 1);
      assert s[1..][n - 1..] == s[n..];
    }
  }

  lemma {:induction false} CollapseKeepsNonSpace(s: string)
    ensures NonSpace(Collapse(s)) == NonSpace(s)
    decreases |s|
  {
    if s != [] {
      if IsSpace(s[0]) {
        var n := LeadingSpaces(s);
        CollapseKeepsNonSpace(s[n..]);
        NonSpaceSkip(s, n);
        assert ([' '] + Collapse(s[n..]))[1..] == Collapse(s[n..]);
      } else {
        CollapseKeepsNonSpace(s[1..]);
        assert ([s[0]] + Collapse(s[1..]))[1..] == Collapse(s[1..]);
      }
    }
  }

  lemma {:induction false} NonSpaceWhitelist(s: string)
    ensures NonSpace(Whitelist(s)) == Visible(s)
  {
    if s != [] {
      NonSpaceWhitelist(s[1..]);
      NonSpaceConcat(if Allowed(s[0]) then [s[0]] else [], Whitelist(s[1..]));
    }
  }

  lemma {:induction false} NonSpaceConcat(a: string, b: string)
    ensures NonSpace(a + b) == NonSpace(a) + NonSpace(b)
  {
    if a == [] {
      assert a + b == b;
    } else {
      assert (a + b)[0] == a[0];
      assert (a + b)[1..] == a[1..] + b;
      NonSpaceConcat(a[1..], b);
    }
  }

  lemma {:induction false} NonSpaceOfSpaces(s: string)
    requires AllSpace(s)
    ensures NonSpace(s) == []
  {
    if s != [] {
      NonSpaceOfSpaces(s[1..]);
    }
  }

  /** Stripping only removes whitespace, so it keeps the non-space content. */
  lemma StripKeepsNonSpace(s: string)
    ensures NonSpace(Strip(s)) == NonSpace(s)
  {
    var i, j :| 0 <= i <= j <= |s| && Strip(s) == s[i..j] && AllSpace(s[..i]) && AllSpace(s[j..]);
    assert s == s[..i] + s[i..j] + s[j..];
    NonSpaceConcat(s[..i] + s[i..j], s[j..]);
    NonSpaceConcat(s[..i], s[i..j]);
    NonSpaceOfSpaces(s[..i]);
    NonSpaceOfSpaces(s[j..]);
  }

  /** The shape `clean_text` promises: only whitelisted characters, whitespace only as
      single plain spaces between other characters, nothing at either end. */
  lemma CleanTextShape(s: string)
    ensures s == [] ==> CleanText(s) == []
    ensures forall k :: 0 <= k < |CleanText(s)| ==> Allowed(CleanText(s)[k])
    ensures Trimmed(CleanText(s))
    ensures NoDoubleSpace(CleanText(s)) && SpacesArePlain(CleanText(s))
  {
    if s != [] {
      var c := Collapse(Whitelist(s));
      CollapseShape(Whitelist(s));
      var t := Strip(c);
      assert CleanText(s) == t;
      assert Trimmed(t);
      CollapseAllowed(Whitelist(s));
      var i, j :| 0 <= i <= j <= |c| && t == c[i..j];
      SliceShape(c, i, j);
    }
  }

  /** Collapsing whitespace adds only plain spaces, so it keeps a whitelisted string
      whitelisted. */
  lemma CollapseAllowed(w: string)
    requires forall k :: 0 <= k < |w| ==> Allowed(w[k])
    ensures forall k :: 0 <= k < |Collapse(w)| ==> Allowed(Collapse(w)[k])
  {
    var c := Collapse(w);
    CollapseShape(w);
    forall k | 0 <= k < |c| ensures Allowed(c[k]) {
      if c[k] != ' ' {
        var m :| 0 <= m < |w| && w[m] == c[k];
      }
    }
  }

  lemma SliceShape(c: string, i: nat, j: nat)
    requires i <= j <= |c|
    requires forall k :: 0 <= k < |c| ==> Allowed(c[k])
    requires NoDoubleSpace(c) && SpacesArePlain(c)
    ensures forall k :: 0 <= k < j - i ==> Allowed(c[i..j][k])
    ensures NoDoubleSpace(c[i..j]) && SpacesArePlain(c[i..j])
  {
    var t := c[i..j];
    assert forall k :: 0 <= k < |t| ==> t[k] == c[i + k];
  }

  /** `clean_text` keeps, in order, exactly the visible whitelisted characters of its input. */
  lemma CleanTextKeepsVisible(s: string)
    ensures NonSpace(CleanText(s)) == Visible(s)
  {
    if s != [] {
      StripKeepsNonSpace(Collapse(Whitelist(s)));
      CollapseKeepsNonSpace(Whitelist(s));
      NonSpaceWhitelist(s);
    }
  }

  lemma {:induction false} WhitelistFixed(s: string)
    requires forall k :: 0 <= k < |s| ==> Allowed(s[k])
    ensures Whitelist(s) == s
  {
    if s != [] {
      WhitelistFixed(s[1..]);
    }
  }

  lemma {:induction false} CollapseFixed(s: string)
    requires NoDoubleSpace(s) && SpacesArePlain(s)
    ensures Collapse(s) == s
    decreases |s|
  {
    if s != [] {
      if IsSpace(s[0]) {
        assert LeadingSpaces(s) == 1 by {
          assert |s| == 1 || !IsSpace(s[1]);
          assert LeadingSpaces(s[1..]) == 0;
        }
        CollapseFixed(s[1..]);
        assert s == [' '] + s[1..];
      } else {
        CollapseFixed(s[1..]);
        assert s == [s[0]] + s[1..];
      }
    }
  }

  /** Cleaning already-clean text changes nothing. */
  lemma CleanTextIdempotent(s: string)
    ensures CleanText(CleanText(s)) == CleanText(s)
  {
    var r := CleanText(s);
    CleanTextShape(s);
    if r != [] {
      WhitelistFixed(r);
      CollapseFixed(r);
      StripTrimmed(r);
    }
  }
}
