/** `extract_phone_numbers` / `extract_phones` and `_is_filename_part`
    (phone_scraper.py:82-131, the same code as simple_scraper.py:45-94). */
module Phones {
  import opened Maybe
  import opened Text
  import opened Dedup

  /** What stands between the digit groups of a pattern: nothing, `\s*`, or `-`. */
  datatype Sep = Joined | Blanks | Hyphen

  /** The shape shared by all phone regexes of the scrapers:
      `(?<!\d)` prefix [`\s*`] `1[3-9]` `\d{g1}` sep `\d{g2}` sep ... `(?!\d)`.
      With `capturesNumber` the number from its leading `1` on is a capturing group,
      which is what `re.findall` then returns. */
  datatype PhonePattern = PhonePattern(
    prefix: string, gap: bool, groups: seq<nat>, sep: Sep, capturesNumber: bool)

  /** `(?<!\d)1[3-9]\d{9}(?!\d)` */
  const PLAIN := PhonePattern("", false, [9], Joined, false)
  /** `(?<!\d)\+86\s*1[3-9]\d{9}(?!\d)` */
  const PLUS_86 := PhonePattern("+86", true, [9], Joined, false)
  /** `(?<!\d)86\s*1[3-9]\d{9}(?!\d)` */
  const PREFIX_86 := PhonePattern("86", true, [9], Joined, false)
  /** `(?<!\d)1[3-9]\d{2}\s*\d{4}\s*\d{4}(?!\d)` */
  const SPACED := PhonePattern("", false, [2, 4, 4], Blanks, false)
  /** `(?<!\d)1[3-9]\d{2}-\d{4}-\d{4}(?!\d)` */
  const HYPHENATED := PhonePattern("", false, [2, 4, 4], Hyphen, false)

  /** The pattern list as the scrapers write it. */
  const PHONE_PATTERNS: seq<PhonePattern> := [PLAIN, PLUS_86, PREFIX_86, SPACED, HYPHENATED]

  /** The pattern list as its comments describe it: the country-code patterns capture the
      number after the code, and the separated patterns group the digits 3-4-4. */
  const FIXED_PHONE_PATTERNS: seq<PhonePattern> := [
    PLAIN,
    PLUS_86.(capturesNumber := true),
    PREFIX_86.(capturesNumber := true),
    SPACED.(groups := [1, 4, 4]),
    HYPHENATED.(groups := [1, 4, 4])
  ]

  /** `(?<!\d)` at index `i`. */
  predicate NoDigitBefore(text: string, i: nat)
    requires i <= |text|
  {
    i == 0 || !IsDigit(text[i - 1])
  }

  /** `(?!\d)` at index `i`. */
  predicate NoDigitAt(text: string, i: nat) {
    i >= |text| || !IsDigit(text[i])
  }

  /** `\d{n}` at index `pos`. */
  predicate DigitsAt(text: string, pos: nat, n: nat) {
    pos + n <= |text| && AllDigits(text[pos..pos + n])
  }

  /** Where a separator starting at `pos` ends, or None when it cannot match there. */
  function SepEnd(text: string, pos: nat, sep: Sep): (r: Option<nat>)
    requires pos <= |text|
    ensures r.Some? ==> pos <= r.value <= |text|
  {
    match sep
    case Joined => Some(pos)
    case Blanks => Some(pos + SpaceRun(text, pos))
    case Hyphen => if pos < |text| && text[pos] == '-' then Some(pos + 1) else None
  }

  /** Where the digit groups starting at `pos` end, or None. A whitespace separator is
      followed by a digit, so giving back any of it cannot help: the match is unique. */
  function GroupsEnd(text: string, pos: nat, groups: seq<nat>, sep: Sep, first: bool): (r: Option<nat>)
    requires pos <= |text|
    ensures r.Some? ==> pos <= r.value <= |text|
    decreases |groups|
  {
    if groups == [] then Some(pos)
    else
      var q := if first then Some(pos) else SepEnd(text, pos, sep);
      if q.None? then None
      else if DigitsAt(text, q.value, groups[0]) then
        GroupsEnd(text, q.value + groups[0], groups[1..], sep, false)
      else None
  }

  /** Where the number proper starts once the prefix and its `\s*` are matched at `i`. */
  function NumberStart(p: PhonePattern, text: string, i: nat): (k: nat)
    requires i + |p.prefix| <= |text|
    ensures i + |p.prefix| <= k <= |text|
  {
    var j := i + |p.prefix|;
    if p.gap then j + SpaceRun(text, j) else j
  }

  /** `(?<!\d)` and the literal prefix at `i`. */
  predicate HeadAt(p: PhonePattern, text: string, i: nat)
    requires i <= |text|
  {
    NoDigitBefore(text, i) && i + |p.prefix| <= |text| && text[i..i + |p.prefix|] == p.prefix
  }

  /** Where `1[3-9]` and the digit groups starting at `k` end, or None. */
  function NumberEnd(p: PhonePattern, text: string, k: nat): (r: Option<nat>)
    requires k <= |text|
    ensures r.Some? ==> k < r.value <= |text|
  {
    if k + 2 <= |text| && text[k] == '1' && '3' <= text[k + 1] <= '9' then
      GroupsEnd(text, k + 2, p.groups, p.sep, true)
    else None
  }

  /** A match of `p` starting exactly at `i`: the span `re.findall` returns (the whole
      match, or the group) and the end of the match, which `(?!\d)` checks. */
  function MatchAt(p: PhonePattern, text: string, i: nat): (r: Option<(nat, nat)>)
    requires i <= |text|
    ensures r.Some? ==> i <= r.value.0 < r.value.1 <= |text|
  {
    if !HeadAt(p, text, i) then None
    else
      var k := NumberStart(p, text, i);
      var e := NumberEnd(p, text, k);
      if e.Some? && NoDigitAt(text, e.value) then
        Some((if p.capturesNumber then k else i, e.value))
      else None
  }

  /** `re.findall(p, text[i:])` with look-behind still seeing `text[:i]`: a left-to-right
      scan, restarting after each match. */
  function MatchesFrom(p: PhonePattern, text: string, i: nat): seq<string>
    requires i <= |text|
    decreases |text| - i
  {
    if i == |text| then []
    else
      var m := MatchAt(p, text, i);
      if m.Some? then [text[m.value.0..m.value.1]] + MatchesFrom(p, text, m.value.1)
      else MatchesFrom(p, text, i + 1)
  }

  /** `re.findall(p, text)`. */
  function FindAll(p: PhonePattern, text: string): seq<string> {
    MatchesFrom(p, text, 0)
  }

  /** A character `re.sub(r'[\s\+\-]', '', match)` removes. */
  predicate Dropped(c: char) { IsSpace(c) || c == '+' || c == '-' }

  /** `re.sub(r'[\s\+\-]', '', match)`. */
  function CleanPhone(s: string): string {
    if s == [] then []
    else (if Dropped(s[0]) then [] else [s[0]]) + CleanPhone(s[1..])
  }

  const FILE_EXTENSIONS: seq<string> :=
    [".jpg", ".jpeg", ".png", ".gif", ".bmp", ".pdf", ".doc", ".docx", ".xls", ".xlsx"]

  /** The context window `text[max(0, pos-10):min(len(text), pos+21)]`, lower-cased,
      contains a listed file extension. */
  predicate ExtensionNear(text: string, pos: nat)
    requires pos <= |text|
  {
    var lo := if pos >= 10 then pos - 10 else 0;
    var hi := if pos + 21 <= |text| then pos + 21 else |text|;
    var context := LowerAscii(text[lo..hi]);
    exists e :: e in FILE_EXTENSIONS && Contains(context, e)
  }

  /** The characters just before and 11 after `pos` are both digits. */
  predicate DigitFlanked(text: string, pos: nat) {
    pos > 0 && pos + 11 < |text| && IsDigit(text[pos - 1]) && IsDigit(text[pos + 11])
  }

  /** `_is_filename_part(phone, text)`: looks only at the first occurrence of `phone`. */
  predicate IsFilenamePart(phone: string, text: string) {
    var pos := Find(text, phone);
    pos.Some? && (ExtensionNear(text, pos.value) || DigitFlanked(text, pos.value))
  }

  /** The checks one cleaned match must pass to be kept. */
  predicate Accepted(c: string, text: string) {
    |c| == 11 && c[0] == '1' && !IsFilenamePart(c, text)
  }

  /** The cleaned matches of one pattern that pass the checks, in match order. */
  function Kept(ms: seq<string>, text: string): (r: seq<string>)
    ensures forall c :: c in r ==> Accepted(c, text)
  {
    if ms == [] then []
    else
      var m := ms[|ms| - 1];
      var c := CleanPhone(m);
      Kept(ms[..|ms| - 1], text) + (if Accepted(c, text) then [c] else [])
  }

  /** A number is kept exactly when it passes the checks and some match cleans to it. */
  lemma {:induction false} KeptMembers(ms: seq<string>, text: string, c: string)
    ensures c in Kept(ms, text) <==> Accepted(c, text) && exists m :: m in ms && CleanPhone(m) == c
  {
    if ms != [] {
      var init := ms[..|ms| - 1];
      var last := ms[|ms| - 1];
      KeptMembers(init, text, c);
      assert Kept(ms, text) == Kept(init, text) + (if Accepted(CleanPhone(last), text) then [CleanPhone(last)] else []);
      if c in Kept(ms, text) {
        if c in Kept(init, text) {
          var m :| m in init && CleanPhone(m) == c;
          assert m in ms;
        } else {
          assert CleanPhone(last) == c && last in ms;
        }
      }
      if Accepted(c, text) && exists m :: m in ms && CleanPhone(m) == c {
        var m :| m in ms && CleanPhone(m) == c;
        if m != last {
          assert m in init by {
            var k :| 0 <= k < |ms| && ms[k] == m;
            assert init[k] == m;
          }
        }
      }
    }
  }

  /** The list `phones` holds after the loops over `patterns` and their matches. */
  function Candidates(patterns: seq<PhonePattern>, text: string): (r: seq<string>)
    ensures forall c :: c in r ==> Accepted(c, text)
  {
    if patterns == [] then []
    else
      Candidates(patterns[..|patterns| - 1], text) + Kept(FindAll(patterns[|patterns| - 1], text), text)
  }

  /** A number some pattern keeps is a candidate. */
  lemma {:induction false} CandidatesInclude(patterns: seq<PhonePattern>, text: string, p: PhonePattern, c: string)
    requires p in patterns && c in Kept(FindAll(p, text), text)
    ensures c in Candidates(patterns, text)
  {
    var init := patterns[..|patterns| - 1];
    if p != patterns[|patterns| - 1] {
      var k :| 0 <= k < |patterns| && patterns[k] == p;
      assert init[k] == p;
      CandidatesInclude(init, text, p, c);
    }
  }

  /** What the extractor returns: `list(set(phones))`. */
  function PhoneNumbers(patterns: seq<PhonePattern>, text: string): seq<string> {
    Distinct(Candidates(patterns, text))
  }

  /** `Kept` unfolded at index `j`. */
  lemma KeptAt(ms: seq<string>, text: string, j: nat)
    requires j < |ms|
    ensures Kept(ms[..j + 1], text)
      == Kept(ms[..j], text) + (if Accepted(CleanPhone(ms[j]), text) then [CleanPhone(ms[j])] else [])
  {
    assert ms[..j + 1][..j] == ms[..j];
  }

  /** The inner loop of `extract_phone_numbers` over the matches of one pattern. */
  method KeepPhones(matches: seq<string>, text: string) returns (kept: seq<string>)
    ensures kept == Kept(matches, text)
  {
    kept := [];
    for j := 0 to |matches|
      invariant kept == Kept(matches[..j], text)
    {
      KeptAt(matches, text, j);
      var clean := CleanPhone(matches[j]);
      if |clean| == 11 && clean[0] == '1' {
        if !IsFilenamePart(clean, text) {
          kept := kept + [clean];
        }
      }
    }
    assert matches[..|matches|] == matches;
  }

  /** `extract_phone_numbers(text)` run over the pattern list `patterns`. */
  method ExtractPhoneNumbers(patterns: seq<PhonePattern>, text: string) returns (phones: seq<string>)
    ensures phones == PhoneNumbers(patterns, text)
    ensures NoDup(phones)
    ensures forall ph :: ph in phones ==> |ph| == 11 && ph[0] == '1' && !IsFilenamePart(ph, text)
    ensures forall ph :: ph in phones <==> ph in Candidates(patterns, text)
  {
    var found: seq<string> := [];
    for i := 0 to |patterns|
      invariant found == Candidates(patterns[..i], text)
    {
      var kept := KeepPhones(FindAll(patterns[i], text), text);
      found := found + kept;
      assert patterns[..i + 1][..i] == patterns[..i];
    }
    assert patterns[..|patterns|] == patterns;
    phones := Distinct(found);
  }

  // ---------------------------------------------------------------------------
  // Properties of `_is_filename_part`

  /** A phone that does not occur literally in the text is never taken for a filename. */
  lemma AbsentIsNotFilename(phone: string, text: string)
    requires !Contains(text, phone)
    ensures !IsFilenamePart(phone, text)
  {
  }

  /** At the first literal occurrence `pos`, a listed extension in the window or a digit on
      both sides makes the phone a filename part; nothing else does. */
  lemma FilenamePartAtFirstOccurrence(phone: string, text: string, pos: nat)
    requires OccursAt(phone, text, pos)
    requires forall q: nat :: q < pos ==> !OccursAt(phone, text, q)
    ensures IsFilenamePart(phone, text) <==> ExtensionNear(text, pos) || DigitFlanked(text, pos)
  {
    assert Contains(text, phone);
  }

  // ---------------------------------------------------------------------------
  // What a match of a pattern cleans to

  function Sum(xs: seq<nat>): nat {
    if xs == [] then 0 else xs[0] + Sum(xs[1..])
  }

  lemma {:induction false} CleanPhoneConcat(a: string, b: string)
    ensures CleanPhone(a + b) == CleanPhone(a) + CleanPhone(b)
  {
    if a == [] {
      assert a + b == b;
    } else {
      assert (a + b)[0] == a[0];
      assert (a + b)[1..] == a[1..] + b;
      CleanPhoneConcat(a[1..], b);
    }
  }

  lemma {:induction false} CleanPhoneOfDigits(s: string)
    requires AllDigits(s)
    ensures CleanPhone(s) == s
  {
    if s != [] {
      CleanPhoneOfDigits(s[1..]);
    }
  }

  lemma {:induction false} CleanPhoneOfDropped(s: string)
    requires forall k :: 0 <= k < |s| ==> Dropped(s[k])
    ensures CleanPhone(s) == []
  {
    if s != [] {
      CleanPhoneOfDropped(s[1..]);
    }
  }

  lemma CleanSplit(text: string, a: nat, b: nat, c: nat)
    requires a <= b <= c <= |text|
    ensures CleanPhone(text[a..c]) == CleanPhone(text[a..b]) + CleanPhone(text[b..c])
  {
    assert text[a..c] == text[a..b] + text[b..c];
    CleanPhoneConcat(text[a..b], text[b..c]);
  }

  /** A separator cleans away entirely. */
  lemma SepClean(text: string, pos: nat, sep: Sep)
    requires pos <= |text| && SepEnd(text, pos, sep).Some?
    ensures CleanPhone(text[pos..SepEnd(text, pos, sep).value]) == []
  {
    var q := SepEnd(text, pos, sep).value;
    if sep == Hyphen {
      assert text[pos..q] == "-";
    }
    CleanPhoneOfDropped(text[pos..q]);
  }

  /** One separator and one digit group clean to the group's digits. */
  lemma GroupStep(text: string, pos: nat, q: nat, g: nat, e: nat)
    requires pos <= q <= q + g <= e <= |text|
    requires CleanPhone(text[pos..q]) == [] && AllDigits(text[q..q + g])
    ensures |CleanPhone(text[pos..e])| == g + |CleanPhone(text[q + g..e])|
  {
    var a, b, c := text[pos..q], text[q..q + g], text[q + g..e];
    assert text[pos..e] == a + b + c;
    CleanPhoneConcat(a + b, c);
    CleanPhoneConcat(a, b);
    CleanPhoneOfDigits(b);
  }

  /** The digit groups after the first clean to `Sum(groups)` digits. */
  lemma {:induction false} LaterGroupsClean(text: string, pos: nat, groups: seq<nat>, sep: Sep, e: nat)
    requires pos <= |text|
    requires GroupsEnd(text, pos, groups, sep, false) == Some(e)
    ensures pos <= e <= |text| && |CleanPhone(text[pos..e])| == Sum(groups)
    decreases |groups|
  {
    if groups == [] {
      assert text[pos..e] == [];
    } else {
      var q := GroupsEndStep(text, pos, groups, sep, e);
      SepClean(text, pos, sep);
      var g := groups[0];
      LaterGroupsClean(text, q + g, groups[1..], sep, e);
      GroupStep(text, pos, q, g, e);
    }
  }

  /** A later group unfolded once: its separator ends at `q`, its digits follow. */
  lemma GroupsEndStep(text: string, pos: nat, groups: seq<nat>, sep: Sep, e: nat) returns (q: nat)
    requires pos <= |text| && groups != []
    requires GroupsEnd(text, pos, groups, sep, false) == Some(e)
    ensures SepEnd(text, pos, sep) == Some(q) && DigitsAt(text, q, groups[0])
    ensures q + groups[0] <= e <= |text| && GroupsEnd(text, q + groups[0], groups[1..], sep, false) == Some(e)
  {
    q := SepEnd(text, pos, sep).value;
  }

  /** The digit groups of a match clean to `Sum(groups)` digits. */
  lemma GroupsClean(text: string, pos: nat, groups: seq<nat>, sep: Sep, e: nat)
    requires pos <= |text|
    requires GroupsEnd(text, pos, groups, sep, true) == Some(e)
    ensures pos <= e <= |text| && |CleanPhone(text[pos..e])| == Sum(groups)
  {
    if groups == [] {
      assert text[pos..e] == [];
    } else {
      var g := groups[0];
      LaterGroupsClean(text, pos + g, groups[1..], sep, e);
      assert text[pos..pos] == [];
      GroupStep(text, pos, pos, g, e);
    }
  }

  /** The `\s*` after the prefix is whitespace only. */
  lemma GapIsSpace(p: PhonePattern, text: string, i: nat)
    requires i + |p.prefix| <= |text|
    ensures AllSpace(text[i + |p.prefix|..NumberStart(p, text, i)])
  {
  }

  /** How a match at `i` is laid out: prefix, `\s*`, then the number up to its end. */
  lemma MatchShape(p: PhonePattern, text: string, i: nat)
    requires i <= |text| && MatchAt(p, text, i).Some?
    ensures HeadAt(p, text, i)
    ensures var k := NumberStart(p, text, i);
      && NumberEnd(p, text, k).Some?
      && MatchAt(p, text, i).value == (if p.capturesNumber then k else i, NumberEnd(p, text, k).value)
  {
  }

  /** The number proper: `1[3-9]`, then the groups. */
  lemma NumberEndShape(p: PhonePattern, text: string, k: nat)
    requires k <= |text| && NumberEnd(p, text, k).Some?
    ensures k + 2 <= |text| && text[k] == '1' && '3' <= text[k + 1] <= '9'
    ensures GroupsEnd(text, k + 2, p.groups, p.sep, true) == NumberEnd(p, text, k)
  {
  }

  /** The number proper of a match, `1[3-9]` and its groups, cleans to `2 + Sum(groups)`
      characters starting with `1`. */
  lemma NumberClean(text: string, k: nat, e: nat, groups: seq<nat>, sep: Sep)
    requires k + 2 <= |text| && text[k] == '1' && IsDigit(text[k + 1])
    requires GroupsEnd(text, k + 2, groups, sep, true) == Some(e)
    ensures k <= e <= |text| && |CleanPhone(text[k..e])| == 2 + Sum(groups)
    ensures CleanPhone(text[k..e])[0] == '1'
  {
    GroupsClean(text, k + 2, groups, sep, e);
    CleanSplit(text, k, k + 2, e);
    assert text[k..k + 2] == [text[k], text[k + 1]];
    CleanPhoneOfDigits(text[k..k + 2]);
  }

  /** How many characters the literal prefix contributes to a cleaned match. */
  function HeadLength(p: PhonePattern): nat {
    if p.capturesNumber then 0 else |CleanPhone(p.prefix)|
  }

  /** A prefix and the whitespace after it clean to the cleaned prefix. */
  lemma PrefixClean(text: string, prefix: string, i: nat, j: nat, k: nat, e: nat)
    requires i <= j <= k <= e <= |text|
    requires text[i..j] == prefix && AllSpace(text[j..k])
    ensures CleanPhone(text[i..e]) == CleanPhone(prefix) + CleanPhone(text[k..e])
  {
    CleanSplit(text, i, k, e);
    CleanSplit(text, i, j, k);
    var gap := text[j..k];
    assert forall q :: 0 <= q < |gap| ==> IsSpace(gap[q]);
    CleanPhoneOfDropped(gap);
    assert CleanPhone(text[i..k]) == CleanPhone(prefix) + [];
  }

  /** What one match of `p` cleans to: the cleaned prefix (unless only the number is
      captured), then `2 + Sum(groups)` characters, the first of them `1`. */
  lemma MatchClean(p: PhonePattern, text: string, i: nat)
    requires i <= |text| && MatchAt(p, text, i).Some?
    ensures |CleanPhone(text[MatchAt(p, text, i).value.0..MatchAt(p, text, i).value.1])|
      == HeadLength(p) + 2 + Sum(p.groups)
    ensures CleanPhone(text[MatchAt(p, text, i).value.0..MatchAt(p, text, i).value.1])[HeadLength(p)] == '1'
  {
    var r := MatchAt(p, text, i).value;
    var k := NumberStart(p, text, i);
    MatchShape(p, text, i);
    NumberEndShape(p, text, k);
    NumberClean(text, k, r.1, p.groups, p.sep);
    if !p.capturesNumber {
      GapIsSpace(p, text, i);
      PrefixClean(text, p.prefix, i, i + |p.prefix|, k, r.1);
    }
  }

  lemma MatchesFromOrigin(p: PhonePattern, text: string, i: nat, m: string)
    requires i <= |text| && m in MatchesFrom(p, text, i)
    ensures exists q: nat :: (q <= |text| && MatchAt(p, text, q).Some?
      && m == text[MatchAt(p, text, q).value.0..MatchAt(p, text, q).value.1])
    decreases |text| - i
  {
    var r := MatchAt(p, text, i);
    if r.Some? {
      if m != text[r.value.0..r.value.1] {
        MatchesFromOrigin(p, text, r.value.1, m);
      }
    } else {
      MatchesFromOrigin(p, text, i + 1, m);
    }
  }

  /** A scan from `i` finds nothing when no match starts at or after `i`. */
  lemma NoMatchesFrom(p: PhonePattern, text: string, i: nat)
    requires i <= |text|
    requires forall j: nat :: i <= j < |text| ==> MatchAt(p, text, j).None?
    ensures MatchesFrom(p, text, i) == []
    decreases |text| - i
  {
    if i < |text| {
      NoMatchesFrom(p, text, i + 1);
    }
  }

  /** A match in the scan at `i` is the first thing `findall` returns from there. */
  lemma MatchesFromHead(p: PhonePattern, text: string, i: nat)
    requires i <= |text| && MatchAt(p, text, i).Some?
    ensures text[MatchAt(p, text, i).value.0..MatchAt(p, text, i).value.1] in MatchesFrom(p, text, i)
  {
  }

  /** Every match of `p` in `text` cleans to the length `MatchClean` gives. */
  lemma FindAllCleanLength(p: PhonePattern, text: string, m: string)
    requires m in FindAll(p, text)
    ensures |CleanPhone(m)| == HeadLength(p) + 2 + Sum(p.groups) && CleanPhone(m)[HeadLength(p)] == '1'
  {
    MatchesFromOrigin(p, text, 0, m);
    var q: nat :| (q <= |text| && MatchAt(p, text, q).Some?
      && m == text[MatchAt(p, text, q).value.0..MatchAt(p, text, q).value.1]);
    MatchClean(p, text, q);
  }

  lemma {:induction false} KeptNone(ms: seq<string>, text: string)
    requires forall m :: m in ms ==> |CleanPhone(m)| != 11
    ensures Kept(ms, text) == []
  {
    if ms != [] {
      KeptNone(ms[..|ms| - 1], text);
    }
  }

  /** The pattern list as written, unrolled. */
  lemma CandidatesAsWritten(text: string)
    ensures Candidates(PHONE_PATTERNS, text)
      == Kept(FindAll(PLAIN, text), text) + Kept(FindAll(PLUS_86, text), text)
       + Kept(FindAll(PREFIX_86, text), text) + Kept(FindAll(SPACED, text), text)
       + Kept(FindAll(HYPHENATED, text), text)
  {
    var ps := PHONE_PATTERNS;
    assert ps[..1][..0] == [];
    assert Candidates(ps[..1], text) == Kept(FindAll(PLAIN, text), text);
    assert ps[..2][..1] == ps[..1];
    assert Candidates(ps[..2], text) == Candidates(ps[..1], text) + Kept(FindAll(PLUS_86, text), text);
    assert ps[..3][..2] == ps[..2];
    assert Candidates(ps[..3], text) == Candidates(ps[..2], text) + Kept(FindAll(PREFIX_86, text), text);
    assert ps[..4][..3] == ps[..3];
    assert Candidates(ps[..4], text) == Candidates(ps[..3], text) + Kept(FindAll(SPACED, text), text);
    assert ps[..4] == ps[..|ps| - 1];
  }

  /** A pattern whose matches never clean to 11 characters contributes nothing. */
  lemma NeverElevenKeepsNothing(p: PhonePattern, text: string)
    requires HeadLength(p) + 2 + Sum(p.groups) != 11
    ensures Kept(FindAll(p, text), text) == []
  {
    forall m | m in FindAll(p, text)
      ensures |CleanPhone(m)| != 11
    {
      FindAllCleanLength(p, text, m);
    }
    KeptNone(FindAll(p, text), text);
  }

  /** As written, the `+86` and `86` patterns clean to 13 characters and the separated
      patterns to 12, so the length check drops every one of their matches: only the
      plain pattern ever contributes a number. */
  lemma AsWrittenOnlyPlainCounts(text: string)
    ensures Candidates(PHONE_PATTERNS, text) == Kept(FindAll(PLAIN, text), text)
  {
    assert HeadLength(PLUS_86) == 2 by {
      assert CleanPhone("+86") == "86";
    }
    assert HeadLength(PREFIX_86) == 2 by {
      assert CleanPhone("86") == "86";
    }
    assert Sum([9]) == 9 && Sum([2, 4, 4]) == 10;
    NeverElevenKeepsNothing(PLUS_86, text);
    NeverElevenKeepsNothing(PREFIX_86, text);
    NeverElevenKeepsNothing(SPACED, text);
    NeverElevenKeepsNothing(HYPHENATED, text);
    CandidatesAsWritten(text);
  }

  /** Every match of the corrected patterns cleans to an 11-digit number starting with `1`. */
  lemma FixedPatternsClean11(text: string, p: PhonePattern, m: string)
    requires p in FIXED_PHONE_PATTERNS && m in FindAll(p, text)
    ensures |CleanPhone(m)| == 11 && CleanPhone(m)[0] == '1'
  {
    FindAllCleanLength(p, text, m);
  }
}
