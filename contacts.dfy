/** `extract_contacts` and `_is_valid_contact` (phone_scraper.py:133-186, the same code as
    simple_scraper.py:96-149). */
module Contacts {
  import opened Maybe
  import opened Text
  import opened Dedup

  // ---------------------------------------------------------------------------
  // `_is_valid_contact`

  predicate HasNameChar(s: string) { exists k :: 0 <= k < |s| && IsNameChar(s[k]) }

  predicate LocalChar(c: char) { IsAsciiLetter(c) || IsDigit(c) || c in "._%+-" }

  predicate DomainChar(c: char) { IsAsciiLetter(c) || IsDigit(c) || c == '.' || c == '-' }

  /** The shapes of the rejection list, each read as the language of its regex body. */
  datatype Shape = DigitsOnly | Email | Mobile | Landline | NoNameChar

  /** `s` belongs to the language of `shape`. */
  predicate Is(shape: Shape, s: string) {
    match shape
    // \d+
    case DigitsOnly => |s| > 0 && AllDigits(s)
    // [a-zA-Z0-9._%+-]+@[a-zA-Z0-9.-]+\.[a-zA-Z]{2,}
    case Email =>
      exists a, d :: 0 < a && a + 1 < d && d + 3 <= |s| && s[a] == '@' && s[d] == '.'
        && (forall k :: 0 <= k < a ==> LocalChar(s[k]))
        && (forall k :: a < k < d ==> DomainChar(s[k]))
        && (forall k :: d < k < |s| ==> IsAsciiLetter(s[k]))
    // 1[3-9]\d{9}
    case Mobile => |s| == 11 && s[0] == '1' && '3' <= s[1] <= '9' && AllDigits(s[2..])
    // \d{3,4}-\d{7,8}
    case Landline =>
      exists h :: (h == 3 || h == 4) && h < |s| && s[h] == '-' && AllDigits(s[..h])
        && AllDigits(s[h + 1..]) && 7 <= |s| - h - 1 <= 8
    // [^一-龥a-zA-Z]*
    case NoNameChar => !HasNameChar(s)
  }

  /** `re.match('^' + body + '$', s)`: without MULTILINE, `$` also matches just before a
      final newline. */
  predicate FullMatch(shape: Shape, s: string) {
    Is(shape, s) || (|s| > 0 && s[|s| - 1] == '\n' && Is(shape, s[..|s| - 1]))
  }

  const INVALID_SHAPES: seq<Shape> := [DigitsOnly, Email, Mobile, Landline, NoNameChar]

  /** `_is_valid_contact(s)`: the checks in the order the source makes them. */
  predicate IsValidContact(s: string) {
    if s == [] then false
    else if |s| < 2 || |s| > 20 then false
    else if exists shape :: shape in INVALID_SHAPES && FullMatch(shape, s) then false
    else HasNameChar(s)
  }

  /** A name character at `k` rules out the digit-only, mobile and landline languages. */
  lemma NameCharBlocksNumeric(t: string, k: nat)
    requires k < |t| && IsNameChar(t[k])
    ensures !Is(DigitsOnly, t) && !Is(Mobile, t) && !Is(Landline, t)
  {
    if k >= 2 {
      assert t[2..][k - 2] == t[k];
    }
    forall h | (h == 3 || h == 4) && h < |t|
      ensures !(t[h] == '-' && AllDigits(t[..h]) && AllDigits(t[h + 1..]))
    {
      if k < h {
        assert t[..h][k] == t[k];
      } else if k > h {
        assert t[h + 1..][k - h - 1] == t[k];
      }
    }
  }

  /** A name character rules out every shape made of digits, `-` and a final newline. */
  lemma NameCharExcludesNumericShapes(s: string)
    requires HasNameChar(s)
    ensures !FullMatch(DigitsOnly, s) && !FullMatch(Mobile, s) && !FullMatch(Landline, s)
    ensures !FullMatch(NoNameChar, s)
  {
    var k :| 0 <= k < |s| && IsNameChar(s[k]);
    NameCharBlocksNumeric(s, k);
    if s[|s| - 1] == '\n' {
      var t := s[..|s| - 1];
      assert k < |t| && t[k] == s[k];
      NameCharBlocksNumeric(t, k);
    }
  }

  /** What the validator accepts, in one line: two to twenty characters, at least one CJK
      or ASCII letter, and not an e-mail address. The other rejection rules are implied. */
  lemma ValidContactCharacterization(s: string)
    ensures IsValidContact(s) <==> 2 <= |s| <= 20 && HasNameChar(s) && !FullMatch(Email, s)
  {
    if HasNameChar(s) {
      NameCharExcludesNumericShapes(s);
    }
    if 2 <= |s| <= 20 && HasNameChar(s) && FullMatch(Email, s) {
      assert Email in INVALID_SHAPES;
    }
    if !HasNameChar(s) && s != [] && 2 <= |s| <= 20 {
      assert NoNameChar in INVALID_SHAPES && FullMatch(NoNameChar, s);
    }
  }

  lemma NoNewlineNoAnchorSlack(shape: Shape, s: string)
    requires s == [] || s[|s| - 1] != '\n'
    ensures FullMatch(shape, s) == Is(shape, s)
  {
  }

  /** A name is accepted. */
  lemma AcceptsName()
    ensures IsValidContact("张三")
  {
    var s := "张三";
    assert IsNameChar(s[0]);
    assert |s| == 2 && s[1] != '\n';
    ValidContactCharacterization(s);
  }

  /** A bare mobile number is not a contact. */
  lemma RejectsPhoneNumber()
    ensures !IsValidContact("13800138000")
  {
    var s := "13800138000";
    assert !HasNameChar(s) by {
      forall k | 0 <= k < |s|
        ensures !IsNameChar(s[k])
      {
        assert IsDigit(s[k]);
      }
    }
    ValidContactCharacterization(s);
  }

  /** An e-mail address is not a contact, although it has letters. */
  lemma RejectsEmail()
    ensures !IsValidContact("li@abc.cn")
  {
    var s := "li@abc.cn";
    assert Is(Email, s) by {
      assert 0 < 2 && 2 + 1 < 6 && 6 + 3 <= |s| && s[2] == '@' && s[6] == '.';
      assert forall k :: 0 <= k < 2 ==> LocalChar(s[k]);
      assert forall k :: 2 < k < 6 ==> DomainChar(s[k]);
      assert forall k :: 6 < k < |s| ==> IsAsciiLetter(s[k]);
    }
    assert Email in INVALID_SHAPES && FullMatch(Email, s);
  }

  // ---------------------------------------------------------------------------
  // The contact regexes

  /** What follows the keyword: `[：:]\s*` or `\s+`. */
  datatype Anchor = Colon | Blank

  /** `(?:kw1|kw2|...)` anchor `([^\n\r]{1,maxLen})`. */
  datatype ContactPattern = ContactPattern(keywords: seq<string>, anchor: Anchor, maxLen: nat)

  const TITLES: seq<string> := ["联系人", "负责人", "经理", "主管", "主任", "总监"]

  const CONTACT_PATTERNS: seq<ContactPattern> := [
    ContactPattern(TITLES + ["姓名", "名字"], Colon, 15),
    ContactPattern(TITLES, Colon, 20),
    ContactPattern(TITLES, Blank, 15),
    ContactPattern(["姓名"], Colon, 15)
  ]

  /** Every keyword is non-empty and a capture takes at least one character, so every
      match is non-empty. */
  predicate WellFormed(p: ContactPattern) {
    p.maxLen >= 1 && forall k :: 0 <= k < |p.keywords| ==> |p.keywords[k]| > 0
  }

  lemma ContactPatternsWellFormed()
    ensures forall p :: p in CONTACT_PATTERNS ==> WellFormed(p)
  {
  }

  predicate IsLineBreak(c: char) { c == '\n' || c == '\r' }

  /** The largest `s` in `[lo, hi)` at which `[^\n\r]` can start, if any. */
  function LastCaptureStart(text: string, lo: nat, hi: nat): (r: Option<nat>)
    requires lo <= hi <= |text|
    ensures r.Some? ==> lo <= r.value < hi && !IsLineBreak(text[r.value])
    ensures r.Some? ==> forall s :: r.value < s < hi ==> IsLineBreak(text[s])
    ensures r.None? ==> forall s :: lo <= s < hi ==> IsLineBreak(text[s])
    decreases hi - lo
  {
    if lo == hi then None
    else if !IsLineBreak(text[hi - 1]) then Some(hi - 1)
    else LastCaptureStart(text, lo, hi - 1)
  }

  /** How many characters the greedy `[^\n\r]{1,n}` takes at `s`. */
  function CaptureLength(text: string, s: nat, n: nat): (len: nat)
    requires s <= |text|
    ensures s + len <= |text| && len <= n
    ensures forall k :: s <= k < s + len ==> !IsLineBreak(text[k])
    ensures len == n || s + len == |text| || IsLineBreak(text[s + len])
    decreases n
  {
    if n == 0 || s == |text| || IsLineBreak(text[s]) then 0
    else 1 + CaptureLength(text, s + 1, n - 1)
  }

  /** The rest of the regex after a keyword ending at `j`: the anchor, the greedy `\s*` or
      `\s+` (given back one character at a time while the capture cannot start), and the
      capture. The result is the captured span. */
  function Tail(p: ContactPattern, text: string, j: nat): (r: Option<(nat, nat)>)
    requires j <= |text|
    ensures r.Some? ==> j <= r.value.0 <= r.value.1 <= |text|
    ensures r.Some? && p.maxLen >= 1 ==> r.value.0 < r.value.1
  {
    var k := if p.anchor == Blank then j
      else if j < |text| && (text[j] == '：' || text[j] == ':') then j + 1
      else |text| + 1;
    if k > |text| then None
    else
      var w := SpaceRun(text, k);
      var minSpaces := if p.anchor == Blank then 1 else 0;
      if w < minSpaces then None
      else
        var hi := if k + w < |text| then k + w + 1 else |text|;
        var s := LastCaptureStart(text, k + minSpaces, hi);
        if s.None? then None
        else Some((s.value, s.value + CaptureLength(text, s.value, p.maxLen)))
  }

  /** The alternation of keywords at `i`, tried in order: where the first keyword whose
      tail matches ends. A keyword whose tail fails falls through to the next one. */
  function KeywordEnd(keywords: seq<string>, p: ContactPattern, text: string, i: nat): (r: Option<nat>)
    requires i <= |text|
    requires forall k :: 0 <= k < |keywords| ==> |keywords[k]| > 0
    ensures r.Some? ==> i < r.value <= |text|
    decreases |keywords|
  {
    if keywords == [] then None
    else if OccursAt(keywords[0], text, i) && Tail(p, text, i + |keywords[0]|).Some? then
      Some(i + |keywords[0]|)
    else KeywordEnd(keywords[1..], p, text, i)
  }

  /** A match of `p` at `i`: the span of its group. */
  function ContactMatchAt(p: ContactPattern, text: string, i: nat): (r: Option<(nat, nat)>)
    requires i <= |text|
    requires WellFormed(p)
    ensures r.Some? ==> i < r.value.0 < r.value.1 <= |text|
  {
    var j := KeywordEnd(p.keywords, p, text, i);
    if j.None? then None else Tail(p, text, j.value)
  }

  /** `re.findall(p, text[i:])`: the captured groups, left to right, non-overlapping. */
  function ContactMatchesFrom(p: ContactPattern, text: string, i: nat): seq<string>
    requires i <= |text|
    requires WellFormed(p)
    decreases |text| - i
  {
    if i == |text| then []
    else
      var m := ContactMatchAt(p, text, i);
      if m.Some? then [text[m.value.0..m.value.1]] + ContactMatchesFrom(p, text, m.value.1)
      else ContactMatchesFrom(p, text, i + 1)
  }

  function ContactFindAll(p: ContactPattern, text: string): seq<string>
    requires WellFormed(p)
  {
    ContactMatchesFrom(p, text, 0)
  }

  predicate NoLineBreak(s: string) { forall k :: 0 <= k < |s| ==> !IsLineBreak(s[k]) }

  /** Every captured group is one to `maxLen` characters of a single line. */
  lemma {:induction false} CapturesAreShortLines(p: ContactPattern, text: string, i: nat, m: string)
    requires i <= |text| && WellFormed(p) && m in ContactMatchesFrom(p, text, i)
    ensures 1 <= |m| <= p.maxLen && NoLineBreak(m)
    decreases |text| - i
  {
    var r := ContactMatchAt(p, text, i);
    if r.Some? && m == text[r.value.0..r.value.1] {
      var s := TailStart(p, text, KeywordEnd(p.keywords, p, text, i).value);
      CaptureSpan(text, s, p.maxLen);
    } else if r.Some? {
      CapturesAreShortLines(p, text, r.value.1, m);
    } else {
      CapturesAreShortLines(p, text, i + 1, m);
    }
  }

  /** What a tail captures starts somewhere and runs for the greedy capture length. */
  lemma TailStart(p: ContactPattern, text: string, j: nat) returns (s: nat)
    requires j <= |text| && Tail(p, text, j).Some?
    ensures s <= |text| && Tail(p, text, j) == Some((s, s + CaptureLength(text, s, p.maxLen)))
  {
    s := Tail(p, text, j).value.0;
  }

  /** The greedy capture at `s` is at most `n` characters of one line. */
  lemma CaptureSpan(text: string, s: nat, n: nat)
    requires s <= |text|
    ensures CaptureLength(text, s, n) <= n
    ensures NoLineBreak(text[s..s + CaptureLength(text, s, n)])
  {
    var e := s + CaptureLength(text, s, n);
    assert forall k :: 0 <= k < e - s ==> text[s..e][k] == text[s + k];
  }

  // ---------------------------------------------------------------------------
  // `extract_contacts`

  /** The stripped captures that pass the validator, in match order. */
  function KeptContacts(ms: seq<string>): (r: seq<string>)
    ensures forall c :: c in r ==> IsValidContact(c) && Trimmed(c)
  {
    if ms == [] then []
    else
      var c := Strip(ms[|ms| - 1]);
      KeptContacts(ms[..|ms| - 1]) + (if IsValidContact(c) then [c] else [])
  }

  /** The list `contacts` holds after the loops over the patterns and their matches. */
  function ContactCandidates(patterns: seq<ContactPattern>, text: string): (r: seq<string>)
    requires forall p :: p in patterns ==> WellFormed(p)
    ensures forall c :: c in r ==> IsValidContact(c) && Trimmed(c)
  {
    if patterns == [] then []
    else
      ContactCandidates(patterns[..|patterns| - 1], text)
        + KeptContacts(ContactFindAll(patterns[|patterns| - 1], text))
  }

  /** What `extract_contacts` returns: `list(set(contacts))`. */
  function ContactsOf(text: string): seq<string> {
    ContactPatternsWellFormed();
    Distinct(ContactCandidates(CONTACT_PATTERNS, text))
  }

  lemma {:induction false} KeptContactsFrom(ms: seq<string>, c: string)
    requires c in KeptContacts(ms)
    ensures exists m :: m in ms && c == Strip(m)
  {
    var init := ms[..|ms| - 1];
    if c in KeptContacts(init) {
      KeptContactsFrom(init, c);
      var m :| m in init && c == Strip(m);
      assert m in ms;
    } else {
      assert ms[|ms| - 1] in ms;
    }
  }

  lemma {:induction false} ContactCandidatesFrom(patterns: seq<ContactPattern>, text: string, c: string)
    requires forall p :: p in patterns ==> WellFormed(p)
    requires c in ContactCandidates(patterns, text)
    ensures exists p, m :: p in patterns && WellFormed(p) && m in ContactFindAll(p, text) && c == Strip(m)
  {
    var init := patterns[..|patterns| - 1];
    var last := patterns[|patterns| - 1];
    assert forall p :: p in init ==> p in patterns;
    if c in ContactCandidates(init, text) {
      ContactCandidatesFrom(init, text, c);
    } else {
      KeptContactsFrom(ContactFindAll(last, text), c);
    }
  }

  lemma StripKeepsNoLineBreak(m: string)
    requires NoLineBreak(m)
    ensures NoLineBreak(Strip(m)) && |Strip(m)| <= |m|
  {
    var i, j :| 0 <= i <= j <= |m| && Strip(m) == m[i..j] && AllSpace(m[..i]) && AllSpace(m[j..]);
    assert forall k :: 0 <= k < j - i ==> m[i..j][k] == m[i + k];
  }

  /** A returned contact never spans a line and is never longer than the longest capture. */
  lemma ContactsAreSingleLines(text: string, c: string)
    requires c in ContactsOf(text)
    ensures NoLineBreak(c) && 2 <= |c| <= 20
  {
    ContactPatternsWellFormed();
    ContactCandidatesFrom(CONTACT_PATTERNS, text, c);
    var p, m :| p in CONTACT_PATTERNS && WellFormed(p) && m in ContactFindAll(p, text) && c == Strip(m);
    CapturesAreShortLines(p, text, 0, m);
    StripKeepsNoLineBreak(m);
    ValidContactCharacterization(c);
  }

  lemma {:induction false} ContactCandidatesInclude(patterns: seq<ContactPattern>, text: string, p: ContactPattern, c: string)
    requires forall q :: q in patterns ==> WellFormed(q)
    requires p in patterns && c in KeptContacts(ContactFindAll(p, text))
    ensures c in ContactCandidates(patterns, text)
  {
    var init := patterns[..|patterns| - 1];
    if p != patterns[|patterns| - 1] {
      var k :| 0 <= k < |patterns| && patterns[k] == p;
      assert init[k] == p;
      assert forall q :: q in init ==> q in patterns;
      ContactCandidatesInclude(init, text, p, c);
    }
  }

  /** `联系人：张三` yields the contact `张三`. */
  lemma FindsLabelledName()
    ensures "张三" in ContactsOf("联系人：张三")
  {
    var text := "联系人：张三";
    var p := CONTACT_PATTERNS[0];
    ContactPatternsWellFormed();
    assert OccursAt("联系人", text, 0) by {
      assert text[0..3] == "联系人";
    }
    assert SpaceRun(text, 4) == 0 by {
      assert !IsSpace(text[4]);
    }
    assert LastCaptureStart(text, 4, 5) == Some(4);
    assert CaptureLength(text, 4, 15) == 2 by {
      assert CaptureLength(text, 6, 13) == 0;
    }
    assert Tail(p, text, 3) == Some((4, 6));
    assert ContactMatchAt(p, text, 0) == Some((4, 6));
    assert text[4..6] == "张三";
    assert ContactFindAll(p, text)[0] == "张三";
    StripTrimmed("张三");
    AcceptsName();
    assert KeptContacts(["张三"]) == ["张三"];
    assert ContactFindAll(p, text)[..1] == ["张三"];
    KeptContactsPrefix(ContactFindAll(p, text), 1, "张三");
    ContactCandidatesInclude(CONTACT_PATTERNS, text, p, "张三");
  }

  /** A contact kept from a prefix of the matches is kept from all of them. */
  lemma {:induction false} KeptContactsPrefix(ms: seq<string>, n: nat, c: string)
    requires n <= |ms| && c in KeptContacts(ms[..n])
    ensures c in KeptContacts(ms)
    decreases |ms| - n
  {
    if n < |ms| {
      var ms' := ms[..|ms| - 1];
      assert ms'[..n] == ms[..n];
      KeptContactsPrefix(ms', n, c);
    } else {
      assert ms[..n] == ms;
    }
  }

  /** `KeptContacts` unfolded at the prefix ending with index `j`. */
  lemma KeptContactsAt(ms: seq<string>, j: nat)
    requires j < |ms|
    ensures KeptContacts(ms[..j + 1])
      == KeptContacts(ms[..j]) + (if IsValidContact(Strip(ms[j])) then [Strip(ms[j])] else [])
  {
    assert ms[..j + 1][..j] == ms[..j];
  }

  /** The inner loop of `extract_contacts` over the matches of one pattern. */
  method KeepContacts(matches: seq<string>) returns (kept: seq<string>)
    ensures kept == KeptContacts(matches)
  {
    kept := [];
    for j := 0 to |matches|
      invariant kept == KeptContacts(matches[..j])
    {
      KeptContactsAt(matches, j);
      var contact := Strip(matches[j]);
      if IsValidContact(contact) {
        kept := kept + [contact];
      }
    }
    assert matches[..|matches|] == matches;
  }

  /** The outer loop of `extract_contacts` over the pattern list. */
  method CollectContacts(patterns: seq<ContactPattern>, text: string) returns (found: seq<string>)
    requires forall p :: p in patterns ==> WellFormed(p)
    ensures found == ContactCandidates(patterns, text)
  {
    found := [];
    for i := 0 to |patterns|
      invariant found == ContactCandidates(patterns[..i], text)
    {
      assert forall p :: p in patterns[..i + 1] ==> p in patterns;
      var kept := KeepContacts(ContactFindAll(patterns[i], text));
      found := found + kept;
      assert patterns[..i + 1][..i] == patterns[..i];
    }
    assert patterns[..|patterns|] == patterns;
  }

  method ExtractContacts(text: string) returns (contacts: seq<string>)
    ensures contacts == ContactsOf(text)
    ensures NoDup(contacts)
    ensures forall c :: c in contacts ==> IsValidContact(c) && Trimmed(c)
  {
    ContactPatternsWellFormed();
    var found := CollectContacts(CONTACT_PATTERNS, text);
    contacts := Distinct(found);
  }
}
