/** Two ways of writing a mobile number that the pattern list as written misses and the
    corrected list finds: after `+86` with no gap, and split 3-4-4 by single blanks. */
module PhoneFindings {
  import opened Maybe
  import opened Text
  import opened Dedup
  import opened Phones

  /** `+86` directly followed by `1[3-9]` and nine more digits. */
  predicate CountryCoded(t: string) {
    && |t| == 14 && t[0] == '+' && t[1] == '8' && t[2] == '6'
    && t[3] == '1' && '3' <= t[4] <= '9' && DigitsAt(t, 5, 9)
  }

  /** `1[3-9]\d dddd dddd`: a mobile number grouped 3-4-4 by single blanks. */
  predicate SpacedMobile(t: string) {
    && |t| == 13 && t[0] == '1' && '3' <= t[1] <= '9' && IsDigit(t[2])
    && t[3] == ' ' && DigitsAt(t, 4, 4) && t[8] == ' ' && DigitsAt(t, 9, 4)
  }

  const WITH_COUNTRY_CODE := "+8613800138000"
  const SPACED_NUMBER := "138 0013 8000"

  lemma CountryCodeExample()
    ensures CountryCoded(WITH_COUNTRY_CODE)
    ensures WITH_COUNTRY_CODE[3..14] == "13800138000"
  {
    assert WITH_COUNTRY_CODE[5..14] == "800138000";
  }

  lemma SpacedExample()
    ensures SpacedMobile(SPACED_NUMBER)
  {
    assert SPACED_NUMBER[4..8] == "0013";
    assert SPACED_NUMBER[9..13] == "8000";
  }

  /** No listed extension occurs in a string without a dot. */
  lemma NoDotNoExtension(s: string)
    requires forall k :: 0 <= k < |s| ==> s[k] != '.'
    ensures forall e :: e in FILE_EXTENSIONS ==> !Contains(LowerAscii(s), e)
  {
    forall e, p: nat | e in FILE_EXTENSIONS
      ensures !OccursAt(e, LowerAscii(s), p)
    {
      if p + |e| <= |LowerAscii(s)| {
        assert e[0] == '.';
        assert LowerAscii(s)[p..p + |e|][0] == LowerChar(s[p]) != '.';
      }
    }
  }

  /** A whitespace character followed by a non-whitespace one is a run of length 1. */
  lemma SingleSpaceRun(t: string, j: nat)
    requires j + 1 < |t| && IsSpace(t[j]) && !IsSpace(t[j + 1])
    ensures SpaceRun(t, j) == 1
  {
    assert t[j..][0] == t[j];
    assert t[j..][1..][0] == t[j + 1];
  }

  // ---------------------------------------------------------------------------
  // `+86` followed by the number

  /** The plain pattern is blocked by the digit `6` of `+86` before the `1`, and by the
      length everywhere after it. */
  lemma CountryCodePlainFindsNothing(t: string)
    requires CountryCoded(t)
    ensures FindAll(PLAIN, t) == []
  {
    forall j: nat | j < |t|
      ensures MatchAt(PLAIN, t, j).None?
    {
      if j < 3 {
        assert t[j] != '1';
      } else if j == 3 {
        assert IsDigit(t[2]);
      } else {
        assert [9][0] == 9;
        assert !DigitsAt(t, j + 2, 9);
      }
    }
    NoMatchesFrom(PLAIN, t, 0);
  }

  /** As written, a number after `+86` yields no phone number at all. */
  lemma CountryCodeMissedAsWritten(t: string)
    requires CountryCoded(t)
    ensures PhoneNumbers(PHONE_PATTERNS, t) == []
  {
    AsWrittenOnlyPlainCounts(t);
    CountryCodePlainFindsNothing(t);
  }

  /** `+86` directly followed by eleven digits matches the corrected `+86` pattern, which
      returns the eleven digits. */
  lemma CountryShapeMatches(t: string)
    requires CountryCoded(t)
    ensures MatchAt(FIXED_PHONE_PATTERNS[1], t, 0) == Some((3, 14))
  {
    var p := FIXED_PHONE_PATTERNS[1];
    assert p == PhonePattern("+86", true, [9], Joined, true);
    assert t[0..3] == [t[0], t[1], t[2]];
    assert SpaceRun(t, 3) == 0;
    assert NumberStart(p, t, 0) == 3;
    assert [9][1..] == [];
    assert GroupsEnd(t, 5, [9], Joined, true) == Some(14);
    assert NumberEnd(p, t, 3) == Some(14);
  }

  lemma CountryNumberDigits(t: string)
    requires CountryCoded(t)
    ensures AllDigits(t[3..14])
  {
    forall k | 0 <= k < 11
      ensures IsDigit(t[3..14][k])
    {
      if k >= 2 {
        assert t[5..14][k - 2] == t[3 + k];
      }
    }
  }

  /** The number first occurs right after the code, with no extension around it and no
      digit after it. */
  lemma CountryNumberNotFilename(t: string)
    requires CountryCoded(t)
    ensures !IsFilenamePart(t[3..14], t)
  {
    var n := t[3..14];
    forall q: nat | q < 3
      ensures !OccursAt(n, t, q)
    {
      assert t[q..q + 11][0] == t[q] != n[0];
    }
    forall k | 0 <= k < 14
      ensures t[0..14][k] != '.'
    {
      if k >= 5 {
        assert t[5..14][k - 5] == t[k];
      }
    }
    NoDotNoExtension(t[0..14]);
    FilenamePartAtFirstOccurrence(n, t, 3);
  }

  /** With the number captured after `+86`, the same text yields the eleven digits. */
  lemma CountryCodeFoundWhenFixed(t: string)
    requires CountryCoded(t)
    ensures t[3..14] in PhoneNumbers(FIXED_PHONE_PATTERNS, t)
  {
    var p := FIXED_PHONE_PATTERNS[1];
    var n := t[3..14];
    CountryShapeMatches(t);
    MatchesFromHead(p, t, 0);
    CountryNumberDigits(t);
    CleanPhoneOfDigits(n);
    CountryNumberNotFilename(t);
    KeptMembers(FindAll(p, t), t, n);
    CandidatesInclude(FIXED_PHONE_PATTERNS, t, p, n);
  }

  // ---------------------------------------------------------------------------
  // A number grouped 3-4-4 by blanks

  /** The plain pattern needs eleven digits in a row; the blanks break every window. */
  lemma SpacedPlainFindsNothing(t: string)
    requires SpacedMobile(t)
    ensures FindAll(PLAIN, t) == []
  {
    forall j: nat | j < |t|
      ensures MatchAt(PLAIN, t, j).None?
    {
      assert [9][0] == 9;
      if j < 2 {
        assert t[j + 2..j + 11][1 - j] == t[3];
      } else if j == 2 {
        assert t[4..13][4] == t[8];
      }
      assert !DigitsAt(t, j + 2, 9);
    }
    NoMatchesFrom(PLAIN, t, 0);
  }

  /** As written, a number grouped 3-4-4 by blanks yields no phone number at all. */
  lemma SpacedMissedAsWritten(t: string)
    requires SpacedMobile(t)
    ensures PhoneNumbers(PHONE_PATTERNS, t) == []
  {
    AsWrittenOnlyPlainCounts(t);
    SpacedPlainFindsNothing(t);
  }

  /** A 3-4-4 number split by single blanks matches the corrected spaced pattern. */
  lemma SpacedShapeMatches(t: string)
    requires SpacedMobile(t)
    ensures MatchAt(FIXED_PHONE_PATTERNS[3], t, 0) == Some((0, 13))
  {
    var p := FIXED_PHONE_PATTERNS[3];
    assert p == PhonePattern("", false, [1, 4, 4], Blanks, false);
    SingleSpaceRun(t, 3);
    SingleSpaceRun(t, 8);
    assert t[2..3][0] == t[2];
    assert [1, 4, 4][1..] == [4, 4] && [4, 4][1..] == [4] && [4][1..] == [];
    assert GroupsEnd(t, 8, [4], Blanks, false) == Some(13);
    assert GroupsEnd(t, 3, [4, 4], Blanks, false) == Some(13);
    assert GroupsEnd(t, 2, [1, 4, 4], Blanks, true) == Some(13);
    assert NumberStart(p, t, 0) == 0;
    assert NumberEnd(p, t, 0) == Some(13);
    assert t[0..0] == p.prefix;
  }

  /** A digit group followed by one dropped character cleans to the group and what follows. */
  lemma CleanGroupThenRest(t: string, a: nat, b: nat, c: nat)
    requires a <= b < c <= |t| && AllDigits(t[a..b]) && Dropped(t[b])
    ensures CleanPhone(t[a..c]) == t[a..b] + CleanPhone(t[b + 1..c])
  {
    CleanSplit(t, a, b, c);
    CleanSplit(t, b, b + 1, c);
    CleanPhoneOfDigits(t[a..b]);
    CleanPhoneOfDropped(t[b..b + 1]);
  }

  /** The grouped number cleans to its eleven digits. */
  lemma SpacedCleans(t: string)
    requires SpacedMobile(t)
    ensures CleanPhone(t) == t[0..3] + t[4..8] + t[9..13]
  {
    assert t[0..3] == [t[0], t[1], t[2]];
    CleanGroupThenRest(t, 0, 3, 13);
    CleanGroupThenRest(t, 4, 8, 13);
    CleanPhoneOfDigits(t[9..13]);
    assert t[0..13] == t;
  }

  /** The cleaned number never occurs literally in the grouped text. */
  lemma SpacedNotFilename(t: string, n: string)
    requires SpacedMobile(t) && n == t[0..3] + t[4..8] + t[9..13]
    ensures !IsFilenamePart(n, t)
  {
    assert n[1] == t[1] && n[2] == t[2] && n[3] == t[4];
    assert t[4..8][0] == t[4];
    forall q: nat | q + 11 <= |t|
      ensures !OccursAt(n, t, q)
    {
      assert t[q..q + 11][3 - q] == t[3];
    }
    AbsentIsNotFilename(n, t);
  }

  /** Grouped 3-4-4, the same text yields its eleven digits. */
  lemma SpacedFoundWhenFixed(t: string)
    requires SpacedMobile(t)
    ensures t[0..3] + t[4..8] + t[9..13] in PhoneNumbers(FIXED_PHONE_PATTERNS, t)
  {
    var p := FIXED_PHONE_PATTERNS[3];
    var n := t[0..3] + t[4..8] + t[9..13];
    SpacedShapeMatches(t);
    MatchesFromHead(p, t, 0);
    assert t[0..13] == t;
    SpacedCleans(t);
    assert n[0] == '1';
    SpacedNotFilename(t, n);
    KeptMembers(FindAll(p, t), t, n);
    CandidatesInclude(FIXED_PHONE_PATTERNS, t, p, n);
  }
}
