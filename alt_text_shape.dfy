/** The form of every normalised name: separators, spacing and letter case. */
module AltTextShape {
  import opened Text
  import opened PathInfo
  import opened AltText

  lemma LowerKeepsOtherChars(s: string, c: char)
    requires !IsUpper(c) && !IsLower(c)
    ensures c in ToLower(s) ==> c in s
    ensures c in UcWords(s) ==> c in s
  {
    if c in ToLower(s) {
      var i :| 0 <= i < |s| && ToLower(s)[i] == c;
      assert s[i] == c;
    }
    if c in UcWords(s) {
      var i :| 0 <= i < |s| && UcWords(s)[i] == c;
      assert s[i] == c;
    }
  }

  /** The normalised name contains no '-' and no '_'. */
  lemma {:induction false} AltTextHasNoDashOrUnderscore(filename: string)
    ensures '-' !in GenerateAltText(filename) && '_' !in GenerateAltText(filename)
  {
    var spaced := DashesToSpaces(Stem(filename));
    var trimmed := Trim(CollapseWhitespace(StripLogo(spaced)));
    assert '-' !in spaced && '_' !in spaced;
    LowerKeepsOtherChars(trimmed, '-');
    LowerKeepsOtherChars(trimmed, '_');
    LowerKeepsOtherChars(ToLower(trimmed), '-');
    LowerKeepsOtherChars(ToLower(trimmed), '_');
  }

  /** Changing letter case keeps the spacing and the ends of a trimmed, single-spaced name. */
  lemma CaseKeepsSpacing(t: string)
    requires SingleSpaced(t)
    requires t != [] ==> !IsTrimmable(t[0]) && !IsTrimmable(t[|t| - 1])
    ensures var r := UcWords(ToLower(t));
      && SingleSpaced(r)
      && (r != [] ==> !IsTrimmable(r[0]) && !IsTrimmable(r[|r| - 1]))
      && forall i :: 0 <= i < |r| ==> (r[i] == ' ' <==> t[i] == ' ')
  {
    var lower := ToLower(t);
    var r := UcWords(lower);
    forall i | 0 <= i < |t|
      ensures r[i] == ' ' <==> t[i] == ' '
      ensures IsSpace(r[i]) <==> IsSpace(t[i])
      ensures IsTrimmable(r[i]) <==> IsTrimmable(t[i])
    {
      CaseKeepsNonLetters(t[i]);
      assert lower[i] == LowerChar(t[i]);
    }
  }

  lemma CaseKeepsNonLetters(c: char)
    ensures var l := LowerChar(c);
      && (l == ' ' <==> c == ' ') && (UpperChar(l) == ' ' <==> c == ' ')
      && (IsSpace(l) <==> IsSpace(c)) && (IsSpace(UpperChar(l)) <==> IsSpace(c))
      && (IsTrimmable(l) <==> IsTrimmable(c)) && (IsTrimmable(UpperChar(l)) <==> IsTrimmable(c))
  {
  }

  /**
   * The normalised name has no white space but single spaces between
   * words, and neither starts nor ends with a character trim removes.
   */
  lemma {:induction false} AltTextIsSingleSpacedAndTrimmed(filename: string)
    ensures var r := GenerateAltText(filename);
      && SingleSpaced(r)
      && (r != [] ==> !IsTrimmable(r[0]) && !IsTrimmable(r[|r| - 1]))
  {
    var trimmed := Trim(CollapseWhitespace(StripLogo(DashesToSpaces(Stem(filename)))));
    CaseKeepsSpacing(trimmed);
  }

  lemma CaseOfSpace(c: char)
    ensures UpperChar(c) == ' ' <==> c == ' '
    ensures LowerChar(c) == ' ' <==> c == ' '
  {
  }

  lemma UcWordsOfLowerIsTitleCasedAt(t: string, i: int)
    requires SingleSpaced(t)
    requires 0 <= i < |t|
    ensures var r := UcWords(ToLower(t));
      if i == 0 || r[i - 1] == ' ' then !IsLower(r[i]) else !IsUpper(r[i])
  {
    var lower := ToLower(t);
    var r := UcWords(lower);
    var l := LowerChar(t[i]);
    assert lower[i] == l;
    assert !IsUpper(l) && !IsLower(UpperChar(l));
    if i > 0 {
      var c := t[i - 1];
      var d := LowerChar(c);
      assert lower[i - 1] == d;
      assert IsSpace(c) ==> c == ' ';
      assert r[i] == if IsUcwordsDelimiter(d) then UpperChar(l) else l;
      assert IsUcwordsDelimiter(d) ==> c == ' ';
      assert r[i - 1] == d || r[i - 1] == UpperChar(d);
      CaseOfSpace(d);
      CaseOfSpace(c);
    }
  }

  lemma UcWordsOfLowerIsTitleCased(t: string)
    requires SingleSpaced(t)
    ensures var r := UcWords(ToLower(t));
      forall i :: 0 <= i < |r| ==>
        if i == 0 || r[i - 1] == ' ' then !IsLower(r[i]) else !IsUpper(r[i])
  {
    forall i | 0 <= i < |t| {
      UcWordsOfLowerIsTitleCasedAt(t, i);
    }
  }

  /**
   * Every space-separated word of the normalised name starts with a
   * character that is not a lower-case letter and continues with no
   * upper-case letter.
   */
  lemma AltTextIsTitleCased(filename: string)
    ensures var r := GenerateAltText(filename);
      forall i :: 0 <= i < |r| ==>
        if i == 0 || r[i - 1] == ' ' then !IsLower(r[i]) else !IsUpper(r[i])
  {
    var trimmed := Trim(CollapseWhitespace(StripLogo(DashesToSpaces(Stem(filename)))));
    UcWordsOfLowerIsTitleCased(trimmed);
  }
}
