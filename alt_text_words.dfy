/**
 * What the normaliser keeps of a filename: its words. A word is a maximal
 * run of word characters, the unit that \b delimits.
 */
module AltTextWords {
  import opened Text
  import opened PathInfo
  import opened AltText

  function Flush(cur: string): seq<string>
  {
    if cur == [] then [] else [cur]
  }

  /** The words of s, given that cur is the part of a word already read. */
  function WordsFrom(s: string, cur: string): seq<string>
    decreases |s|
  {
    if s == [] then Flush(cur)
    else if IsWordChar(s[0]) then WordsFrom(s[1..], cur + [s[0]])
    else Flush(cur) + WordsFrom(s[1..], [])
  }

  function Words(s: string): seq<string>
  {
    WordsFrom(s, [])
  }

  /** The words without those that spell "logo" in any case. */
  function DropLogos(ws: seq<string>): (r: seq<string>)
    ensures forall w :: w in r ==> w in ws && !IsLogo(w)
  {
    if ws == [] then []
    else (if IsLogo(ws[0]) then [] else [ws[0]]) + DropLogos(ws[1..])
  }

  function LowerAll(ws: seq<string>): seq<string>
  {
    seq(|ws|, i requires 0 <= i < |ws| => ToLower(ws[i]))
  }

  /** A whole-word match of /\blogo\b/i at position i of s. */
  predicate WholeWordLogoAt(s: string, i: int)
  {
    && 0 <= i && i + 4 <= |s|
    && IsLogo(s[i..i + 4])
    && (i == 0 || !IsWordChar(s[i - 1]))
    && (i + 4 == |s| || !IsWordChar(s[i + 4]))
  }

  // ---- Words under the normaliser's steps ----

  lemma {:induction false} WordsFromLower(s: string, cur: string)
    ensures WordsFrom(ToLower(s), ToLower(cur)) == LowerAll(WordsFrom(s, cur))
    decreases |s|
  {
    var ls := ToLower(s);
    if s == [] {
      assert ls == [];
    } else {
      assert ls[1..] == ToLower(s[1..]);
      if IsWordChar(s[0]) {
        assert ToLower(cur) + [ls[0]] == ToLower(cur + [s[0]]);
        WordsFromLower(s[1..], cur + [s[0]]);
      } else {
        assert ToLower([]) == [];
        WordsFromLower(s[1..], []);
        assert Flush(ToLower(cur)) == LowerAll(Flush(cur));
        assert LowerAll(Flush(cur) + WordsFrom(s[1..], []))
            == LowerAll(Flush(cur)) + LowerAll(WordsFrom(s[1..], []));
      }
    }
  }

  /** Two strings that agree on their word characters and where they are have the same words. */
  lemma {:induction false} WordsFromSameShape(s: string, t: string, cur: string)
    requires |s| == |t|
    requires forall i :: 0 <= i < |s| ==> IsWordChar(s[i]) == IsWordChar(t[i])
    requires forall i :: 0 <= i < |s| && IsWordChar(s[i]) ==> s[i] == t[i]
    ensures WordsFrom(s, cur) == WordsFrom(t, cur)
    decreases |s|
  {
    if s != [] {
      if IsWordChar(s[0]) {
        WordsFromSameShape(s[1..], t[1..], cur + [s[0]]);
      } else {
        WordsFromSameShape(s[1..], t[1..], []);
      }
    }
  }

  lemma {:induction false} WordsFromWordPrefix(w: string, t: string, cur: string)
    requires forall i :: 0 <= i < |w| ==> IsWordChar(w[i])
    ensures WordsFrom(w + t, cur) == WordsFrom(t, cur + w)
    decreases |w|
  {
    if w == [] {
      assert w + t == t;
      assert cur + w == cur;
    } else {
      assert (w + t)[1..] == w[1..] + t;
      assert cur + [w[0]] + w[1..] == cur + w;
      WordsFromWordPrefix(w[1..], t, cur + [w[0]]);
    }
  }

  lemma WordsFromNonWordHead(c: char, x: string, cur: string)
    requires !IsWordChar(c)
    ensures WordsFrom([c] + x, cur) == Flush(cur) + WordsFrom(x, [])
  {
    assert ([c] + x)[0] == c;
    assert ([c] + x)[1..] == x;
  }

  lemma {:induction false} WordsSkipNonWord(s: string, k: nat)
    requires k <= |s|
    requires forall i :: 0 <= i < k ==> !IsWordChar(s[i])
    ensures WordsFrom(s, []) == WordsFrom(s[k..], [])
    decreases k
  {
    if k > 0 {
      WordsSkipNonWord(s[1..], k - 1);
      assert s[1..][k - 1..] == s[k..];
    }
  }

  lemma {:induction false} WordsDropNonWordSuffix(s: string, m: nat, cur: string)
    requires m <= |s|
    requires forall i :: m <= i < |s| ==> !IsWordChar(s[i])
    ensures WordsFrom(s[..m], cur) == WordsFrom(s, cur)
    decreases |s|
  {
    if m == 0 {
      if s != [] {
        WordsSkipNonWord(s[1..], |s| - 1);
        assert s[1..][|s| - 1..] == [];
      }
    } else {
      assert s[..m][1..] == s[1..][..m - 1];
      if IsWordChar(s[0]) {
        WordsDropNonWordSuffix(s[1..], m - 1, cur + [s[0]]);
      } else {
        WordsDropNonWordSuffix(s[1..], m - 1, []);
      }
    }
  }

  lemma WordsOfDashesToSpaces(s: string)
    ensures Words(DashesToSpaces(s)) == Words(s)
  {
    WordsFromSameShape(DashesToSpaces(s), s, []);
  }

  /** The step of WordsOfStripLogo for a string that starts with a non-word character. */
  lemma {:induction false} StripLogoNonWordHead(s: string)
    requires s != [] && !IsWordChar(s[0])
    requires Words(StripLogo(s[1..])) == DropLogos(Words(s[1..]))
    ensures Words(StripLogo(s)) == DropLogos(Words(s))
  {
    var x := StripLogo(s[1..]);
    assert StripLogo(s) == [s[0]] + x;
    WordsFromNonWordHead(s[0], x, []);
    assert s == [s[0]] + s[1..];
    WordsFromNonWordHead(s[0], s[1..], []);
    assert Flush([]) == [];
    assert Words(StripLogo(s)) == Words(x);
    assert Words(s) == Words(s[1..]);
  }

  /** The step of WordsOfStripLogo for a string that is one word. */
  lemma {:induction false} StripLogoWholeWord(s: string)
    requires s != [] && WordRun(s) == |s|
    ensures Words(StripLogo(s)) == DropLogos(Words(s))
  {
    var n := WordRun(s);
    assert s[..n] == s && s[n..] == [];
    WordsFromWordPrefix(s, [], []);
    assert s + [] == s && [] + s == s;
    assert WordsFrom([], s) == [s];
    assert Words(s) == [s];
    var p := if IsLogo(s) then [] else s;
    assert StripLogo(s) == p + [];
    if !IsLogo(s) {
      assert StripLogo(s) == s;
    } else {
      assert StripLogo(s) == [];
    }
    assert DropLogos([s]) == (if IsLogo(s) then [] else [s]) + DropLogos([]);
  }

  /** The step of WordsOfStripLogo for a word followed by a non-word character and more. */
  lemma {:induction false} StripLogoWordThenMore(s: string)
    requires s != [] && IsWordChar(s[0]) && WordRun(s) < |s|
    requires Words(StripLogo(s[WordRun(s) + 1..])) == DropLogos(Words(s[WordRun(s) + 1..]))
    ensures Words(StripLogo(s)) == DropLogos(Words(s))
  {
    var n := WordRun(s);
    var w, t := s[..n], s[n..];
    assert s == w + t;
    assert t[1..] == s[n + 1..];
    WordsFromWordPrefix(w, t, []);
    var p := if IsLogo(w) then [] else w;
    var x := StripLogo(t[1..]);
    assert StripLogo(t) == [t[0]] + x;
    assert StripLogo(s) == p + ([t[0]] + x);
    assert Flush([]) == [] && Flush(w) == [w] && [] + w == w;
    WordsFromNonWordHead(t[0], x, []);
    if !IsLogo(w) {
      WordsFromWordPrefix(w, [t[0]] + x, []);
      WordsFromNonWordHead(t[0], x, w);
    } else {
      assert p + ([t[0]] + x) == [t[0]] + x;
    }
    assert t == [t[0]] + t[1..];
    WordsFromNonWordHead(t[0], t[1..], w);
    assert Words(StripLogo(s)) == (if IsLogo(w) then [] else [w]) + Words(x);
    assert Words(s) == [w] + Words(t[1..]);
    assert DropLogos([w] + Words(t[1..])) == (if IsLogo(w) then [] else [w]) + DropLogos(Words(t[1..])) by {
      assert ([w] + Words(t[1..]))[1..] == Words(t[1..]);
    }
  }

  /** Removing whole-word logos removes exactly the words that spell "logo". */
  lemma {:induction false} WordsOfStripLogo(s: string)
    ensures Words(StripLogo(s)) == DropLogos(Words(s))
    decreases |s|
  {
    if s == [] {
    } else if !IsWordChar(s[0]) {
      WordsOfStripLogo(s[1..]);
      StripLogoNonWordHead(s);
    } else if WordRun(s) == |s| {
      StripLogoWholeWord(s);
    } else {
      WordsOfStripLogo(s[WordRun(s) + 1..]);
      StripLogoWordThenMore(s);
    }
  }

  lemma {:induction false} WordsOfCollapseWhitespace(s: string, cur: string)
    ensures WordsFrom(CollapseWhitespace(s), cur) == WordsFrom(s, cur)
    decreases |s|
  {
    if s != [] {
      if IsSpace(s[0]) {
        var n := SpaceRun(s);
        var x := CollapseWhitespace(s[n..]);
        assert ([' '] + x)[1..] == x;
        WordsOfCollapseWhitespace(s[n..], []);
        WordsSkipNonWord(s[1..], n - 1);
        assert s[1..][n - 1..] == s[n..];
      } else {
        var x := CollapseWhitespace(s[1..]);
        assert ([s[0]] + x)[1..] == x;
        if IsWordChar(s[0]) {
          WordsOfCollapseWhitespace(s[1..], cur + [s[0]]);
        } else {
          WordsOfCollapseWhitespace(s[1..], []);
        }
      }
    }
  }

  /** Cutting off non-word characters at both ends keeps the words. */
  lemma {:induction false} WordsOfInnerSlice(s: string, a: nat, b: nat)
    requires a <= b <= |s|
    requires forall i :: 0 <= i < a ==> !IsWordChar(s[i])
    requires forall i :: b <= i < |s| ==> !IsWordChar(s[i])
    ensures Words(s[a..b]) == Words(s)
  {
    var rest := s[a..];
    WordsSkipNonWord(s, a);
    forall i | b - a <= i < |rest|
      ensures !IsWordChar(rest[i])
    {
      assert rest[i] == s[a + i];
    }
    WordsDropNonWordSuffix(rest, b - a, []);
    assert rest[..b - a] == s[a..b];
  }

  lemma {:induction false} WordsOfTrim(s: string)
    ensures Words(Trim(s)) == Words(s)
  {
    var a := LeadingTrimmable(s);
    var b := |s| - TrailingTrimmable(s[a..]);
    TrimSlice(s, a, b);
    WordsOfInnerSlice(s, a, b);
  }

  lemma LowerAllAppend(a: seq<string>, b: seq<string>)
    ensures LowerAll(a + b) == LowerAll(a) + LowerAll(b)
  {
  }

  lemma LowerIsLogo(w: string)
    ensures IsLogo(ToLower(w)) == IsLogo(w)
    ensures LowerAll([w]) == [ToLower(w)]
  {
    assert ToLower(ToLower(w)) == ToLower(w);
  }

  lemma {:induction false} LowerAllDropLogos(ws: seq<string>)
    ensures LowerAll(DropLogos(ws)) == DropLogos(LowerAll(ws))
  {
    if ws != [] {
      var w := ws[0];
      LowerIsLogo(w);
      assert LowerAll(ws) == [ToLower(w)] + LowerAll(ws[1..]);
      LowerAllDropLogos(ws[1..]);
      var d := if IsLogo(w) then [] else [w];
      LowerAllAppend(d, DropLogos(ws[1..]));
    }
  }

  // ---- What the normalised name contains ----

  /** The cleaned-up name, before its letter case changes, keeps the stem's words minus the logos. */
  lemma WordsOfCleanedStem(stem: string)
    ensures Words(Trim(CollapseWhitespace(StripLogo(DashesToSpaces(stem))))) == DropLogos(Words(stem))
  {
    var spaced := DashesToSpaces(stem);
    var stripped := StripLogo(spaced);
    var collapsed := CollapseWhitespace(stripped);
    WordsOfTrim(collapsed);
    WordsOfCollapseWhitespace(stripped, []);
    WordsOfStripLogo(spaced);
    WordsOfDashesToSpaces(stem);
  }

  lemma LowerOfUcWords(t: string)
    ensures ToLower(UcWords(ToLower(t))) == ToLower(t)
  {
    var l := ToLower(t);
    var u := UcWords(l);
    forall k | 0 <= k < |t| ensures ToLower(u)[k] == l[k] {
      assert LowerChar(u[k]) == LowerChar(l[k]);
    }
  }

  /**
   * The words of the normalised name are, up to letter case, the words of
   * the file's basename without its extension, in order, minus every word
   * that spells "logo".
   */
  lemma AltTextWordsAreStemWordsWithoutLogo(filename: string)
    ensures Words(ToLower(GenerateAltText(filename))) == DropLogos(Words(ToLower(Stem(filename))))
  {
    var stem := Stem(filename);
    var trimmed := Trim(CollapseWhitespace(StripLogo(DashesToSpaces(stem))));
    assert GenerateAltText(filename) == UcWords(ToLower(trimmed));
    LowerOfUcWords(trimmed);
    assert ToLower([]) == [];
    WordsFromLower(trimmed, []);
    WordsOfCleanedStem(stem);
    WordsFromLower(stem, []);
    LowerAllDropLogos(Words(stem));
  }

  lemma {:induction false} WholeWordIsAWord(s: string, cur: string, i: nat)
    requires i + 4 <= |s|
    requires forall j :: i <= j < i + 4 ==> IsWordChar(s[j])
    requires i == 0 ==> cur == []
    requires i > 0 ==> !IsWordChar(s[i - 1])
    requires i + 4 < |s| ==> !IsWordChar(s[i + 4])
    ensures s[i..i + 4] in WordsFrom(s, cur)
    decreases i
  {
    if i == 0 {
      WordsFromWordPrefix(s[..4], s[4..], []);
      assert s == s[..4] + s[4..];
      assert [] + s[..4] == s[..4];
      assert s[i..i + 4] == s[..4];
      assert Flush(s[..4]) == [s[..4]];
      if s[4..] != [] {
        assert s[4..] == [s[4]] + s[5..];
        WordsFromNonWordHead(s[4], s[5..], s[..4]);
      }
    } else {
      assert s[1..][i - 1..i + 3] == s[i..i + 4];
      if IsWordChar(s[0]) {
        WholeWordIsAWord(s[1..], cur + [s[0]], i - 1);
      } else {
        WholeWordIsAWord(s[1..], [], i - 1);
      }
    }
  }

  /** A whole-word "logo" anywhere in r is one of the words of r in lower case. */
  lemma WholeWordLogoIsAWord(r: string, i: int)
    requires WholeWordLogoAt(r, i)
    ensures "logo" in Words(ToLower(r))
  {
    var lower := ToLower(r);
    assert lower[i..i + 4] == ToLower(r[i..i + 4]);
    assert ToLower(ToLower(r[i..i + 4])) == ToLower(r[i..i + 4]);
    forall j | i <= j < i + 4 ensures IsWordChar(lower[j]) {
      assert lower[j] == ToLower(r[i..i + 4])[j - i] == "logo"[j - i];
    }
    WholeWordIsAWord(lower, [], i);
  }

  /** A string whose lower-cased words are free of logos has no whole-word "logo". */
  lemma NoLogoWordNoWholeWordLogo(r: string, ws: seq<string>)
    requires Words(ToLower(r)) == DropLogos(ws)
    ensures forall i :: !WholeWordLogoAt(r, i)
  {
    assert ToLower("logo") == "logo";
    forall i | WholeWordLogoAt(r, i)
      ensures false
    {
      WholeWordLogoIsAWord(r, i);
    }
  }

  /** No whole word "logo", in any letter case, survives normalisation. */
  lemma NoWholeWordLogoSurvives(filename: string)
    ensures forall i :: !WholeWordLogoAt(GenerateAltText(filename), i)
  {
    AltTextWordsAreStemWordsWithoutLogo(filename);
    NoLogoWordNoWholeWordLogo(GenerateAltText(filename), Words(ToLower(Stem(filename))));
  }
}
