/**
 * The exact normalised name of a file whose stem is made only of words and
 * separators ('-', '_' or white space): its non-logo words joined by single
 * spaces, title-cased.
 */
module AltTextPlain {
  import opened Text
  import opened PathInfo
  import opened AltText
  import opened AltTextWords

  /** Words joined by single spaces. */
  function JoinWords(ws: seq<string>): string
  {
    if ws == [] then []
    else if |ws| == 1 then ws[0]
    else ws[0] + " " + JoinWords(ws[1..])
  }

  /** Word characters and single inner spaces only. */
  predicate Canonical(t: string)
  {
    && (forall i :: 0 <= i < |t| ==> IsWordChar(t[i]) || t[i] == ' ')
    && (t != [] ==> t[0] != ' ' && t[|t| - 1] != ' ')
    && (forall i :: 0 < i < |t| && t[i] == ' ' ==> t[i - 1] != ' ')
  }

  /** A character a plain stem may contain. */
  predicate PlainChar(c: char)
  {
    IsWordChar(c) || c == '-' || c == '_' || IsSpace(c)
  }

  lemma WordsOfWord(w: string)
    requires w != [] && forall i :: 0 <= i < |w| ==> IsWordChar(w[i])
    ensures Words(w) == [w]
  {
    WordsFromWordPrefix(w, [], []);
    assert w + [] == w;
    assert [] + w == w;
  }

  lemma WordsOfWordThen(w: string, c: char, x: string)
    requires w != [] && forall i :: 0 <= i < |w| ==> IsWordChar(w[i])
    requires !IsWordChar(c)
    ensures Words(w + [c] + x) == [w] + Words(x)
  {
    assert w + [c] + x == w + ([c] + x);
    WordsFromWordPrefix(w, [c] + x, []);
    assert [] + w == w;
    WordsFromNonWordHead(c, x, w);
  }

  /** A canonical string is the join of its own words. */
  lemma {:induction false} CanonicalIsJoinOfWords(t: string)
    requires Canonical(t)
    ensures t == JoinWords(Words(t))
    ensures t != [] ==> Words(t) != []
    decreases |t|
  {
    if t == [] {
      assert Words(t) == [];
    } else {
      var n := WordRun(t);
      var w := t[..n];
      if n == |t| {
        assert w == t;
        WordsOfWord(t);
      } else {
        var rest := t[n + 1..];
        assert t == w + [t[n]] + rest;
        WordsOfWordThen(w, t[n], rest);
        assert rest[0] == t[n + 1];
        CanonicalIsJoinOfWords(rest);
        assert Words(t) == [w] + Words(rest);
        assert ([w] + Words(rest))[1..] == Words(rest);
      }
    }
  }

  /** The cleaned-up name of a plain stem, before its letter case changes, is canonical. */
  lemma CleanedPlainStemIsCanonical(stem: string)
    requires forall c :: c in stem ==> PlainChar(c)
    ensures Canonical(Trim(CollapseWhitespace(StripLogo(DashesToSpaces(stem)))))
  {
    var spaced := DashesToSpaces(stem);
    var stripped := StripLogo(spaced);
    var collapsed := CollapseWhitespace(stripped);
    var trimmed := Trim(collapsed);
    forall c | c in spaced ensures IsWordChar(c) || IsSpace(c) {
      var i :| 0 <= i < |spaced| && spaced[i] == c;
      assert stem[i] in stem;
    }
    forall i | 0 <= i < |trimmed| ensures IsWordChar(trimmed[i]) || trimmed[i] == ' ' {
      assert trimmed[i] in collapsed;
      var j :| 0 <= j < |collapsed| && collapsed[j] == trimmed[i];
      assert collapsed[j] in stripped || collapsed[j] == ' ';
    }
  }

  /**
   * For a stem of word characters and separators the normalised name is
   * exactly the stem's words, minus those spelling "logo", joined by single
   * spaces and title-cased.
   */
  lemma AltTextOfPlainName(filename: string)
    requires forall c :: c in Stem(filename) ==> PlainChar(c)
    ensures GenerateAltText(filename) == UcWords(ToLower(JoinWords(DropLogos(Words(Stem(filename))))))
  {
    var stem := Stem(filename);
    var trimmed := Trim(CollapseWhitespace(StripLogo(DashesToSpaces(stem))));
    CleanedPlainStemIsCanonical(stem);
    CanonicalIsJoinOfWords(trimmed);
    WordsOfCleanedStem(stem);
  }
}
