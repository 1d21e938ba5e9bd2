/**
 * The filename examples documented on the importer's admin page.
 *
 * Each example names its words as parameters pinned by a requires, so
 * GenerateAltText("Audi-Logo.svg") is stated as GenerateAltText(audi + "-" +
 * logo + "." + "svg") with audi == "Audi" and logo == "Logo". Written with
 * one string literal, the name lets the verifier unfold every function of
 * the normaliser on the constant at once, which is far beyond its budget;
 * with the words as parameters the proof goes through the word lemmas.
 */
module AltTextExamples {
  import opened Text
  import opened PathInfo
  import opened AltText
  import opened AltTextWords
  import opened AltTextPlain

  predicate AllWord(w: string) { forall i :: 0 <= i < |w| ==> IsWordChar(w[i]) }

  predicate PlainWord(w: string) { w != [] && AllWord(w) }

  function Kept(w: string): seq<string> { if IsLogo(w) then [] else [w] }

  predicate Separator(c: char) { c == '-' || c == '_' }

  lemma NameParts(stem: string, ext: string)
    requires forall c :: c in stem ==> PlainChar(c)
    requires '.' !in ext && '/' !in ext
    ensures GenerateAltText(stem + "." + ext) == UcWords(ToLower(JoinWords(DropLogos(Words(stem)))))
  {
    assert !PlainChar('/');
    StemAndExtensionOfName(stem, ext);
    AltTextOfPlainName(stem + "." + ext);
  }

  lemma PlainWordChars(w: string)
    requires AllWord(w)
    ensures forall c :: c in w ==> PlainChar(c)
  {
  }

  lemma WordsOfThree(w1: string, s1: char, w2: string, s2: char, w3: string)
    requires PlainWord(w1) && PlainWord(w2) && PlainWord(w3) && Separator(s1) && Separator(s2)
    ensures Words(w1 + [s1] + w2 + [s2] + w3) == [w1, w2, w3]
  {
    var tail := w2 + [s2] + w3;
    assert w1 + [s1] + w2 + [s2] + w3 == w1 + [s1] + tail;
    WordsOfWordThen(w1, s1, tail);
    WordsOfWordThen(w2, s2, w3);
    WordsOfWord(w3);
  }

  lemma DropLogosOfThree(w1: string, w2: string, w3: string)
    ensures DropLogos([w1, w2, w3]) == Kept(w1) + Kept(w2) + Kept(w3)
  {
    assert [w1, w2, w3][1..] == [w2, w3];
    assert [w2, w3][1..] == [w3];
    assert DropLogos([w3]) == Kept(w3);
  }

  /** A file named w . ext, for a word w. */
  lemma OneWordName(w: string, ext: string)
    requires PlainWord(w)
    requires '.' !in ext && '/' !in ext
    ensures GenerateAltText(w + "." + ext) == UcWords(ToLower(JoinWords(Kept(w))))
  {
    PlainWordChars(w);
    WordsOfWord(w);
    assert DropLogos([w]) == Kept(w) + DropLogos([]);
    NameParts(w, ext);
  }

  lemma WordsOfTwo(w1: string, s: char, w2: string)
    requires PlainWord(w1) && PlainWord(w2) && Separator(s)
    ensures Words(w1 + [s] + w2) == [w1, w2]
  {
    WordsOfWordThen(w1, s, w2);
    WordsOfWord(w2);
  }

  lemma DropLogosOfTwo(w1: string, w2: string)
    ensures DropLogos([w1, w2]) == Kept(w1) + Kept(w2)
  {
    assert [w1, w2][1..] == [w2];
    assert DropLogos([w2]) == Kept(w2) + DropLogos([]);
  }

  /** A file named w1 sep w2 . ext, for words w1, w2 and a separator sep. */
  lemma TwoWordName(w1: string, sep: string, w2: string, ext: string)
    requires PlainWord(w1) && PlainWord(w2)
    requires |sep| == 1 && Separator(sep[0])
    requires '.' !in ext && '/' !in ext
    ensures GenerateAltText(w1 + sep + w2 + "." + ext) == UcWords(ToLower(JoinWords(Kept(w1) + Kept(w2))))
  {
    var s := sep[0];
    assert sep == [s];
    var stem := w1 + [s] + w2;
    PlainWordChars(w1);
    PlainWordChars(w2);
    assert forall c :: c in stem ==> PlainChar(c);
    WordsOfTwo(w1, s, w2);
    DropLogosOfTwo(w1, w2);
    NameParts(stem, ext);
  }

  /** The name of a file named w1 sep1 w2 sep2 w3 . ext, for words w1, w2, w3 and separators sep1, sep2. */
  lemma ThreeWordName(w1: string, sep1: string, w2: string, sep2: string, w3: string, ext: string)
    requires PlainWord(w1) && PlainWord(w2) && PlainWord(w3)
    requires |sep1| == 1 && Separator(sep1[0]) && |sep2| == 1 && Separator(sep2[0])
    requires '.' !in ext && '/' !in ext
    ensures GenerateAltText(w1 + sep1 + w2 + sep2 + w3 + "." + ext)
      == UcWords(ToLower(JoinWords(Kept(w1) + Kept(w2) + Kept(w3))))
  {
    var s1, s2 := sep1[0], sep2[0];
    assert sep1 == [s1] && sep2 == [s2];
    var stem := w1 + [s1] + w2 + [s2] + w3;
    PlainWordChars(w1);
    PlainWordChars(w2);
    PlainWordChars(w3);
    assert forall c :: c in stem ==> PlainChar(c);
    WordsOfThree(w1, s1, w2, s2, w3);
    DropLogosOfThree(w1, w2, w3);
    NameParts(stem, ext);
  }

  // ---- The documented examples ----

  /**
   * Audi-Logo.svg gives "Audi".
   * The words are parameters only to keep the literal name within the verifier's budget.
   */
  lemma AudiLogo(audi: string, logo: string)
    requires audi == "Audi" && logo == "Logo"
    ensures GenerateAltText(audi + "-" + logo + "." + "svg") == "Audi"
  {
    AudiWords(audi, logo);
    TwoWordName(audi, "-", logo, "svg");
    AudiCased(JoinWords([audi]));
  }

  lemma AudiWords(audi: string, logo: string)
    requires audi == "Audi" && logo == "Logo"
    ensures PlainWord(audi) && PlainWord(logo)
    ensures Kept(audi) + Kept(logo) == [audi]
  {
    assert !IsLogo(audi) by { assert ToLower(audi)[0] == 'a'; }
    assert IsLogo(logo) by { assert ToLower(logo)[0] == 'l'; }
  }

  lemma AudiCased(s: string)
    requires s == "Audi"
    ensures UcWords(ToLower(s)) == "Audi"
  {
    var l := ToLower(s);
    assert l == "audi" by { assert l[0] == 'a'; }
  }

  /**
   * BMW_corporate-logo.png gives "Bmw Corporate".
   * The words are parameters only to keep the literal name within the verifier's budget.
   */
  lemma BmwCorporateLogo(bmw: string, corporate: string, logo: string)
    requires bmw == "BMW" && corporate == "corporate" && logo == "logo"
    ensures GenerateAltText(bmw + "_" + corporate + "-" + logo + "." + "png") == "Bmw Corporate"
  {
    BmwWords(bmw, corporate, logo);
    ThreeWordName(bmw, "_", corporate, "-", logo, "png");
    BmwJoined(bmw, corporate);
    BmwLower("BMW corporate");
    BmwCapitalised("bmw corporate");
  }

  lemma BmwWords(bmw: string, corporate: string, logo: string)
    requires bmw == "BMW" && corporate == "corporate" && logo == "logo"
    ensures PlainWord(bmw) && PlainWord(corporate) && PlainWord(logo)
    ensures Kept(bmw) + Kept(corporate) + Kept(logo) == [bmw, corporate]
  {
    assert !IsLogo(bmw) by { assert ToLower(bmw)[0] == 'b'; }
    assert !IsLogo(corporate) by { assert ToLower(corporate)[0] == 'c'; }
    assert IsLogo(logo);
  }

  lemma BmwJoined(bmw: string, corporate: string)
    requires bmw == "BMW" && corporate == "corporate"
    ensures JoinWords([bmw, corporate]) == "BMW corporate"
  {
    assert JoinWords([bmw, corporate]) == bmw + " " + corporate;
  }

  lemma BmwLower(s: string)
    requires s == "BMW corporate"
    ensures ToLower(s) == "bmw corporate"
  {
  }

  lemma BmwCapitalised(s: string)
    requires s == "bmw corporate"
    ensures UcWords(s) == "Bmw Corporate"
  {
  }

  /**
   * microsoft-logo-2024.jpg gives "Microsoft 2024": digits make a word of their own.
   * The words are parameters only to keep the literal name within the verifier's budget.
   */
  lemma MicrosoftLogo2024(microsoft: string, logo: string, year: string)
    requires microsoft == "microsoft" && logo == "logo" && year == "2024"
    ensures GenerateAltText(microsoft + "-" + logo + "-" + year + "." + "jpg") == "Microsoft 2024"
  {
    MicrosoftWords(microsoft, logo, year);
    ThreeWordName(microsoft, "-", logo, "-", year, "jpg");
    MicrosoftJoined(microsoft, year);
    MicrosoftLower("microsoft 2024");
    MicrosoftCapitalised("microsoft 2024");
  }

  lemma MicrosoftWords(microsoft: string, logo: string, year: string)
    requires microsoft == "microsoft" && logo == "logo" && year == "2024"
    ensures PlainWord(microsoft) && PlainWord(logo) && PlainWord(year)
    ensures Kept(microsoft) + Kept(logo) + Kept(year) == [microsoft, year]
  {
    assert !IsLogo(microsoft) by { assert ToLower(microsoft)[0] == 'm'; }
    assert !IsLogo(year) by { assert ToLower(year)[0] == '2'; }
    assert IsLogo(logo);
  }

  lemma MicrosoftJoined(microsoft: string, year: string)
    requires microsoft == "microsoft" && year == "2024"
    ensures JoinWords([microsoft, year]) == "microsoft 2024"
  {
    assert JoinWords([microsoft, year]) == microsoft + " " + year;
  }

  lemma MicrosoftLower(s: string)
    requires s == "microsoft 2024"
    ensures ToLower(s) == s
  {
  }

  lemma MicrosoftCapitalised(s: string)
    requires s == "microsoft 2024"
    ensures UcWords(s) == "Microsoft 2024"
  {
  }

  /**
   * Only the whole word is removed: acme-logotype.png keeps "Logotype".
   * The words are parameters only to keep the literal name within the verifier's budget.
   */
  lemma LogotypeIsKept(acme: string, logotype: string)
    requires acme == "acme" && logotype == "logotype"
    ensures GenerateAltText(acme + "-" + logotype + "." + "png") == "Acme Logotype"
  {
    LogotypeWords(acme, logotype);
    TwoWordName(acme, "-", logotype, "png");
    LogotypeJoined(acme, logotype);
    LogotypeLower("acme logotype");
    LogotypeCapitalised("acme logotype");
  }

  lemma LogotypeWords(acme: string, logotype: string)
    requires acme == "acme" && logotype == "logotype"
    ensures PlainWord(acme) && PlainWord(logotype)
    ensures Kept(acme) + Kept(logotype) == [acme, logotype]
  {
    assert !IsLogo(acme) by { assert ToLower(acme)[0] == 'a'; }
    assert !IsLogo(logotype) by { assert |ToLower(logotype)| == 8; }
  }

  lemma LogotypeJoined(acme: string, logotype: string)
    requires acme == "acme" && logotype == "logotype"
    ensures JoinWords([acme, logotype]) == "acme logotype"
  {
    assert JoinWords([acme, logotype]) == acme + " " + logotype;
  }

  lemma LogotypeLower(s: string)
    requires s == "acme logotype"
    ensures ToLower(s) == s
  {
  }

  lemma LogotypeCapitalised(s: string)
    requires s == "acme logotype"
    ensures UcWords(s) == "Acme Logotype"
  {
  }

  /**
   * A file named only "logo" normalises to the empty string.
   * The word is a parameter only to keep the literal name within the verifier's budget.
   */
  lemma LogoAloneIsEmpty(logo: string)
    requires logo == "logo"
    ensures GenerateAltText(logo + "." + "png") == ""
  {
    assert PlainWord(logo) && IsLogo(logo);
    OneWordName(logo, "png");
    assert JoinWords([]) == [];
  }
}
