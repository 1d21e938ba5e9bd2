/**
 * What the normaliser keeps of a filename besides its words: the characters
 * that are not word characters, and the white space, run by run.
 */
module AltTextChars {
  import opened Text
  import opened AltText
  import Seqs

  predicate NotWordChar(c: char) { !IsWordChar(c) }

  predicate NotSpace(c: char) { !IsSpace(c) }

  /**
   * Removing whole-word logos leaves every character that is not a word
   * character where it was: those characters, in order, are the input's.
   */
  lemma {:induction false} StripLogoKeepsNonWordChars(s: string)
    ensures Seqs.Filter(StripLogo(s), NotWordChar) == Seqs.Filter(s, NotWordChar)
    decreases |s|
  {
    if s == [] {
    } else if !IsWordChar(s[0]) {
      StripLogoKeepsNonWordChars(s[1..]);
      assert StripLogo(s) == [s[0]] + StripLogo(s[1..]);
      assert s == [s[0]] + s[1..];
      Seqs.FilterSnoc([], s[0], NotWordChar);
      assert [] + [s[0]] == [s[0]];
      Seqs.FilterAppend([s[0]], StripLogo(s[1..]), NotWordChar);
      Seqs.FilterAppend([s[0]], s[1..], NotWordChar);
    } else {
      var n := WordRun(s);
      var word := s[..n];
      var piece := if IsLogo(word) then [] else word;
      StripLogoKeepsNonWordChars(s[n..]);
      assert StripLogo(s) == piece + StripLogo(s[n..]);
      assert s == word + s[n..];
      Seqs.FilterNone(word, NotWordChar);
      Seqs.FilterNone(piece, NotWordChar);
      Seqs.FilterAppend(piece, StripLogo(s[n..]), NotWordChar);
      Seqs.FilterAppend(word, s[n..], NotWordChar);
    }
  }

  /** A run of word characters ended by a non-word character or the end is what WordRun measures. */
  lemma WordRunIs(s: string, n: nat)
    requires n <= |s|
    requires forall i :: 0 <= i < n ==> IsWordChar(s[i])
    requires n < |s| ==> !IsWordChar(s[n])
    ensures WordRun(s) == n
  {
  }

  /** A string of word characters is one word: it goes when it spells "logo", and stays whole otherwise. */
  lemma StripLogoOfWord(w: string)
    requires w != [] && forall i :: 0 <= i < |w| ==> IsWordChar(w[i])
    ensures StripLogo(w) == if IsLogo(w) then [] else w
  {
    WordRunIs(w, |w|);
    assert w[..|w|] == w && w[|w|..] == [];
  }

  /**
   * A non-word character stays where it is and separates what is removed
   * on either side: StripLogo works on each side on its own.
   */
  lemma {:induction false} StripLogoSplits(x: string, c: char, y: string)
    requires !IsWordChar(c)
    ensures StripLogo(x + [c] + y) == StripLogo(x) + [c] + StripLogo(y)
    decreases |x|
  {
    var s := x + [c] + y;
    if x == [] {
      assert s == [c] + y && s[1..] == y;
    } else if !IsWordChar(x[0]) {
      assert s[1..] == x[1..] + [c] + y;
      StripLogoSplits(x[1..], c, y);
      assert StripLogo(x) == [x[0]] + StripLogo(x[1..]);
    } else {
      var n := WordRun(x);
      WordRunIs(s, n);
      var piece := if IsLogo(x[..n]) then [] else x[..n];
      assert s[..n] == x[..n];
      assert s[n..] == x[n..] + [c] + y;
      StripLogoSplits(x[n..], c, y);
      assert StripLogo(x) == piece + StripLogo(x[n..]);
      assert StripLogo(s) == piece + StripLogo(s[n..]);
    }
  }

  /**
   * preg_replace('/\s+/', ' ', ...) read one character at a time: white
   * space right after white space is dropped, any other white space becomes
   * ' ', and every other character stays. `afterSpace` says whether the
   * character before `s` was white space.
   */
  function Squeeze(s: string, afterSpace: bool): string
    decreases |s|
  {
    if s == [] then []
    else if IsSpace(s[0]) then (if afterSpace then [] else [' ']) + Squeeze(s[1..], true)
    else [s[0]] + Squeeze(s[1..], false)
  }

  /** After white space, the rest of a run of white space adds nothing. */
  lemma {:induction false} SqueezeSkipsRun(s: string, k: nat)
    requires k <= |s|
    requires forall i :: 0 <= i < k ==> IsSpace(s[i])
    ensures Squeeze(s, true) == Squeeze(s[k..], true)
    decreases k
  {
    if k > 0 {
      assert s[1..][k - 1..] == s[k..];
      SqueezeSkipsRun(s[1..], k - 1);
    }
  }

  /**
   * Collapsing white space replaces each maximal run of \s by exactly one
   * ' ' and keeps every other character, in order.
   */
  lemma {:induction false} CollapseWhitespaceSqueezes(s: string)
    ensures CollapseWhitespace(s) == Squeeze(s, false)
    decreases |s|
  {
    if s == [] {
    } else if IsSpace(s[0]) {
      var n := SpaceRun(s);
      CollapseWhitespaceSqueezes(s[n..]);
      assert s[1..][n - 1..] == s[n..];
      SqueezeSkipsRun(s[1..], n - 1);
      assert Squeeze(s[n..], true) == Squeeze(s[n..], false);
    } else {
      CollapseWhitespaceSqueezes(s[1..]);
    }
  }

  /** Squeezing keeps the characters that are not white space, in order. */
  lemma {:induction false} SqueezeKeepsNonSpace(s: string, afterSpace: bool)
    ensures Seqs.Filter(Squeeze(s, afterSpace), NotSpace) == Seqs.Filter(s, NotSpace)
    decreases |s|
  {
    if s != [] {
      var head := if IsSpace(s[0]) then (if afterSpace then [] else [' ']) else [s[0]];
      var rest := Squeeze(s[1..], IsSpace(s[0]));
      SqueezeKeepsNonSpace(s[1..], IsSpace(s[0]));
      assert Squeeze(s, afterSpace) == head + rest;
      assert s == [s[0]] + s[1..];
      Seqs.FilterSnoc([], s[0], NotSpace);
      Seqs.FilterSnoc([], ' ', NotSpace);
      assert [] + [s[0]] == [s[0]] && [] + [' '] == [' '];
      Seqs.FilterAppend(head, rest, NotSpace);
      Seqs.FilterAppend([s[0]], s[1..], NotSpace);
    }
  }

  /** Collapsing white space keeps the characters that are not white space, in order. */
  lemma CollapseWhitespaceKeepsNonSpace(s: string)
    ensures Seqs.Filter(CollapseWhitespace(s), NotSpace) == Seqs.Filter(s, NotSpace)
  {
    CollapseWhitespaceSqueezes(s);
    SqueezeKeepsNonSpace(s, false);
  }
}
