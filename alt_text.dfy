/**
 * generate_alt_text and generate_post_title: the filename normaliser that
 * turns an uploaded file's name into the post title and the image's
 * alternative text.
 */
module AltText {
  import opened Text
  import opened PathInfo

  /** preg_replace('/[-_]/', ' ', name): every '-' and '_' becomes a space. */
  function DashesToSpaces(s: string): string
  {
    seq(|s|, i requires 0 <= i < |s| => if s[i] == '-' || s[i] == '_' then ' ' else s[i])
  }

  /** The length of the leading run of word characters. */
  function WordRun(s: string): (n: nat)
    ensures n <= |s|
    ensures forall i :: 0 <= i < n ==> IsWordChar(s[i])
    ensures n < |s| ==> !IsWordChar(s[n])
  {
    if s == [] || !IsWordChar(s[0]) then 0 else 1 + WordRun(s[1..])
  }

  /** The length of the leading run of white space (\s). */
  function SpaceRun(s: string): (n: nat)
    ensures n <= |s|
    ensures forall i :: 0 <= i < n ==> IsSpace(s[i])
    ensures n < |s| ==> !IsSpace(s[n])
  {
    if s == [] || !IsSpace(s[0]) then 0 else 1 + SpaceRun(s[1..])
  }

  /** A word that /logo/i matches in full. */
  predicate IsLogo(w: string)
  {
    ToLower(w) == "logo"
  }

  /**
   * preg_replace('/\blogo\b/i', '', name). A match starts where a word
   * character follows a non-word character (or the start) and ends where a
   * non-word character (or the end) follows, so it is exactly a maximal run
   * of word characters that spells "logo" in any case; matches never
   * overlap, and the left-to-right scan removes every such run.
   */
  function StripLogo(s: string): (r: string)
    ensures forall c :: c in r ==> c in s
    decreases |s|
  {
    if s == [] then []
    else if !IsWordChar(s[0]) then [s[0]] + StripLogo(s[1..])
    else
      var n := WordRun(s);
      (if IsLogo(s[..n]) then [] else s[..n]) + StripLogo(s[n..])
  }

  /** Only ' ' is left of the white space, and never twice in a row. */
  predicate SingleSpaced(s: string)
  {
    && (forall i :: 0 <= i < |s| && IsSpace(s[i]) ==> s[i] == ' ')
    && (forall i :: 0 < i < |s| && s[i] == ' ' ==> s[i - 1] != ' ')
  }

  /** preg_replace('/\s+/', ' ', name): each run of white space becomes one space. */
  function CollapseWhitespace(s: string): (r: string)
    ensures forall c :: c in r ==> c in s || c == ' '
    ensures SingleSpaced(r)
    ensures |s| > 0 ==> |r| > 0 && r[0] == (if IsSpace(s[0]) then ' ' else s[0])
    decreases |s|
  {
    if s == [] then []
    else if IsSpace(s[0]) then
      var n := SpaceRun(s);
      [' '] + CollapseWhitespace(s[n..])
    else [s[0]] + CollapseWhitespace(s[1..])
  }

  /** How many trimmable characters `s` starts with: what trim removes in front. */
  function LeadingTrimmable(s: string): (n: nat)
    ensures n <= |s|
    ensures forall i :: 0 <= i < n ==> IsTrimmable(s[i])
    ensures n < |s| ==> !IsTrimmable(s[n])
  {
    if s == [] || !IsTrimmable(s[0]) then 0 else 1 + LeadingTrimmable(s[1..])
  }

  /** How many trimmable characters `s` ends with: what trim removes behind. */
  function TrailingTrimmable(s: string): (n: nat)
    ensures n <= |s|
    ensures forall i :: |s| - n <= i < |s| ==> IsTrimmable(s[i])
    ensures n < |s| ==> !IsTrimmable(s[|s| - 1 - n])
  {
    if s == [] || !IsTrimmable(s[|s| - 1]) then 0 else 1 + TrailingTrimmable(s[..|s| - 1])
  }

  /** `r` is `s` without `a` trimmable characters in front and those from `b` on behind. */
  predicate TrimmedTo(s: string, r: string, a: int, b: int)
  {
    && 0 <= a <= b <= |s| && r == s[a..b]
    && (forall i :: 0 <= i < a ==> IsTrimmable(s[i]))
    && (forall i :: b <= i < |s| ==> IsTrimmable(s[i]))
  }

  /** A slice keeps single spacing. */
  lemma {:induction false} SingleSpacedSlice(s: string, a: int, b: int)
    requires 0 <= a <= b <= |s|
    ensures SingleSpaced(s) ==> SingleSpaced(s[a..b])
  {
    if SingleSpaced(s) {
      var r := s[a..b];
      forall i | 0 < i < |r| && r[i] == ' '
        ensures r[i - 1] != ' '
      {
        assert r[i] == s[a + i] && r[i - 1] == s[a + i - 1];
      }
    }
  }

  /** The slice Trim takes: the trimmable head and tail are gone, and only they. */
  lemma {:induction false} TrimSlice(s: string, a: nat, b: nat)
    requires a == LeadingTrimmable(s) && b == |s| - TrailingTrimmable(s[a..])
    ensures TrimmedTo(s, s[a..b], a, b)
    ensures a < b ==> !IsTrimmable(s[a]) && !IsTrimmable(s[b - 1])
  {
    var rest := s[a..];
    forall i | b <= i < |s|
      ensures IsTrimmable(s[i])
    {
      assert s[i] == rest[i - a];
    }
    if a < b {
      assert s[b - 1] == rest[|rest| - 1 - TrailingTrimmable(rest)];
    }
  }

  /**
   * PHP's trim with its default character list: the input without its
   * leading and trailing trimmable characters, and nothing else removed.
   */
  function Trim(s: string): (r: string)
    ensures exists a, b :: TrimmedTo(s, r, a, b)
    ensures r != [] ==> !IsTrimmable(r[0]) && !IsTrimmable(r[|r| - 1])
    ensures forall c :: c in r ==> c in s
    ensures SingleSpaced(s) ==> SingleSpaced(r)
  {
    var a := LeadingTrimmable(s);
    var b := |s| - TrailingTrimmable(s[a..]);
    TrimSlice(s, a, b);
    SingleSpacedSlice(s, a, b);
    s[a..b]
  }

  /** PHP's ucwords with its default delimiters. */
  function UcWords(s: string): string
  {
    seq(|s|, i requires 0 <= i < |s| =>
      if i == 0 || IsUcwordsDelimiter(s[i - 1]) then UpperChar(s[i]) else s[i])
  }

  /** generate_alt_text: the normalised name of a file. */
  function GenerateAltText(filename: string): string
  {
    var stem := Stem(filename);
    var spaced := DashesToSpaces(stem);
    var stripped := StripLogo(spaced);
    var collapsed := CollapseWhitespace(stripped);
    var trimmed := Trim(collapsed);
    UcWords(ToLower(trimmed))
  }

  /** generate_post_title: the post title is the alternative text. */
  function GeneratePostTitle(filename: string): (title: string)
    ensures title == GenerateAltText(filename)
  {
    GenerateAltText(filename)
  }
}
