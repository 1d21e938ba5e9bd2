/**
 * Character classes and case mappings used by the filename normaliser.
 *
 * PHP's PCRE runs without the /u modifier here, so its character tables are
 * the default ASCII ones: \w is [A-Za-z0-9_], \s is space, tab, newline,
 * vertical tab, form feed and carriage return, and /i folds ASCII letters
 * only. strtolower and ucwords are ASCII-only (PHP 8.2 and later). A
 * non-ASCII character is neither a word character nor white space.
 */
module Text {

  predicate IsUpper(c: char) { 'A' <= c <= 'Z' }

  predicate IsLower(c: char) { 'a' <= c <= 'z' }

  predicate IsDigit(c: char) { '0' <= c <= '9' }

  /** A character that \b treats as part of a word once underscores are gone. */
  predicate IsWordChar(c: char) { IsUpper(c) || IsLower(c) || IsDigit(c) }

  /** PCRE's \s. */
  predicate IsSpace(c: char) {
    c == ' ' || c == '\t' || c == '\n' || c == '\U{000B}' || c == '\U{000C}' || c == '\r'
  }

  /** The characters PHP's trim removes by default. */
  predicate IsTrimmable(c: char) {
    c == ' ' || c == '\t' || c == '\n' || c == '\r' || c == '\0' || c == '\U{000B}'
  }

  /** The word delimiters of PHP's ucwords by default. */
  predicate IsUcwordsDelimiter(c: char) {
    c == ' ' || c == '\t' || c == '\r' || c == '\n' || c == '\U{000C}' || c == '\U{000B}'
  }

  function LowerChar(c: char): (d: char)
    ensures !IsUpper(d)
    ensures IsWordChar(d) == IsWordChar(c)
    ensures !IsUpper(c) ==> d == c
  {
    if IsUpper(c) then (c as int + 32) as char else c
  }

  /** An upper-case letter becomes its own lower-case letter: the one at the same place in the alphabet. */
  lemma LowerCharOfUpper(c: char)
    requires IsUpper(c)
    ensures IsLower(LowerChar(c)) && LowerChar(c) as int - 'a' as int == c as int - 'A' as int
  {
  }

  function UpperChar(c: char): (d: char)
    ensures !IsLower(d)
    ensures IsWordChar(d) == IsWordChar(c)
    ensures LowerChar(d) == LowerChar(c)
    ensures !IsLower(c) ==> d == c
  {
    if IsLower(c) then (c as int - 32) as char else c
  }

  /** PHP's strtolower. */
  function ToLower(s: string): (r: string)
  {
    seq(|s|, i requires 0 <= i < |s| => LowerChar(s[i]))
  }

  /** The decimal form PHP gives an integer when it is concatenated to a string. */
  function IntToString(n: int): string
  {
    if n < 0 then "-" + NatToString(-n) else NatToString(n)
  }

  /** The value a string of decimal digits spells. */
  function DigitsValue(s: string): nat
    requires forall i :: 0 <= i < |s| ==> IsDigit(s[i])
  {
    if s == [] then 0
    else
      assert IsDigit(s[|s| - 1]);
      DigitsValue(s[..|s| - 1]) * 10 + (s[|s| - 1] as int - '0' as int)
  }

  /** The decimal digits of n: never empty, no leading zero, and they spell n. */
  function NatToString(n: nat): (r: string)
    ensures r != [] && forall i :: 0 <= i < |r| ==> IsDigit(r[i])
    ensures r[0] == '0' ==> n == 0
    ensures DigitsValue(r) == n
  {
    if n < 10 then [DigitChar(n)]
    else
      var r := NatToString(n / 10) + [DigitChar(n % 10)];
      assert r[..|r| - 1] == NatToString(n / 10);
      r
  }

  /** An error code's decimal form: a minus sign exactly for a negative one, then the digits of its magnitude. */
  lemma IntToStringReadsBack(n: int)
    ensures var r := IntToString(n);
      && r != [] && (r[0] == '-' <==> n < 0)
      && var digits := if n < 0 then r[1..] else r;
      && digits != [] && (digits[0] == '0' ==> |digits| == 1)
      && (forall i :: 0 <= i < |digits| ==> IsDigit(digits[i]))
      && DigitsValue(digits) == (if n < 0 then -n else n)
  {
    if n < 0 {
      assert IntToString(n)[1..] == NatToString(-n);
    }
  }

  function DigitChar(d: nat): char
    requires d < 10
  {
    ('0' as int + d) as char
  }
}
