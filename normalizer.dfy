/** Text normalisation: keep the ASCII letters, upper-case them, fold J into I.
    `Normalize` follows the Python expression chain (a regular-expression
    deletion, `upper`, then `replace`); `NormalizeLetters` follows the C++
    character loop, and is proved to compute the same string. Characters
    are read under ASCII / C-locale rules: nothing outside A-Z and a-z is a
    letter. */
module Normalizer {
  import opened Alphabet

  predicate IsAsciiLetter(ch: char) {
    'A' <= ch <= 'Z' || 'a' <= ch <= 'z'
  }

  /** ASCII upper-casing; every other character is left alone. */
  function Upper(ch: char): (u: char)
    ensures IsAsciiLetter(ch) ==> 'A' <= u <= 'Z'
    ensures 'A' <= ch <= 'Z' ==> u == ch
  {
    if 'a' <= ch <= 'z' then (ch as int - 32) as char else ch
  }

  function FoldJ(ch: char): char {
    if ch == 'J' then 'I' else ch
  }

  /** The regular-expression deletion of every character outside [A-Za-z]. */
  function KeepLetters(s: string): (r: string)
    ensures |r| <= |s|
    ensures forall i :: 0 <= i < |r| ==> IsAsciiLetter(r[i])
  {
    if s == [] then []
    else (if IsAsciiLetter(s[0]) then [s[0]] else []) + KeepLetters(s[1..])
  }

  /** `str.upper` on a string of ASCII letters. */
  function UpperAll(s: string): (r: string)
    ensures |r| == |s|
    ensures forall i :: 0 <= i < |s| && IsAsciiLetter(s[i]) ==> 'A' <= r[i] <= 'Z'
    ensures forall i :: 0 <= i < |s| && 'A' <= s[i] <= 'Z' ==> r[i] == s[i]
  {
    seq(|s|, i requires 0 <= i < |s| => Upper(s[i]))
  }

  /** `str.replace("J", "I")`. */
  function ReplaceJ(s: string): (r: string)
    ensures |r| == |s|
    ensures forall i :: 0 <= i < |r| ==> r[i] != 'J'
    ensures forall i :: 0 <= i < |s| && s[i] != 'J' ==> r[i] == s[i]
  {
    seq(|s|, i requires 0 <= i < |s| => FoldJ(s[i]))
  }

  /** The normaliser used for both the key and the plaintext. */
  function Normalize(text: string): (r: string)
    ensures |r| <= |text|
    ensures AllInAlphabet(r)
  {
    ReplaceJ(UpperAll(KeepLetters(text)))
  }

  /** What one input character contributes to the normalised text. */
  function NormalizeChar(ch: char): string {
    if IsAsciiLetter(ch) then [FoldJ(Upper(ch))] else []
  }

  lemma {:induction false} KeepLettersAppend(s: string, ch: char)
    ensures KeepLetters(s + [ch]) == KeepLetters(s) + (if IsAsciiLetter(ch) then [ch] else [])
  {
    if s != [] {
      assert (s + [ch])[1..] == s[1..] + [ch];
      KeepLettersAppend(s[1..], ch);
    }
  }

  /** Normalising is done character by character, left to right. */
  lemma NormalizeAppend(s: string, ch: char)
    ensures Normalize(s + [ch]) == Normalize(s) + NormalizeChar(ch)
  {
    KeepLettersAppend(s, ch);
  }

  lemma {:induction false} KeepLettersOfLetters(s: string)
    requires AllInAlphabet(s)
    ensures KeepLetters(s) == s
  {
    if s != [] {
      KeepLettersOfLetters(s[1..]);
    }
  }

  /** A string of alphabet letters is already normal. */
  lemma NormalizeFixpoint(s: string)
    requires AllInAlphabet(s)
    ensures Normalize(s) == s
  {
    KeepLettersOfLetters(s);
  }

  /** Normalising twice is the same as normalising once. */
  lemma NormalizeIdempotent(s: string)
    ensures Normalize(Normalize(s)) == Normalize(s)
  {
    NormalizeFixpoint(Normalize(s));
  }

  /** The C++ loop: push the upper-cased letter, with J replaced by I. */
  method NormalizeLetters(text: string) returns (out: string)
    ensures out == Normalize(text)
  {
    out := [];
    for i := 0 to |text|
      invariant out == Normalize(text[..i])
    {
      var ch := text[i];
      if IsAsciiLetter(ch) {
        var up := Upper(ch);
        if up == 'J' {
          up := 'I';
        }
        out := out + [up];
      }
      assert text[..i + 1] == text[..i] + [ch];
      NormalizeAppend(text[..i], ch);
    }
    assert text[..|text|] == text;
  }
}
