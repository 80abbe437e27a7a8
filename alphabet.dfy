/** The merged I/J Latin alphabet shared by every stage of the cipher,
    and a few facts about sequences of its letters. */
module Alphabet {

  /** The 25 letters of the key square in canonical order: A..Z without J. */
  const ALPHABET_25: string := "ABCDEFGHIKLMNOPQRSTUVWXYZ"

  /** The filler letter used to split doubled letters and pad odd text. */
  const FILLER: char := 'X'

  /** A letter of the key-square alphabet, by its character code. */
  predicate InAlphabet(ch: char) {
    'A' <= ch <= 'Z' && ch != 'J'
  }

  /** Every character of `s` is an alphabet letter. */
  predicate AllInAlphabet(s: seq<char>) {
    forall i :: 0 <= i < |s| ==> InAlphabet(s[i])
  }

  /** No character occurs twice in `s`. */
  predicate Distinct(s: seq<char>) {
    forall i, j :: 0 <= i < j < |s| ==> s[i] != s[j]
  }

  /** The position of `ch` in the canonical alphabet: letters after J move up one. */
  function IndexOf(ch: char): (k: nat)
    requires InAlphabet(ch)
    ensures k < 25 && ALPHABET_25[k] == ch
  {
    var d := ch as int - 'A' as int;
    if ch < 'J' then d else d - 1
  }

  /** The literal alphabet string is exactly the set of `InAlphabet` letters. */
  lemma MemberIff(ch: char)
    ensures ch in ALPHABET_25 <==> InAlphabet(ch)
  {
  }

  lemma AlphabetWellFormed()
    ensures |ALPHABET_25| == 25
    ensures AllInAlphabet(ALPHABET_25)
    ensures Distinct(ALPHABET_25)
    ensures FILLER in ALPHABET_25
  {
    assert forall i :: 0 <= i < 24 ==> ALPHABET_25[i] < ALPHABET_25[i + 1];
    SortedDistinct(ALPHABET_25);
  }

  /** A strictly increasing string has no repeated characters. */
  lemma {:induction false} SortedDistinct(s: seq<char>)
    requires forall i :: 0 <= i < |s| - 1 ==> s[i] < s[i + 1]
    ensures Distinct(s)
    ensures forall i, j :: 0 <= i < j < |s| ==> s[i] < s[j]
  {
    if |s| > 1 {
      var t := s[1..];
      SortedDistinct(t);
      forall i, j | 0 <= i < j < |s| ensures s[i] < s[j] {
        if i == 0 {
          if j > 1 { assert t[0] < t[j - 1]; }
        } else {
          assert t[i - 1] < t[j - 1];
        }
      }
    }
  }

  /** In a sequence without repetitions every member occurs exactly once. */
  lemma {:induction false} DistinctMultiplicity(s: seq<char>, x: char)
    requires Distinct(s)
    ensures multiset(s)[x] == if x in s then 1 else 0
  {
    if s != [] {
      var t := s[..|s| - 1];
      assert s == t + [s[|s| - 1]];
      assert Distinct(t);
      DistinctMultiplicity(t, x);
      assert s[|s| - 1] !in t by {
        forall i | 0 <= i < |t| ensures t[i] != s[|s| - 1] {
          assert t[i] == s[i];
        }
      }
      assert x in s <==> x in t || x == s[|s| - 1];
    }
  }

  /** Two repetition-free sequences with the same members are permutations of each other. */
  lemma SameMembersPermutation(a: seq<char>, b: seq<char>)
    requires Distinct(a) && Distinct(b)
    requires forall x :: x in a <==> x in b
    ensures multiset(a) == multiset(b)
    ensures |a| == |b|
  {
    forall x ensures multiset(a)[x] == multiset(b)[x] {
      DistinctMultiplicity(a, x);
      DistinctMultiplicity(b, x);
    }
    assert multiset(a) == multiset(b);
    assert |multiset(a)| == |a| && |multiset(b)| == |b|;
  }
}
