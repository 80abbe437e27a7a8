/** Digraph preparation: the normalised plaintext is cut into letter pairs by
    a cursor that advances by 2 over a pair of different letters and by 1
    when the two letters are equal (the first is then paired with the
    filler 'X'); a lone final letter is padded with 'X'. */
module Pairing {
  import opened Alphabet
  import opened Normalizer

  /** One substitution unit: an ordered pair of letters. */
  type Digraph = (char, char)

  /** The pairs emitted by the cursor loop from position `i` on. */
  function DigraphsFrom(text: string, i: nat): (pairs: seq<Digraph>)
    ensures pairs == [] <==> i >= |text|
    decreases |text| - i
  {
    if i >= |text| then []
    else
      var a := text[i];
      var b := if i + 1 < |text| then text[i + 1] else FILLER;
      if a == b then [(a, FILLER)] + DigraphsFrom(text, i + 1)
      else [(a, b)] + DigraphsFrom(text, i + 2)
  }

  /** The pairs of a normalised text. */
  function Digraphs(text: string): (pairs: seq<Digraph>)
    ensures pairs == [] <==> text == []
  {
    DigraphsFrom(text, 0)
  }

  /** The letters of the pairs, in order. */
  function PairLetters(pairs: seq<Digraph>): string {
    if pairs == [] then [] else [pairs[0].0, pairs[0].1] + PairLetters(pairs[1..])
  }

  /** `text` is what remains of `padded` after deleting some of its 'X' letters:
      the pairing only ever inserts filler letters. */
  predicate InsertsOnlyFiller(text: string, padded: string)
    decreases |padded|
  {
    if padded == [] then text == []
    else
      (text != [] && padded[0] == text[0] && InsertsOnlyFiller(text[1..], padded[1..]))
      || (padded[0] == FILLER && InsertsOnlyFiller(text, padded[1..]))
  }

  /** Every pair consists of alphabet letters when the text does. */
  lemma {:induction false} DigraphsInAlphabet(text: string, i: nat)
    requires AllInAlphabet(text)
    ensures forall k :: 0 <= k < |DigraphsFrom(text, i)| ==>
              InAlphabet(DigraphsFrom(text, i)[k].0) && InAlphabet(DigraphsFrom(text, i)[k].1)
    decreases |text| - i
  {
    if i < |text| {
      DigraphsInAlphabet(text, i + 1);
      DigraphsInAlphabet(text, i + 2);
    }
  }

  /** A pair has two equal letters only when both are the filler 'X'. */
  lemma {:induction false} EqualPairIsFiller(text: string, i: nat)
    ensures forall k :: 0 <= k < |DigraphsFrom(text, i)| && DigraphsFrom(text, i)[k].0 == DigraphsFrom(text, i)[k].1 ==>
              DigraphsFrom(text, i)[k] == (FILLER, FILLER)
    decreases |text| - i
  {
    if i < |text| {
      EqualPairIsFiller(text, i + 1);
      EqualPairIsFiller(text, i + 2);
    }
  }

  /** Each pair consumes one or two letters, so n letters give between
      ceil(n / 2) and n pairs. */
  lemma {:induction false} DigraphsCount(text: string, i: nat)
    requires i <= |text|
    ensures (|text| - i + 1) / 2 <= |DigraphsFrom(text, i)| <= |text| - i
    decreases |text| - i
  {
    var n := |text| - i;
    if n > 0 {
      var a := text[i];
      var b := if i + 1 < |text| then text[i + 1] else FILLER;
      if a == b {
        DigraphsCount(text, i + 1);
        assert |DigraphsFrom(text, i)| == 1 + |DigraphsFrom(text, i + 1)|;
        assert (n + 1) / 2 <= 1 + n / 2;
      } else if n == 1 {
        assert DigraphsFrom(text, i) == [(a, b)];
      } else {
        DigraphsCount(text, i + 2);
        assert |DigraphsFrom(text, i)| == 1 + |DigraphsFrom(text, i + 2)|;
        assert (n + 1) / 2 == 1 + (n - 1) / 2;
      }
    }
  }

  /** Concatenating the pairs gives back the text with only filler letters inserted. */
  lemma {:induction false} DigraphsInsertOnlyFiller(text: string, i: nat)
    requires i <= |text|
    ensures InsertsOnlyFiller(text[i..], PairLetters(DigraphsFrom(text, i)))
    decreases |text| - i
  {
    if i < |text| {
      var a := text[i];
      var b := if i + 1 < |text| then text[i + 1] else FILLER;
      var rest := text[i + 1..];
      assert text[i..] == [a] + rest;
      if a == b {
        var tail := DigraphsFrom(text, i + 1);
        DigraphsInsertOnlyFiller(text, i + 1);
        assert PairLetters(DigraphsFrom(text, i)) == [a, FILLER] + PairLetters(tail);
        assert InsertsOnlyFiller(rest, [FILLER] + PairLetters(tail));
      } else if i + 1 < |text| {
        var tail := DigraphsFrom(text, i + 2);
        DigraphsInsertOnlyFiller(text, i + 2);
        assert rest == [b] + text[i + 2..];
        assert PairLetters(DigraphsFrom(text, i)) == [a, b] + PairLetters(tail);
        assert InsertsOnlyFiller(rest, [b] + PairLetters(tail));
      } else {
        assert rest == [];
        assert PairLetters(DigraphsFrom(text, i)) == [a, FILLER];
        assert InsertsOnlyFiller(rest, [FILLER]);
      }
    }
  }

  /** prepare_plaintext: normalise, then run the cursor loop. */
  method PreparePlaintext(plaintext: string) returns (pairs: seq<Digraph>)
    ensures pairs == Digraphs(Normalize(plaintext))
    ensures forall k :: 0 <= k < |pairs| ==> InAlphabet(pairs[k].0) && InAlphabet(pairs[k].1)
    ensures forall k :: 0 <= k < |pairs| && pairs[k].0 == pairs[k].1 ==> pairs[k] == (FILLER, FILLER)
    ensures (|Normalize(plaintext)| + 1) / 2 <= |pairs| <= |Normalize(plaintext)|
    ensures InsertsOnlyFiller(Normalize(plaintext), PairLetters(pairs))
  {
    var text := NormalizeLetters(plaintext);
    pairs := [];
    var i := 0;
    while i < |text|
      invariant 0 <= i <= |text| + 1
      invariant pairs + DigraphsFrom(text, i) == Digraphs(text)
      decreases |text| + 1 - i
    {
      var a := text[i];
      var b := if i + 1 < |text| then text[i + 1] else FILLER;
      if a == b {
        assert DigraphsFrom(text, i) == [(a, FILLER)] + DigraphsFrom(text, i + 1);
        assert pairs + DigraphsFrom(text, i) == (pairs + [(a, FILLER)]) + DigraphsFrom(text, i + 1);
        pairs := pairs + [(a, FILLER)];
        i := i + 1;
      } else {
        assert DigraphsFrom(text, i) == [(a, b)] + DigraphsFrom(text, i + 2);
        assert pairs + DigraphsFrom(text, i) == (pairs + [(a, b)]) + DigraphsFrom(text, i + 2);
        pairs := pairs + [(a, b)];
        i := i + 2;
      }
    }
    DigraphsInAlphabet(text, 0);
    EqualPairIsFiller(text, 0);
    DigraphsCount(text, 0);
    DigraphsInsertOnlyFiller(text, 0);
  }
}
