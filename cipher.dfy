/** Digraph substitution and the top-level encryption. Each pair is looked up
    in the key square and replaced by the row rule (shift right), else the
    column rule (shift down), else the rectangle rule (swap columns). The
    C++ loop skips a pair with a letter missing from the lookup; the Python
    loop would raise instead. Both happen only for letters outside the
    alphabet, which normalisation never produces (`NoLookupFails`). */
module Cipher {
  import opened Alphabet
  import opened Normalizer
  import opened KeySquares
  import opened Pairing

  /** The three substitution rules on the cells (ra, ca) and (rb, cb), by priority. */
  function SubstituteCells(square: seq<seq<char>>, ra: int, ca: int, rb: int, cb: int): (out: (char, char))
    requires |square| == 5 && forall r :: 0 <= r < 5 ==> |square[r]| == 5
    requires 0 <= ra < 5 && 0 <= ca < 5 && 0 <= rb < 5 && 0 <= cb < 5
    ensures ra == rb || ca != cb ==> out.0 in square[ra] && out.1 in square[rb]
  {
    if ra == rb then (square[ra][(ca + 1) % 5], square[rb][(cb + 1) % 5])
    else if ca == cb then (square[(ra + 1) % 5][ca], square[(rb + 1) % 5][cb])
    else (square[ra][cb], square[rb][ca])
  }

  /** The ciphertext of one pair; empty when a letter has no lookup entry. */
  function EncryptPair(ks: KeySquare, p: Digraph): (c: string)
    requires WellFormed(ks)
    ensures |c| == if p.0 in ks.pos && p.1 in ks.pos then 2 else 0
  {
    if p.0 !in ks.pos || p.1 !in ks.pos then []
    else
      var (ra, ca) := ks.pos[p.0];
      var (rb, cb) := ks.pos[p.1];
      var (x, y) := SubstituteCells(ks.square, ra, ca, rb, cb);
      [x, y]
  }

  /** The ciphertext of a pair sequence: the pair ciphertexts in order. */
  function EncryptPairs(ks: KeySquare, pairs: seq<Digraph>): (c: string)
    requires WellFormed(ks)
    ensures |c| % 2 == 0 && |c| <= 2 * |pairs|
  {
    if pairs == [] then [] else EncryptPair(ks, pairs[0]) + EncryptPairs(ks, pairs[1..])
  }

  /** encrypt_playfair as a composition: the grid depends only on the key,
      the pairs only on the plaintext. */
  function EncryptText(plaintext: string, key: string): (c: string)
    ensures |c| == 2 * |Digraphs(Normalize(plaintext))|
  {
    NoLookupFails(plaintext, key);
    EncryptPairsRoundTrip(KeySquareOf(key), Digraphs(Normalize(plaintext)));
    EncryptPairs(KeySquareOf(key), Digraphs(Normalize(plaintext)))
  }

  // ---------------------------------------------------------------------------
  // The inverse, used to state what the substitution means

  /** The inverse rules: shift left, shift up, or swap columns. */
  function UnsubstituteCells(square: seq<seq<char>>, ra: int, ca: int, rb: int, cb: int): (char, char)
    requires |square| == 5 && forall r :: 0 <= r < 5 ==> |square[r]| == 5
    requires 0 <= ra < 5 && 0 <= ca < 5 && 0 <= rb < 5 && 0 <= cb < 5
  {
    if ra == rb then (square[ra][(ca + 4) % 5], square[rb][(cb + 4) % 5])
    else if ca == cb then (square[(ra + 4) % 5][ca], square[(rb + 4) % 5][cb])
    else (square[ra][cb], square[rb][ca])
  }

  function DecryptPair(ks: KeySquare, x: char, y: char): string
    requires WellFormed(ks)
  {
    if x !in ks.pos || y !in ks.pos then []
    else
      var (ra, ca) := ks.pos[x];
      var (rb, cb) := ks.pos[y];
      var (a, b) := UnsubstituteCells(ks.square, ra, ca, rb, cb);
      [a, b]
  }

  function DecryptText(ks: KeySquare, s: string): string
    requires WellFormed(ks)
  {
    if |s| < 2 then [] else DecryptPair(ks, s[0], s[1]) + DecryptText(ks, s[2..])
  }

  // ---------------------------------------------------------------------------
  // Properties

  /** Every letter of a pair is in the lookup. */
  predicate AllFound(ks: KeySquare, pairs: seq<Digraph>) {
    forall k :: 0 <= k < |pairs| ==> pairs[k].0 in ks.pos && pairs[k].1 in ks.pos
  }

  /** The substitution of one pair is undone by the inverse rules, and both
      substituted letters are grid letters. */
  lemma PairRoundTrip(ks: KeySquare, p: Digraph)
    requires Inverse(ks) && p.0 in ks.pos && p.1 in ks.pos
    ensures |EncryptPair(ks, p)| == 2
    ensures EncryptPair(ks, p)[0] in ks.pos && EncryptPair(ks, p)[1] in ks.pos
    ensures DecryptPair(ks, EncryptPair(ks, p)[0], EncryptPair(ks, p)[1]) == [p.0, p.1]
  {
    var (ra, ca) := ks.pos[p.0];
    var (rb, cb) := ks.pos[p.1];
    if ra == rb {
      var x, y := ks.square[ra][(ca + 1) % 5], ks.square[rb][(cb + 1) % 5];
      assert ks.pos[x] == (ra, (ca + 1) % 5) && ks.pos[y] == (rb, (cb + 1) % 5);
      assert ((ca + 1) % 5 + 4) % 5 == ca && ((cb + 1) % 5 + 4) % 5 == cb;
    } else if ca == cb {
      var x, y := ks.square[(ra + 1) % 5][ca], ks.square[(rb + 1) % 5][cb];
      assert ks.pos[x] == ((ra + 1) % 5, ca) && ks.pos[y] == ((rb + 1) % 5, cb);
      assert ((ra + 1) % 5 + 4) % 5 == ra && ((rb + 1) % 5 + 4) % 5 == rb;
    } else {
      var x, y := ks.square[ra][cb], ks.square[rb][ca];
      assert ks.pos[x] == (ra, cb) && ks.pos[y] == (rb, ca);
    }
  }

  lemma {:induction false} EncryptPairsAppend(ks: KeySquare, pairs: seq<Digraph>, p: Digraph)
    requires WellFormed(ks)
    ensures EncryptPairs(ks, pairs + [p]) == EncryptPairs(ks, pairs) + EncryptPair(ks, p)
  {
    if pairs != [] {
      assert (pairs + [p])[1..] == pairs[1..] + [p];
      EncryptPairsAppend(ks, pairs[1..], p);
    }
  }

  /** The ciphertext of the first i + 1 pairs extends that of the first i by pair i. */
  lemma EncryptPairsPrefix(ks: KeySquare, pairs: seq<Digraph>, i: int)
    requires WellFormed(ks) && 0 <= i < |pairs|
    ensures EncryptPairs(ks, pairs[..i + 1]) == EncryptPairs(ks, pairs[..i]) + EncryptPair(ks, pairs[i])
  {
    assert pairs[..i + 1] == pairs[..i] + [pairs[i]];
    EncryptPairsAppend(ks, pairs[..i], pairs[i]);
  }

  /** When every letter is found no pair is skipped: the ciphertext has two
      letters per pair, all of them grid letters, and decrypting gives back
      the letters of the pairs. */
  lemma {:induction false} EncryptPairsRoundTrip(ks: KeySquare, pairs: seq<Digraph>)
    requires Inverse(ks) && AllFound(ks, pairs)
    ensures |EncryptPairs(ks, pairs)| == 2 * |pairs|
    ensures forall k :: 0 <= k < |EncryptPairs(ks, pairs)| ==> EncryptPairs(ks, pairs)[k] in ks.pos
    ensures DecryptText(ks, EncryptPairs(ks, pairs)) == PairLetters(pairs)
  {
    if pairs != [] {
      var rest := pairs[1..];
      assert AllFound(ks, rest) by {
        forall k | 0 <= k < |rest| ensures rest[k].0 in ks.pos && rest[k].1 in ks.pos {
          assert rest[k] == pairs[k + 1];
        }
      }
      EncryptPairsRoundTrip(ks, rest);
      PairRoundTrip(ks, pairs[0]);
      var c := EncryptPairs(ks, pairs);
      var head, tail := EncryptPair(ks, pairs[0]), EncryptPairs(ks, rest);
      assert c == head + tail;
      assert c[2..] == tail;
      forall k | 0 <= k < |c| ensures c[k] in ks.pos {
        if k >= 2 {
          assert c[k] == tail[k - 2];
        } else {
          assert c[k] == head[k];
        }
      }
      assert c[0] == head[0] && c[1] == head[1];
      calc {
        DecryptText(ks, c);
        DecryptPair(ks, c[0], c[1]) + DecryptText(ks, tail);
        [pairs[0].0, pairs[0].1] + PairLetters(rest);
        PairLetters(pairs);
      }
    }
  }

  /** The pairs whose two letters both have a lookup entry, in order. */
  function FoundPairs(ks: KeySquare, pairs: seq<Digraph>): (found: seq<Digraph>)
    ensures AllFound(ks, found)
  {
    if pairs == [] then []
    else if pairs[0].0 in ks.pos && pairs[0].1 in ks.pos then [pairs[0]] + FoundPairs(ks, pairs[1..])
    else FoundPairs(ks, pairs[1..])
  }

  /** A pair with a letter missing from the lookup contributes nothing and
      every other pair contributes two letters. */
  lemma {:induction false} EncryptPairsSkip(ks: KeySquare, pairs: seq<Digraph>)
    requires WellFormed(ks)
    ensures EncryptPairs(ks, pairs) == EncryptPairs(ks, FoundPairs(ks, pairs))
    ensures |EncryptPairs(ks, pairs)| == 2 * |FoundPairs(ks, pairs)| <= 2 * |pairs|
  {
    if pairs != [] {
      EncryptPairsSkip(ks, pairs[1..]);
      var found := FoundPairs(ks, pairs);
      if pairs[0].0 in ks.pos && pairs[0].1 in ks.pos {
        assert found[0] == pairs[0] && found[1..] == FoundPairs(ks, pairs[1..]);
      }
    }
  }

  /** For any key and plaintext every pair letter has a lookup entry: the
      C++ skip is never taken and the Python lookups never fail. */
  lemma NoLookupFails(plaintext: string, key: string)
    ensures Inverse(KeySquareOf(key))
    ensures AllFound(KeySquareOf(key), Digraphs(Normalize(plaintext)))
  {
    KeySquareValid(key);
    DigraphsInAlphabet(Normalize(plaintext), 0);
  }

  /** The ciphertext has exactly two letters per pair, all alphabet letters,
      and the inverse rules recover the padded plaintext. */
  lemma EncryptTextProperties(plaintext: string, key: string)
    ensures |EncryptText(plaintext, key)| == 2 * |Digraphs(Normalize(plaintext))|
    ensures AllInAlphabet(EncryptText(plaintext, key))
    ensures DecryptText(KeySquareOf(key), EncryptText(plaintext, key)) == PairLetters(Digraphs(Normalize(plaintext)))
  {
    var ks, pairs := KeySquareOf(key), Digraphs(Normalize(plaintext));
    var out := EncryptText(plaintext, key);
    assert out == EncryptPairs(ks, pairs);
    NoLookupFails(plaintext, key);
    EncryptPairsRoundTrip(ks, pairs);
    forall k | 0 <= k < |out| ensures InAlphabet(out[k]) {
      KeySquareValid(key);
    }
  }

  // ---------------------------------------------------------------------------
  // The imperative encryptor

  /** The substitution loop of encrypt_playfair: append the substitution of
      each pair, skipping a pair whose lookup fails. */
  method SubstituteAll(ks: KeySquare, pairs: seq<Digraph>) returns (out: string)
    requires WellFormed(ks)
    ensures out == EncryptPairs(ks, pairs)
  {
    out := [];
    for i := 0 to |pairs|
      invariant out == EncryptPairs(ks, pairs[..i])
    {
      var (a, b) := pairs[i];
      EncryptPairsPrefix(ks, pairs, i);
      if a !in ks.pos || b !in ks.pos {
        continue;
      }
      var (ra, ca) := ks.pos[a];
      var (rb, cb) := ks.pos[b];
      ghost var prev := out;
      assert EncryptPair(ks, pairs[i]) == [SubstituteCells(ks.square, ra, ca, rb, cb).0, SubstituteCells(ks.square, ra, ca, rb, cb).1];
      if ra == rb {
        out := out + [ks.square[ra][(ca + 1) % 5]];
        out := out + [ks.square[rb][(cb + 1) % 5]];
      } else if ca == cb {
        out := out + [ks.square[(ra + 1) % 5][ca]];
        out := out + [ks.square[(rb + 1) % 5][cb]];
      } else {
        out := out + [ks.square[ra][cb]];
        out := out + [ks.square[rb][ca]];
      }
      assert out == prev + EncryptPair(ks, pairs[i]);
    }
    assert pairs[..|pairs|] == pairs;
  }

  /** encrypt_playfair: build the key square, prepare the pairs, substitute. */
  method EncryptPlayfair(plaintext: string, key: string) returns (out: string)
    ensures out == EncryptText(plaintext, key)
    ensures |out| == 2 * |Digraphs(Normalize(plaintext))|
    ensures AllInAlphabet(out)
  {
    var ks := BuildKeySquare(key);
    var pairs := PreparePlaintext(plaintext);
    out := SubstituteAll(ks, pairs);
    EncryptTextProperties(plaintext, key);
  }
}
