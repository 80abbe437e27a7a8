/** Worked inputs: what the model computes for a few small plaintexts. */
module Scenarios {
  import opened Normalizer
  import opened Pairing
  import opened Cipher

  /** Letters are kept and upper-cased, J becomes I. */
  lemma NormalizeJoy()
    ensures Normalize("joy") == "IOY"
  {
  }

  /** A doubled letter is split by the filler and the cursor re-reads the second copy. */
  lemma HelloPairs()
    ensures Digraphs(Normalize("HELLO")) == [('H', 'E'), ('L', 'X'), ('L', 'O')]
  {
  }

  /** The lone final letter is padded: INSTRUMENTS gives IN ST RU ME NT SX. */
  lemma InstrumentsPairs()
    ensures Digraphs("INSTRUMENTS") == [('I', 'N'), ('S', 'T'), ('R', 'U'), ('M', 'E'), ('N', 'T'), ('S', 'X')]
  {
  }

  /** An X at the cursor pairs with itself: "XX" gives two (X, X) pairs. */
  lemma DoubleFillerPairs()
    ensures Digraphs("XX") == [('X', 'X'), ('X', 'X')]
  {
  }

  /** An empty plaintext encrypts to the empty string under any key. */
  lemma EmptyPlaintext(key: string)
    ensures EncryptText("", key) == ""
  {
  }
}
