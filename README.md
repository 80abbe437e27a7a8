# Playfair cipher encryptor — Dafny model

This project models the Playfair encryptor of `BT1/playfair.py` and
`BT1/playfair.cpp`. The two files implement the same algorithm step for
step, so one model serves both:

1. **Normalisation** (`Normalizer`): keep the ASCII letters, upper-case
   them, and replace J by I. `Normalize` follows the Python expression chain
   (regular-expression deletion, `upper`, `replace`). `NormalizeLetters`
   follows the C++ character loop and is proved to compute the same string.
2. **Key square** (`KeySquares`): the distinct alphabet letters of the
   normalised key come first, in order of first occurrence. The rest of the
   25-letter alphabet `ABCDEFGHIKLMNOPQRSTUVWXYZ` follows in canonical order.
   The 25 letters are laid row-major into a 5×5 grid, with a lookup from
   letter to (row, column). The builder keeps the C++ `seen[26]` array and the
   `push_if_ok` guard.
3. **Digraph preparation** (`Pairing`): a cursor walks the normalised text.
   Two equal letters give `(a, 'X')` and the cursor advances by 1. Otherwise
   the pair is `(a, b)` and it advances by 2. A lone final letter is paired
   with `'X'`.
4. **Substitution** (`Cipher`): the priority is same row (shift right, mod 5),
   then same column (shift down, mod 5), then rectangle (swap columns). The
   C++ loop skips a pair with a letter missing from the lookup. This is
   proved never to happen for normalised input, which is also why the Python
   lookups never fail.

Each imperative loop of the source is a Dafny method proved against a
specification function: `NormalizeLetters` against `Normalize`,
`BuildKeySquare` against `KeySquareOf`, `PreparePlaintext` against
`Digraphs`, and `EncryptPlayfair` against `EncryptText`. The lemmas state the
properties of those functions. As a reference partner for substitution, the
model defines the inverse rules (`DecryptText`: shift left, shift up, swap
columns) and proves that they undo encryption. The source has no decryption.

Where this code differs from the textbook description of Playfair, the model
follows the code:
- A digraph can have two equal letters: text `X` or `XX` gives the pair
  `(X, X)` (`EqualPairIsFiller`, `DoubleFillerPairs`).
- For key `MONARCHY` and plaintext `INSTRUMENTS`, the code pads the final S
  with X: IN ST RU ME NT SX (`InstrumentsPairs`). The textbook example pads
  with Z and gives `GATLMZCLRQTX`. Worked by hand through the MONARCHY square,
  the code's pairs give `GATLMZCLRQXA`. Only the pairing is proved; the
  ciphertext is a hand computation.
- The cursor of `prepare_plaintext` can stop at `len(text) + 1`: a lone final
  letter other than X advances it by 2. The loop test is `<`, so this is
  harmless. The loop invariant is `i <= |text| + 1`.

## Model

| member | source | states |
|---|---|---|
| `Alphabet.MemberIff` | BT1/playfair.py:2 | a character is in the alphabet string exactly when it is an upper-case letter A–Z other than J |
| `Alphabet.AlphabetWellFormed` | BT1/playfair.cpp:11 | the alphabet has 25 distinct letters and contains the filler X |
| `Alphabet.IndexOf` | BT1/playfair.cpp:11 | every alphabet letter sits at a position below 25 of the alphabet string |
| `Normalizer.KeepLetters` | BT1/playfair.py:6 | deleting non-letters keeps only ASCII letters and never lengthens the text |
| `Normalizer.UpperAll` | BT1/playfair.py:6 | `.upper()` keeps the length, turns every ASCII letter into A–Z and leaves upper-case letters unchanged |
| `Normalizer.ReplaceJ` | BT1/playfair.py:7 | `.replace("J", "I")` keeps the length, leaves no J and changes no other character |
| `Normalizer.Normalize` | BT1/playfair.py:4-7 | normalised text is no longer than the input and holds only alphabet letters: upper case, never J |
| `Normalizer.NormalizeAppend` | BT1/playfair.py:6-7 | normalisation works character by character, left to right |
| `Normalizer.NormalizeFixpoint` | BT1/playfair.py:6-7 | a string of alphabet letters is left unchanged |
| `Normalizer.NormalizeIdempotent` | BT1/playfair.py:4-7 | normalising twice gives the same result as normalising once |
| `Normalizer.NormalizeLetters` | BT1/playfair.cpp:13-26 | the C++ loop computes exactly the Python normal form |
| `KeySquares.Push` | BT1/playfair.py:21-23 | one step of the build loops: the stream only ever grows, by at most the scanned letter (admitted when it is an alphabet letter not yet placed) |
| `KeySquares.PushAll` | BT1/playfair.cpp:40-51 | the push step over a whole string, left to right: the start is kept as a prefix and at most one letter is added per character |
| `KeySquares.KeyLetters` | BT1/playfair.py:20-23 | the first loop over the normalised key yields no more letters than the key has |
| `KeySquares.KeyStream` | BT1/playfair.py:25-28 | the second loop over the alphabet only appends after the key letters |
| `KeySquares.PushAllProps` | BT1/playfair.py:18-28 | the build loops keep the stream free of repeats and inside the alphabet; they only append, and they add exactly the alphabet letters scanned |
| `KeySquares.KeyStreamPermutation` | BT1/playfair.cpp:50-51 | after both passes the stream holds 25 letters, a permutation of the alphabet, so `stream[r*5+c]` is in bounds |
| `KeySquares.Missing` | BT1/playfair.py:25-28 | the reference filter yields only letters of the scanned string that are not yet placed |
| `KeySquares.PushAllMissing` | BT1/playfair.py:25-28 | scanning the alphabet appends exactly the letters not yet placed, in canonical order |
| `KeySquares.KeyStreamOrder` | BT1/playfair.py:20-28 | the stream is the key letters followed by the remaining alphabet letters in canonical order |
| `KeySquares.FirstIndex` | BT1/playfair.py:20-23 | the first-occurrence index points at the letter, and no earlier position holds it |
| `KeySquares.FirstIndexAppend` | BT1/playfair.py:20-23 | appending a character does not move an earlier first occurrence |
| `KeySquares.KeyLettersFirstOccurrence` | BT1/playfair.py:20-23 | the key letters are the alphabet letters of the key, each once, ordered by first occurrence (first occurrence wins) |
| `KeySquares.KeepLettersNone` | BT1/playfair.py:16 | a key with no ASCII letter normalises to the empty string |
| `KeySquares.MissingNone` | BT1/playfair.py:25-28 | with nothing placed, the alphabet scan keeps every letter |
| `KeySquares.CanonicalGrid` | BT1/playfair.py:20-30 | an empty or letter-free key gives the canonical alphabet grid |
| `KeySquares.FlattenGrid` | BT1/playfair.py:30 | the five rows read in order give back the 25-letter stream |
| `KeySquares.GridPosInverse` | BT1/playfair.py:30-31 | the row-major grid and the position map invert each other, with coordinates in [0,4] |
| `KeySquares.Grid` | BT1/playfair.py:30 | slicing the stream row-major gives five rows of five letters |
| `KeySquares.PosMap` | BT1/playfair.py:31 | the lookup sends the letter at stream index i to (i / 5, i % 5); its properties are stated by `PosMapAt` and `GridPosInverse` |
| `KeySquares.PosMapAt` | BT1/playfair.py:31 | the letter at stream index i is in the lookup, at (i / 5, i % 5) |
| `KeySquares.KeySquareOf` | BT1/playfair.py:9-32 | the built key square has a lookup that is the exact inverse of its 5×5 grid |
| `KeySquares.PermutationSquare` | BT1/playfair.py:30-31 | the grid of any 25-letter permutation of the alphabet holds the alphabet, and its lookup covers exactly the alphabet letters |
| `KeySquares.KeySquareValid` | BT1/playfair.py:18-31 | the grid is a permutation of the alphabet and the lookup has an entry for exactly the 25 alphabet letters |
| `KeySquares.PushIfOk` | BT1/playfair.cpp:40-48 | characters outside A–Z and J are ignored; an unseen alphabet letter is appended and marked in `seen`; `seen` tracks the stream |
| `KeySquares.PosUpToStep` | BT1/playfair.cpp:56-58 | recording one more cell extends the partial lookup without disturbing earlier entries |
| `KeySquares.PosUpToComplete` | BT1/playfair.cpp:54-60 | after all 25 cells the lookup is exactly the position map |
| `KeySquares.PosUpToEntry` | BT1/playfair.cpp:58 | each entry recorded by the fill equals the position-map entry for that letter |
| `KeySquares.GridPrefixStep` | BT1/playfair.cpp:54-57 | filling row r extends the first r grid rows by the stream slice for row r |
| `KeySquares.BuildStream` | BT1/playfair.cpp:36-51 | the two push loops over the key and then the alphabet compute the key stream |
| `KeySquares.FillRow` | BT1/playfair.cpp:55-59 | one pass of the inner loop fills row r with the next five stream letters and records their cells in the lookup |
| `KeySquares.FillSquare` | BT1/playfair.cpp:53-60 | the nested fill gives the row-major grid and its position map |
| `KeySquares.BuildKeySquare` | BT1/playfair.cpp:33-62 | `build_key_square` returns the key square of the normalised key, whose lookup inverts its grid |
| `Pairing.DigraphsFrom` | BT1/playfair.py:44-55 | the cursor loop from position i: it emits a pair exactly while letters remain; a doubled letter gives (a, X) and a one-letter step, otherwise (a, b) or (a, X) at the end and a two-letter step |
| `Pairing.Digraphs` | BT1/playfair.py:41-55 | the pairs of a text: there are none exactly when the text is empty |
| `Pairing.DigraphsInAlphabet` | BT1/playfair.py:45-54 | every pair of a normalised text consists of alphabet letters |
| `Pairing.EqualPairIsFiller` | BT1/playfair.py:49-54 | a pair has two equal letters only when it is (X, X) |
| `Pairing.DigraphsCount` | BT1/playfair.py:45-54 | each step consumes one or two letters: n letters give between ⌈n/2⌉ and n pairs |
| `Pairing.DigraphsInsertOnlyFiller` | BT1/playfair.py:45-54 | the pair letters, read in order, are the text with only filler X letters inserted |
| `Pairing.PreparePlaintext` | BT1/playfair.cpp:64-88 | the cursor loop terminates and yields the pairs of the normalised text, with the letter, equal-pair, count and filler properties above |
| `Cipher.SubstituteCells` | BT1/playfair.cpp:107-119 | the three rules by priority: same row shifts right, same column shifts down, otherwise the columns are swapped; every rule but the column rule keeps each letter in its row |
| `Cipher.EncryptPair` | BT1/playfair.cpp:98-119 | one pair gives two letters when both letters are in the lookup and nothing otherwise (the `continue`) |
| `Cipher.EncryptPairs` | BT1/playfair.cpp:97-120 | the ciphertext of a pair list has even length and at most two letters per pair |
| `Cipher.EncryptPairsPrefix` | BT1/playfair.cpp:97-120 | one more pass of the loop appends the ciphertext of the next pair |
| `Cipher.EncryptText` | BT1/playfair.py:57-80 | `encrypt_playfair` composes the key square of the key with the pairs of the plaintext; the output has exactly two letters per pair |
| `Cipher.PairRoundTrip` | BT1/playfair.py:64-78 | substituting a pair gives two grid letters, and shifting left, shifting up or swapping columns recovers the pair |
| `Cipher.EncryptPairsAppend` | BT1/playfair.py:63-80 | the ciphertext of a pair list is built pair by pair, in order |
| `Cipher.EncryptPairsRoundTrip` | BT1/playfair.py:63-80 | when every letter is found, the ciphertext has exactly two grid letters per pair and decrypts to the pair letters |
| `Cipher.FoundPairs` | BT1/playfair.cpp:98-102 | the pairs kept by the lookup guard have both letters in the lookup |
| `Cipher.EncryptPairsSkip` | BT1/playfair.cpp:97-102 | a pair with a letter missing from the lookup contributes nothing and every other pair two letters, so the ciphertext never has more than two letters per pair |
| `Cipher.NoLookupFails` | BT1/playfair.cpp:97-102 | for every key and plaintext each pair letter is in the lookup, so the skip is never taken |
| `Cipher.EncryptTextProperties` | BT1/playfair.py:57-80 | the ciphertext length is twice the number of pairs, every letter is in the alphabet, and decryption recovers the padded plaintext |
| `Cipher.SubstituteAll` | BT1/playfair.cpp:94-122 | the substitution loop computes the row/column/rectangle substitution of every pair, skipping lookup failures |
| `Cipher.EncryptPlayfair` | BT1/playfair.cpp:90-123 | encryption composes the key square of the key with the pairs of the plaintext; the output has two alphabet letters per pair |
| `Scenarios.NormalizeJoy` | BT1/playfair.py:6-7 | "joy" normalises to "IOY" |
| `Scenarios.HelloPairs` | BT1/playfair.py:45-54 | HELLO pairs as HE LX LO |
| `Scenarios.InstrumentsPairs` | BT1/playfair.py:45-54 | INSTRUMENTS pairs as IN ST RU ME NT SX |
| `Scenarios.DoubleFillerPairs` | BT1/playfair.py:47-50 | XX pairs as (X, X) twice |
| `Scenarios.EmptyPlaintext` | BT1/playfair.py:57-80 | an empty plaintext encrypts to the empty string under any key |

## Left out

- The console wrappers: `main` (BT1/playfair.cpp:125-140) and the `__main__` block (BT1/playfair.py:82-85). They only prompt, read a line and print.
- Characters are Dafny `char`s read under ASCII / C-locale rules. Locale-dependent `isalpha`/`toupper` on bytes of 128 and above is not modelled. Neither is the difference between C++ bytes and Python Unicode strings. The Python pattern `[^A-Za-z]` also keeps only ASCII letters.
- `re.sub`, `str.upper` and `str.replace` are modelled by their effect on ASCII text, not their implementation.
- `unordered_map` hashing and the `reserve` capacity hints are not modelled. The lookup is a Dafny `map`.
- The C++ fixed `array<array<char, 5>, 5>` is modelled as a value: a sequence of five rows. The struct is returned by value and never changed after the fill. The Python `seen` set is modelled by the C++ 26-entry `seen` array; both guards admit the same letters (`Push`).
- `BuildStream`, `FillSquare`, `FillRow` and `SubstituteAll` are the loops of single source functions (`build_key_square`, `encrypt_playfair`), verified as separate methods.
- The Python `pos[a]` lookup would raise `KeyError` on a missing letter. The model follows the C++ skip instead; `NoLookupFails` shows that neither path is reachable.
- Decryption is not part of the source. `DecryptText` is only a reference inverse used to state what the substitution does.
- The complete MONARCHY / INSTRUMENTS ciphertext is not proved as a worked case. Unfolding the key stream of a literal key takes the solver many more steps than the other proofs, so the model proves only its pairs (`InstrumentsPairs`). The general properties cover the ciphertext.
