/** Key-square construction: the deduplicated key letters followed by the
    rest of the alphabet, laid row-major into a 5x5 grid, together with the
    inverse lookup from letter to (row, column). */
module KeySquares {
  import opened Alphabet
  import opened Normalizer

  /** The grid (five rows of five letters) and the letter -> (row, column) lookup. */
  datatype KeySquare = KeySquare(square: seq<seq<char>>, pos: map<char, (int, int)>)

  /** The grid has five rows of five letters and every lookup entry is a cell of it. */
  predicate WellFormed(ks: KeySquare) {
    |ks.square| == 5
    && (forall r :: 0 <= r < 5 ==> |ks.square[r]| == 5)
    && (forall ch :: ch in ks.pos ==> 0 <= ks.pos[ch].0 < 5 && 0 <= ks.pos[ch].1 < 5)
  }

  /** The lookup is the exact inverse of the grid, in both directions. */
  predicate Inverse(ks: KeySquare) {
    WellFormed(ks)
    && (forall ch :: ch in ks.pos ==> ks.square[ks.pos[ch].0][ks.pos[ch].1] == ch)
    && (forall r, c :: 0 <= r < 5 && 0 <= c < 5 ==>
          ks.square[r][c] in ks.pos && ks.pos[ks.square[r][c]] == (r, c))
  }

  // ---------------------------------------------------------------------------
  // The letter stream

  /** One step of the build loops: append `ch` if it is an alphabet letter
      that has not been placed yet (first occurrence wins). */
  function Push(stream: string, ch: char): (r: string)
    ensures stream <= r && |r| <= |stream| + 1
  {
    if ch in ALPHABET_25 && ch !in stream then stream + [ch] else stream
  }

  /** `Push` applied to each character of `s` in turn, starting from `stream`. */
  function PushAll(stream: string, s: string): (r: string)
    ensures stream <= r && |r| <= |stream| + |s|
    decreases |s|
  {
    if s == [] then stream
    else Push(PushAll(stream, s[..|s| - 1]), s[|s| - 1])
  }

  /** The distinct alphabet letters of the (normalised) key, in order of first occurrence. */
  function KeyLetters(k: string): (r: string)
    ensures |r| <= |k|
  {
    PushAll([], k)
  }

  /** The 25-letter stream: key letters first, then the rest of the alphabet. */
  function KeyStream(k: string): (r: string)
    ensures KeyLetters(k) <= r
  {
    PushAll(KeyLetters(k), ALPHABET_25)
  }

  /** Reference definition: the letters of `s` that are not in `st`, in the order of `s`. */
  function Missing(st: string, s: string): (m: string)
    ensures forall i :: 0 <= i < |m| ==> m[i] in s && m[i] !in st
    decreases |s|
  {
    if s == [] then []
    else
      var init := s[..|s| - 1];
      assert forall x :: x in init ==> x in s;
      Missing(st, init) + (if s[|s| - 1] in st then [] else [s[|s| - 1]])
  }

  /** The index of the first occurrence of `ch` in `s`. */
  function FirstIndex(s: string, ch: char): (k: nat)
    requires ch in s
    ensures k < |s| && s[k] == ch
    ensures forall i :: 0 <= i < k ==> s[i] != ch
  {
    if s[0] == ch then 0 else 1 + FirstIndex(s[1..], ch)
  }

  /** Row-major layout of a 25-letter stream: row r holds stream[5r .. 5r+5]. */
  function Grid(stream: string): (g: seq<seq<char>>)
    requires |stream| == 25
    ensures |g| == 5 && forall r :: 0 <= r < 5 ==> |g[r]| == 5
  {
    seq(5, r requires 0 <= r < 5 => stream[5 * r .. 5 * r + 5])
  }

  /** The lookup built from a repetition-free stream: letter at index i sits at (i / 5, i % 5). */
  function PosMap(stream: string): (m: map<char, (int, int)>)
    requires Distinct(stream)
  {
    map i | 0 <= i < |stream| :: stream[i] := (i / 5, i % 5)
  }

  /** The key square built from a raw key. */
  function KeySquareOf(key: string): (ks: KeySquare)
    ensures Inverse(ks)
  {
    var k := Normalize(key);
    KeyStreamPermutation(k);
    GridPosInverse(KeyStream(k));
    KeySquare(Grid(KeyStream(k)), PosMap(KeyStream(k)))
  }

  /** The rows of a grid concatenated in order. */
  function Flatten(rows: seq<seq<char>>): string {
    if rows == [] then [] else rows[0] + Flatten(rows[1..])
  }

  // ---------------------------------------------------------------------------
  // Properties of the stream

  /** Pushing keeps the stream repetition-free and inside the alphabet,
      only ever appends, and adds exactly the alphabet letters of `s`. */
  lemma {:induction false} PushAllProps(st: string, s: string)
    requires Distinct(st) && AllInAlphabet(st)
    ensures Distinct(PushAll(st, s)) && AllInAlphabet(PushAll(st, s))
    ensures st <= PushAll(st, s)
    ensures forall ch :: ch in PushAll(st, s) <==> ch in st || (ch in s && InAlphabet(ch))
    decreases |s|
  {
    if s != [] {
      var init, ch := s[..|s| - 1], s[|s| - 1];
      PushAllProps(st, init);
      var p := PushAll(st, init);
      MemberIff(ch);
      assert s == init + [ch];
      forall x ensures x in s <==> x in init || x == ch {
      }
      if ch in ALPHABET_25 && ch !in p {
        forall i, j | 0 <= i < j < |p| + 1 ensures (p + [ch])[i] != (p + [ch])[j] {
          if j == |p| {
            assert p[i] in p;
          }
        }
      }
    }
  }

  /** The stream is a permutation of the alphabet: 25 letters, each exactly once. */
  lemma KeyStreamPermutation(k: string)
    ensures |KeyStream(k)| == 25
    ensures Distinct(KeyStream(k)) && AllInAlphabet(KeyStream(k))
    ensures multiset(KeyStream(k)) == multiset(ALPHABET_25)
  {
    PushAllProps([], k);
    var p := KeyLetters(k);
    PushAllProps(p, ALPHABET_25);
    AlphabetWellFormed();
    forall x ensures x in KeyStream(k) <==> x in ALPHABET_25 {
      MemberIff(x);
    }
    SameMembersPermutation(KeyStream(k), ALPHABET_25);
  }

  /** Pushing a repetition-free run of alphabet letters appends exactly those not yet placed. */
  lemma {:induction false} PushAllMissing(st: string, s: string)
    requires Distinct(s) && AllInAlphabet(s)
    ensures PushAll(st, s) == st + Missing(st, s)
    decreases |s|
  {
    if s != [] {
      var init, ch := s[..|s| - 1], s[|s| - 1];
      assert Distinct(init) && AllInAlphabet(init);
      PushAllMissing(st, init);
      MemberIff(ch);
      assert ch !in init by {
        forall i | 0 <= i < |init| ensures init[i] != ch {
          assert init[i] == s[i];
        }
      }
      assert ch !in Missing(st, init);
    }
  }

  /** Grid order: the key letters in order of first occurrence, then the
      remaining alphabet letters in canonical order. */
  lemma KeyStreamOrder(k: string)
    ensures KeyStream(k) == KeyLetters(k) + Missing(KeyLetters(k), ALPHABET_25)
  {
    AlphabetWellFormed();
    PushAllMissing(KeyLetters(k), ALPHABET_25);
  }

  lemma {:induction false} FirstIndexAppend(s: string, c: char, x: char)
    requires x in s
    ensures FirstIndex(s + [c], x) == FirstIndex(s, x)
  {
    if s[0] != x {
      assert (s + [c])[1..] == s[1..] + [c];
      FirstIndexAppend(s[1..], c, x);
    }
  }

  /** The key letters are exactly the alphabet letters of the key, each once,
      ordered by where they first occur in the key. */
  lemma {:induction false} KeyLettersFirstOccurrence(k: string)
    ensures Distinct(KeyLetters(k))
    ensures forall ch :: ch in KeyLetters(k) <==> ch in k && InAlphabet(ch)
    ensures forall i, j :: 0 <= i < j < |KeyLetters(k)| ==>
              KeyLetters(k)[i] in k && KeyLetters(k)[j] in k &&
              FirstIndex(k, KeyLetters(k)[i]) < FirstIndex(k, KeyLetters(k)[j])
    decreases |k|
  {
    PushAllProps([], k);
    if k != [] {
      var init, c := k[..|k| - 1], k[|k| - 1];
      assert k == init + [c];
      KeyLettersFirstOccurrence(init);
      var p := KeyLetters(init);
      assert KeyLetters(k) == Push(p, c);
      forall x | x in p ensures x in k && FirstIndex(k, x) == FirstIndex(init, x) < |init| {
        FirstIndexAppend(init, c, x);
      }
      if c in ALPHABET_25 && c !in p {
        MemberIff(c);
        assert c !in init;
        assert FirstIndex(k, c) == |init| by {
          forall i | 0 <= i < |init| ensures k[i] != c {
            assert k[i] == init[i];
          }
        }
        forall i, j | 0 <= i < j < |p| + 1
          ensures FirstIndex(k, (p + [c])[i]) < FirstIndex(k, (p + [c])[j])
        {
          assert (p + [c])[i] == p[i] && p[i] in p;
          if j < |p| {
            assert (p + [c])[j] == p[j] && p[j] in p;
          }
        }
      }
    }
  }

  lemma {:induction false} KeepLettersNone(s: string)
    requires forall i :: 0 <= i < |s| ==> !IsAsciiLetter(s[i])
    ensures KeepLetters(s) == []
  {
    if s != [] {
      KeepLettersNone(s[1..]);
    }
  }

  lemma {:induction false} MissingNone(s: string)
    ensures Missing([], s) == s
    decreases |s|
  {
    if s != [] {
      MissingNone(s[..|s| - 1]);
    }
  }

  /** An empty or letter-free key gives the canonical grid. */
  lemma CanonicalGrid(key: string)
    requires forall i :: 0 <= i < |key| ==> !IsAsciiLetter(key[i])
    ensures KeyStream(Normalize(key)) == ALPHABET_25
    ensures KeySquareOf(key).square == Grid(ALPHABET_25)
  {
    KeepLettersNone(key);
    assert Normalize(key) == [];
    KeyStreamOrder([]);
    MissingNone(ALPHABET_25);
  }

  // ---------------------------------------------------------------------------
  // Properties of the square

  lemma FlattenGrid(stream: string)
    requires |stream| == 25
    ensures Flatten(Grid(stream)) == stream
  {
    var g := Grid(stream);
    assert g[1..][1..][1..][1..][1..] == [];
    assert Flatten(g[1..][1..][1..][1..]) == g[4];
    assert Flatten(g[1..][1..][1..]) == g[3] + g[4];
    assert Flatten(g[1..][1..]) == g[2] + g[3] + g[4];
    assert Flatten(g[1..]) == g[1] + g[2] + g[3] + g[4];
    assert stream == g[0] + g[1] + g[2] + g[3] + g[4];
  }

  /** The letter at stream index i is recorded at (i / 5, i % 5). */
  lemma PosMapAt(stream: string, i: int)
    requires Distinct(stream) && 0 <= i < |stream|
    ensures stream[i] in PosMap(stream) && PosMap(stream)[stream[i]] == (i / 5, i % 5)
  {
  }

  /** The grid of a repetition-free 25-letter stream and its `PosMap` invert each other,
      and the lookup has an entry for exactly the letters of the stream. */
  lemma GridPosInverse(stream: string)
    requires |stream| == 25 && Distinct(stream)
    ensures Inverse(KeySquare(Grid(stream), PosMap(stream)))
    ensures forall ch :: ch in PosMap(stream) <==> ch in stream
  {
    var square, pos := Grid(stream), PosMap(stream);
    forall ch | ch in pos
      ensures 0 <= pos[ch].0 < 5 && 0 <= pos[ch].1 < 5
      ensures square[pos[ch].0][pos[ch].1] == ch
    {
      var i :| 0 <= i < 25 && stream[i] == ch;
      PosMapAt(stream, i);
      assert 5 * (i / 5) + i % 5 == i;
      assert square[i / 5] == stream[5 * (i / 5) .. 5 * (i / 5) + 5];
    }
    forall r, c | 0 <= r < 5 && 0 <= c < 5
      ensures square[r][c] in pos && pos[square[r][c]] == (r, c)
    {
      var i := 5 * r + c;
      assert square[r] == stream[5 * r .. 5 * r + 5];
      assert square[r][c] == stream[i];
      PosMapAt(stream, i);
      assert i / 5 == r && i % 5 == c;
    }
    forall ch ensures ch in pos <==> ch in stream {
      if ch in stream {
        var i :| 0 <= i < 25 && stream[i] == ch;
        PosMapAt(stream, i);
      }
    }
  }

  /** The grid of a 25-letter permutation of the alphabet holds the alphabet,
      and its lookup has an entry for exactly the alphabet letters. */
  lemma PermutationSquare(s: string)
    requires |s| == 25 && Distinct(s) && multiset(s) == multiset(ALPHABET_25)
    ensures multiset(Flatten(Grid(s))) == multiset(ALPHABET_25)
    ensures forall ch :: ch in PosMap(s) <==> InAlphabet(ch)
  {
    GridPosInverse(s);
    FlattenGrid(s);
    forall ch ensures ch in s <==> InAlphabet(ch) {
      MemberIff(ch);
      assert ch in s <==> ch in multiset(s);
    }
  }

  /** build_key_square returns five rows of five letters that together are a
      permutation of the alphabet, and a lookup that is the exact inverse of the
      grid (`KeySquareOf`) with an entry for exactly the 25 alphabet letters. */
  lemma KeySquareValid(key: string)
    ensures multiset(Flatten(KeySquareOf(key).square)) == multiset(ALPHABET_25)
    ensures forall ch :: ch in KeySquareOf(key).pos <==> InAlphabet(ch)
  {
    var k := Normalize(key);
    KeyStreamPermutation(k);
    var s := KeyStream(k);
    assert KeySquareOf(key) == KeySquare(Grid(s), PosMap(s));
    PermutationSquare(s);
  }

  // ---------------------------------------------------------------------------
  // The imperative builder

  /** `seen[i]` records whether letter 'A' + i has been placed in the stream. */
  ghost predicate Tracks(seen: array<bool>, stream: string)
    reads seen
  {
    seen.Length == 26
    && Distinct(stream) && AllInAlphabet(stream)
    && forall i :: 0 <= i < 26 ==> (seen[i] <==> ('A' as int + i) as char in stream)
  }

  /** The push_if_ok step: ignore anything outside 'A'..'Z' and 'J'; append a
      letter of the alphabet that is not yet marked in `seen`, and mark it. */
  method PushIfOk(seen: array<bool>, stream: string, ch: char) returns (stream': string)
    requires Tracks(seen, stream)
    modifies seen
    ensures Tracks(seen, stream')
    ensures stream' == Push(stream, ch)
  {
    stream' := stream;
    MemberIff(ch);
    if ch < 'A' || ch > 'Z' {
      return;
    }
    if ch == 'J' {
      return;
    }
    var idx := ch as int - 'A' as int;
    assert ('A' as int + idx) as char == ch;
    if !seen[idx] && ch in ALPHABET_25 {
      seen[idx] := true;
      stream' := stream + [ch];
      forall i, j | 0 <= i < j < |stream'| ensures stream'[i] != stream'[j] {
        if j == |stream| {
          assert stream[i] in stream;
        }
      }
    }
  }

  /** The lookup built so far holds, for each of the first `n` stream letters,
      its (row, column), and nothing else. */
  ghost predicate PosUpTo(stream: string, pos: map<char, (int, int)>, n: int)
    requires |stream| == 25 && 0 <= n <= 25
  {
    (forall ch :: ch in pos ==> 0 <= pos[ch].0 < 5 && 0 <= pos[ch].1 < 5 && ch in stream[..n])
    && (forall i :: 0 <= i < n ==> stream[i] in pos && 5 * pos[stream[i]].0 + pos[stream[i]].1 == i)
  }

  /** Recording cell (r, c) for the next stream letter extends the lookup by one. */
  lemma PosUpToStep(stream: string, pos: map<char, (int, int)>, r: int, c: int)
    requires |stream| == 25 && Distinct(stream)
    requires 0 <= r < 5 && 0 <= c < 5 && PosUpTo(stream, pos, 5 * r + c)
    ensures PosUpTo(stream, pos[stream[5 * r + c] := (r, c)], 5 * r + c + 1)
  {
  }

  lemma PosUpToComplete(stream: string, pos: map<char, (int, int)>)
    requires |stream| == 25 && Distinct(stream) && PosUpTo(stream, pos, 25)
    ensures pos == PosMap(stream)
  {
    var m := PosMap(stream);
    forall ch | ch in pos ensures ch in m && m[ch] == pos[ch] {
      PosUpToEntry(stream, pos, ch);
    }
    forall ch | ch in m ensures ch in pos {
      var i :| 0 <= i < 25 && stream[i] == ch;
    }
  }

  /** An entry of the complete partial lookup is the `PosMap` entry. */
  lemma PosUpToEntry(stream: string, pos: map<char, (int, int)>, ch: char)
    requires |stream| == 25 && Distinct(stream) && PosUpTo(stream, pos, 25) && ch in pos
    ensures ch in PosMap(stream) && PosMap(stream)[ch] == pos[ch]
  {
    assert stream[..25] == stream;
    var i :| 0 <= i < 25 && stream[i] == ch;
    var (r, c) := pos[ch];
    assert 5 * r + c == i && 0 <= c < 5;
    assert i / 5 == r && i % 5 == c;
    PosMapAt(stream, i);
  }

  /** The first r + 1 rows of the grid are its first r rows and row r. */
  lemma GridPrefixStep(stream: string, r: int)
    requires |stream| == 25 && 0 <= r < 5
    ensures Grid(stream)[..r + 1] == Grid(stream)[..r] + [stream[5 * r .. 5 * r + 5]]
  {
  }

  /** The two push loops of build_key_square: first the key, then the alphabet. */
  method BuildStream(k: string) returns (stream: string)
    ensures stream == KeyStream(k)
  {
    var seen := new bool[26](_ => false);
    stream := [];
    for i := 0 to |k|
      invariant Tracks(seen, stream)
      invariant stream == PushAll([], k[..i])
    {
      assert k[..i + 1][..i] == k[..i];
      stream := PushIfOk(seen, stream, k[i]);
    }
    assert k[..|k|] == k;
    for i := 0 to |ALPHABET_25|
      invariant Tracks(seen, stream)
      invariant stream == PushAll(KeyLetters(k), ALPHABET_25[..i])
    {
      assert ALPHABET_25[..i + 1][..i] == ALPHABET_25[..i];
      stream := PushIfOk(seen, stream, ALPHABET_25[i]);
    }
    assert ALPHABET_25[..25] == ALPHABET_25;
  }

  /** One pass of the inner fill loop: row r gets stream[r * 5 .. r * 5 + 5]
      and the lookup records (r, c) for each of its letters. */
  method FillRow(stream: string, r: int, pos: map<char, (int, int)>) returns (row: seq<char>, pos': map<char, (int, int)>)
    requires |stream| == 25 && Distinct(stream)
    requires 0 <= r < 5 && PosUpTo(stream, pos, 5 * r)
    ensures row == stream[5 * r .. 5 * r + 5]
    ensures PosUpTo(stream, pos', 5 * r + 5)
  {
    row, pos' := [], pos;
    for c := 0 to 5
      invariant row == stream[5 * r .. 5 * r + c]
      invariant PosUpTo(stream, pos', 5 * r + c)
    {
      var ch := stream[r * 5 + c];
      assert stream[5 * r .. 5 * r + c + 1] == stream[5 * r .. 5 * r + c] + [ch];
      row := row + [ch];
      PosUpToStep(stream, pos', r, c);
      pos' := pos'[ch := (r, c)];
    }
  }

  /** The nested fill of build_key_square: cell (r, c) gets stream[r * 5 + c]
      and the lookup records (r, c) for that letter. */
  method FillSquare(stream: string) returns (ks: KeySquare)
    requires |stream| == 25 && Distinct(stream)
    ensures ks == KeySquare(Grid(stream), PosMap(stream))
  {
    var square: seq<seq<char>> := [];
    var pos: map<char, (int, int)> := map[];
    for r := 0 to 5
      invariant square == Grid(stream)[..r]
      invariant PosUpTo(stream, pos, 5 * r)
    {
      var row;
      row, pos := FillRow(stream, r, pos);
      GridPrefixStep(stream, r);
      square := square + [row];
    }
    assert Grid(stream)[..5] == Grid(stream);
    PosUpToComplete(stream, pos);
    ks := KeySquare(square, pos);
  }

  /** build_key_square: normalise the key, build the stream, fill the square. */
  method BuildKeySquare(key: string) returns (ks: KeySquare)
    ensures ks == KeySquareOf(key)
    ensures Inverse(ks)
  {
    var k := NormalizeLetters(key);
    var stream := BuildStream(k);
    KeyStreamPermutation(k);
    ks := FillSquare(stream);
    KeySquareValid(key);
  }
}
