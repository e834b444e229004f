/** redisBitpos of bitops.c: the first set or clear bit of a string, skipping whole words.  A word is
    its eight bytes, first byte most significant, as the source loads it. */
module Bitpos {
  import opened Bits
  import opened Bitfield

  const WORD := 8

  /** The byte none of whose bits is `bit`. */
  function Skip(bit: bool): bv8 { if bit then 0 else 255 }

  lemma SkipByte(b: bv8, bit: bool)
    ensures b == Skip(bit) <==> (BitOf(b, 0) != bit && BitOf(b, 1) != bit && BitOf(b, 2) != bit && BitOf(b, 3) != bit &&
                                 BitOf(b, 4) != bit && BitOf(b, 5) != bit && BitOf(b, 6) != bit && BitOf(b, 7) != bit)
  {}

  /** No bit before `n` is `bit`. */
  ghost predicate NoneBefore(s: seq<bv8>, n: nat, bit: bool)
    requires n <= 8 * |s|
  {
    forall i: nat | i < n :: BitAt(s, i) != bit
  }

  lemma {:induction false} SkippedByte(s: seq<bv8>, p: nat, bit: bool)
    requires p < |s| && NoneBefore(s, 8 * p, bit) && s[p] == Skip(bit)
    ensures NoneBefore(s, 8 * p + 8, bit)
  {
    hide BitOf;
    SkipByte(s[p], bit);
    forall i: nat | 8 * p <= i < 8 * p + 8 ensures BitAt(s, i) != bit {
      assert i / 8 == p;
      Cases(7 - i % 8);
    }
  }

  lemma Cases(k: nat)
    requires k < 8
    ensures k == 0 || k == 1 || k == 2 || k == 3 || k == 4 || k == 5 || k == 6 || k == 7
  {}

  /** A byte that is not skipped has a bit that matches. */
  lemma {:induction false} MatchIn(s: seq<bv8>, p: nat, bit: bool) returns (i: nat)
    requires p < |s| && s[p] != Skip(bit)
    ensures 8 * p <= i < 8 * p + 8 && BitAt(s, i) == bit
  {
    hide BitOf;
    SkipByte(s[p], bit);
    var k := if BitOf(s[p], 0) == bit then 0 else if BitOf(s[p], 1) == bit then 1 else if BitOf(s[p], 2) == bit then 2
             else if BitOf(s[p], 3) == bit then 3 else if BitOf(s[p], 4) == bit then 4
             else if BitOf(s[p], 5) == bit then 5
             else if BitOf(s[p], 6) == bit then 6 else 7;
    i := 8 * p + (7 - k);
    assert i / 8 == p && i % 8 == 7 - k;
  }

  function Repeat(b: bv8, n: nat): seq<bv8> { seq(n, i => b) }

  /** Skipping words, all at aligned addresses. */
  method SkipWords(s: seq<bv8>, ghost align: nat, start: nat, bit: bool) returns (p: nat)
    requires start <= |s| && NoneBefore(s, 8 * start, bit) && (start < |s| ==> (align + start) % WORD == 0)
    ensures start <= p <= |s| && NoneBefore(s, 8 * p, bit)
    ensures |s| - p < WORD || s[p..p + WORD] != Repeat(Skip(bit), WORD)
  {
    p := start;
    while |s| - p >= WORD
      invariant start <= p <= |s| && NoneBefore(s, 8 * p, bit) && (p < |s| ==> (align + p) % WORD == 0)
      decreases |s| - p
    {
      if s[p..p + WORD] != Repeat(Skip(bit), WORD) { return; }
      SkippedWord(s, p, bit);
      p := p + WORD;
    }
  }

  lemma {:induction false} SkippedWord(s: seq<bv8>, p: nat, bit: bool)
    requires p + WORD <= |s| && NoneBefore(s, 8 * p, bit) && s[p..p + WORD] == Repeat(Skip(bit), WORD)
    ensures NoneBefore(s, 8 * (p + WORD), bit)
  {
    hide BitAt, Skip;
    var k := 0;
    while k < WORD
      invariant k <= WORD && NoneBefore(s, 8 * (p + k), bit)
    {
      assert s[p + k] == s[p..p + WORD][k] == Skip(bit);
      SkippedByte(s, p + k, bit);
      k := k + 1;
    }
  }

  /** Loading the next word; what is missing counts as zero. */
  method LoadWord(s: seq<bv8>, p: nat) returns (word: seq<bv8>)
    requires p <= |s|
    ensures |word| == WORD && forall k | 0 <= k < WORD :: word[k] == if p + k < |s| then s[p + k] else 0
  {
    word := [];
    var c := p;
    for j := 0 to WORD
      invariant |word| == j && c == (if p + j <= |s| then p + j else |s|)
      invariant forall k | 0 <= k < j :: word[k] == if p + k < |s| then s[p + k] else 0
    {
      if c < |s| {
        word := word + [s[c]];
        c := c + 1;
      } else {
        word := word + [0];
      }
    }
  }

  /** Scanning the word bit by bit finds the first match; there is one, so the panic is not reached. */
  method ScanWord(word: seq<bv8>, bit: bool) returns (j: nat)
    requires |word| == WORD && exists i: nat :: i < 8 * WORD && BitAt(word, i) == bit
    ensures j < 8 * WORD && BitAt(word, j) == bit && NoneBefore(word, j, bit)
  {
    hide BitAt;
    j := 0;
    while BitAt(word, j) != bit
      invariant j < 8 * WORD && NoneBefore(word, j, bit)
      decreases 8 * WORD - j
    {
      j := j + 1;
    }
  }

  /** What is promised: the least matching position; none at all gives -1 for ones, and the length in
      bits for zeros, as if zeros followed the string. */
  ghost predicate IsFirst(s: seq<bv8>, bit: bool, r: int) {
    if NoneBefore(s, 8 * |s|, bit) then r == (if bit then -1 else 8 * |s|)
    else 0 <= r < 8 * |s| && BitAt(s, r) == bit && NoneBefore(s, r, bit)
  }

  lemma {:induction false} FirstIsUnique(s: seq<bv8>, bit: bool, q: int, r: int)
    requires IsFirst(s, bit, q) && IsFirst(s, bit, r)
    ensures q == r
  {
    hide BitAt;
  }

  /** redisBitpos on bytes that start at an address with remainder `align` modulo the word size. */
  method RedisBitpos(s: seq<bv8>, align: nat, bit: bool) returns (r: int)
    ensures IsFirst(s, bit, r)
  {
    hide BitAt, Skip;
    var p, found := 0, false;
    while (align + p) % WORD != 0 && p < |s| && !found
      invariant 0 <= p <= |s| && NoneBefore(s, 8 * p, bit) && (found ==> p < |s| && s[p] != Skip(bit))
      decreases |s| - p, !found
    {
      if s[p] != Skip(bit) {
        found := true;
      } else {
        SkippedByte(s, p, bit);
        p := p + 1;
      }
    }
    if !found { p := SkipWords(s, align, p, bit); }
    var word := LoadWord(s, p);
    if bit && word == Repeat(0, WORD) {
      NoneLeft(s, p, word);
      return -1;
    }
    WordMatches(s, p, word, bit);
    var j := ScanWord(word, bit);
    Placed(s, p, word, bit, j);
    r := 8 * p + j;
  }

  lemma {:induction false} WordBits(s: seq<bv8>, p: nat, word: seq<bv8>, j: nat)
    requires p <= |s| && |word| == WORD && j < 8 * WORD &&
             forall k | 0 <= k < WORD :: word[k] == if p + k < |s| then s[p + k] else 0
    ensures if 8 * p + j < 8 * |s| then BitAt(word, j) == BitAt(s, 8 * p + j) else !BitAt(word, j)
  {
    hide BitOf;
    assert (8 * p + j) / 8 == p + j / 8 && (8 * p + j) % 8 == j % 8;
    ZeroByte(7 - j % 8);
  }

  /** Looking for a one, an all-zero word can only be the end of the string. */
  lemma {:induction false} NoneLeft(s: seq<bv8>, p: nat, word: seq<bv8>)
    requires p <= |s| && NoneBefore(s, 8 * p, true) && |word| == WORD && word == Repeat(0, WORD)
    requires forall k | 0 <= k < WORD :: word[k] == if p + k < |s| then s[p + k] else 0
    requires |s| - p < WORD || s[p..p + WORD] != Repeat(Skip(true), WORD) || (p < |s| && s[p] != Skip(true))
    ensures NoneBefore(s, 8 * |s|, true)
  {
    hide BitAt;
    assert word[0] == 0;
    if |s| - p < WORD {
      forall i: nat | 8 * p <= i < 8 * |s| ensures !BitAt(s, i) {
        WordBits(s, p, word, i - 8 * p);
        AllZero(word, i - 8 * p);
      }
    }
  }

  lemma AllZero(word: seq<bv8>, j: nat)
    requires |word| == WORD && word == Repeat(0, WORD) && j < 8 * WORD
    ensures !BitAt(word, j)
  {
    assert word[j / 8] == 0;
    ZeroByte(7 - j % 8);
  }

  lemma Differs(word: seq<bv8>, b: bv8)
    requires |word| == WORD
    ensures word == Repeat(b, WORD) || exists k: nat :: k < WORD && word[k] != b
  {
    if forall k: nat | k < WORD :: word[k] == b { assert word == Repeat(b, WORD); }
  }

  /** The loaded word holds a bit that matches. */
  lemma {:induction false} WordMatches(s: seq<bv8>, p: nat, word: seq<bv8>, bit: bool)
    requires p <= |s| && |word| == WORD && forall k | 0 <= k < WORD :: word[k] == if p + k < |s| then s[p + k] else 0
    requires |s| - p < WORD || s[p..p + WORD] != Repeat(Skip(bit), WORD) || (p < |s| && s[p] != Skip(bit))
    requires bit ==> word != Repeat(0, WORD)
    ensures exists i: nat :: i < 8 * WORD && BitAt(word, i) == bit
  {
    hide BitAt;
    var k: nat := 0;
    if !bit && |s| - p < WORD {
      k := |s| - p;
    } else if word[0] == Skip(bit) {
      assert !bit ==> s[p..p + WORD] == word;
      Differs(word, Skip(bit));
      k :| k < WORD && word[k] != Skip(bit);
    }
    var i := MatchIn(word, k, bit);
  }

  lemma {:induction false} Placed(s: seq<bv8>, p: nat, word: seq<bv8>, bit: bool, j: nat)
    requires p <= |s| && NoneBefore(s, 8 * p, bit) && |word| == WORD && j < 8 * WORD && BitAt(word, j) == bit &&
             NoneBefore(word, j, bit)
    requires forall k | 0 <= k < WORD :: word[k] == if p + k < |s| then s[p + k] else 0
    ensures IsFirst(s, bit, 8 * p + j)
  {
    hide BitAt;
    WordBits(s, p, word, j);
    forall i: nat | 8 * p <= i < 8 * p + j && i < 8 * |s| ensures BitAt(s, i) != bit {
      WordBits(s, p, word, i - 8 * p);
    }
    if 8 * p + j > 8 * |s| {
      WordBits(s, p, word, 8 * |s| - 8 * p);
    }
  }
}
