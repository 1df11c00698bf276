/** redisBitpos: the first bit of a kind, found word by word. */
module Bitpos {
  import opened Words

  /** A byte as its bits, least significant first. */
  type Byte = s: seq<bool> | |s| == 8 witness seq(8, i => false)

  /** Bit p of a string, the most significant bit of the first byte being bit 0; zeros follow the end. */
  predicate BitAt(s: seq<Byte>, p: nat) {
    p / 8 < |s| && s[p / 8][7 - p % 8]
  }

  ghost predicate NoneBefore(s: seq<Byte>, bit: bool, n: nat) {
    forall p :: 0 <= p < n ==> BitAt(s, p) != bit
  }

  predicate AllAre(b: seq<bool>, bit: bool) {
    forall i :: 0 <= i < |b| ==> b[i] == bit
  }

  lemma SkipByte(s: seq<Byte>, bit: bool, c: nat)
    requires c < |s| && NoneBefore(s, bit, 8 * c) && AllAre(s[c], !bit)
    ensures NoneBefore(s, bit, 8 * (c + 1))
  {
    forall p | 8 * c <= p < 8 * (c + 1)
      ensures BitAt(s, p) != bit
    {
      assert p / 8 == c;
    }
  }

  /** An unsigned long read from memory is all skipval exactly when each of its eight bytes is. */
  predicate WordIs(s: seq<Byte>, c: nat, bit: bool)
    requires c + 8 <= |s|
  {
    forall j :: c <= j < c + 8 ==> AllAre(s[j], bit)
  }

  lemma {:induction false} SkipWord(s: seq<Byte>, bit: bool, c: nat, n: nat)
    requires n <= 8 && c + 8 <= |s| && WordIs(s, c, !bit) && NoneBefore(s, bit, 8 * c)
    ensures NoneBefore(s, bit, 8 * (c + n))
    decreases n
  {
    if n > 0 {
      SkipWord(s, bit, c, n - 1);
      SkipByte(s, bit, c + n - 1);
    }
  }

  function ByteWord(b: Byte): Word {
    seq(WORD_BITS, i requires 0 <= i < WORD_BITS => i < 8 && b[i])
  }

  /** The word holds the bits from 8 * c on, k of them, the first in the highest place. */
  ghost predicate Holds(word: Word, s: seq<Byte>, c: nat, k: nat)
    requires k <= WORD_BITS
  {
    && (forall i :: 0 <= i < k ==> word[i] == BitAt(s, 8 * c + (k - 1 - i)))
    && (forall i :: k <= i < WORD_BITS ==> !word[i])
  }

  /** The loading loop, by one byte or by one byte of padding. */
  lemma HoldsNext(word: Word, s: seq<Byte>, c: nat, j: nat, next: Word)
    requires j < 8 && Holds(word, s, c, 8 * j)
    requires next == if c + j < |s| then Or(ShiftLeft(word, 8), ByteWord(s[c + j])) else ShiftLeft(word, 8)
    ensures Holds(next, s, c, 8 * (j + 1))
  {
    forall i | 0 <= i < 8 * (j + 1)
      ensures next[i] == BitAt(s, 8 * c + (8 * (j + 1) - 1 - i))
    {
      var p := 8 * c + (8 * (j + 1) - 1 - i);
      if i < 8 {
        assert p == 8 * (c + j) + (7 - i);
        assert p / 8 == c + j && p % 8 == 7 - i;
      } else {
        assert ShiftLeft(word, 8)[i] == word[i - 8];
      }
    }
  }

  method LoadWord(s: seq<Byte>, c0: nat) returns (word: Word)
    requires c0 <= |s|
    ensures Holds(word, s, c0, WORD_BITS)
  {
    word := Zero();
    var c, count: int := c0, |s| - c0;
    for j := 0 to 8
      invariant c0 <= c <= |s| && count == |s| - c && c == (if c0 + j <= |s| then c0 + j else |s|)
      invariant Holds(word, s, c0, 8 * j)
    {
      ghost var was := word;
      word := ShiftLeft(word, 8);
      if count != 0 {
        word := Or(word, ByteWord(s[c]));
        c, count := c + 1, count - 1;
      }
      HoldsNext(was, s, c0, j, word);
    }
  }

  predicate OnlyBit(w: Word, t: nat)
    requires t < WORD_BITS
  {
    forall i :: 0 <= i < WORD_BITS ==> w[i] == (i == WORD_BITS - 1 - t)
  }

  lemma TestBit(one: Word, word: Word, t: nat)
    requires t < WORD_BITS && OnlyBit(one, t)
    ensures And(one, word) != Zero() <==> word[WORD_BITS - 1 - t]
    ensures one != Zero()
  {
    var k := WORD_BITS - 1 - t;
    assert And(one, word)[k] == word[k] && one[k] && !Zero()[k];
    if !word[k] {
      assert And(one, word) == Zero();
    }
  }

  /** The result: the first position with the wanted bit. */
  ghost predicate First(s: seq<Byte>, bit: bool, pos: nat) {
    BitAt(s, pos) == bit && NoneBefore(s, bit, pos)
  }

  /** The scan of the last word. */
  method ScanWord(s: seq<Byte>, bit: bool, c: nat, word: Word) returns (pos: nat)
    requires Holds(word, s, c, WORD_BITS) && NoneBefore(s, bit, 8 * c)
    requires exists i :: 0 <= i < WORD_BITS && word[i] == bit
    ensures First(s, bit, pos) && pos < 8 * c + WORD_BITS
  {
    hide And, Not, ShiftRight, BitAt, OnlyBit, Zero, Holds;
    pos := 8 * c;
    var one := TopBit();
    ghost var t: nat := 0;
    while one != Zero()
      invariant t <= WORD_BITS && pos == 8 * c + t && NoneBefore(s, bit, pos)
      invariant t < WORD_BITS ==> OnlyBit(one, t) && one != Zero()
      invariant t == WORD_BITS ==> one == Zero()
      invariant exists i :: 0 <= i < WORD_BITS - t && word[i] == bit
      decreases WORD_BITS - t
    {
      TestBit(one, word, t);
      InWindow(s, c, word, pos);
      if (And(one, word) != Zero()) == bit {
        return;
      }
      one := NextBit(one, t);
      pos := pos + 1;
      t := t + 1;
    }
    assert false;
  }

  /** All ones, but for the place of the most significant bit, inverted. */
  method TopBit() returns (one: Word)
    ensures OnlyBit(one, 0) && one != Zero()
  {
    var ones: Word := Not(Zero());
    one := Not(ShiftRight(ones, 1));
    TestBit(one, one, 0);
  }

  method NextBit(one: Word, ghost t: nat) returns (next: Word)
    requires t < WORD_BITS && OnlyBit(one, t)
    ensures t + 1 < WORD_BITS ==> OnlyBit(next, t + 1) && next != Zero()
    ensures t + 1 == WORD_BITS ==> next == Zero()
  {
    next := ShiftRight(one, 1);
    if t + 1 < WORD_BITS {
      TestBit(next, next, t + 1);
    }
  }

  /** redisBitpos, on a string that starts at the given address. */
  method Bitpos(s: seq<Byte>, address: nat, bit: bool) returns (pos: int)
    ensures pos == -1 <==> bit && forall p: nat :: !BitAt(s, p)
    ensures pos != -1 ==> 0 <= pos <= 8 * |s| && First(s, bit, pos)
  {
    var c, count: int := 0, |s|;
    while (address + c) % 8 != 0 && count != 0
      invariant 0 <= c && c + count == |s| && count >= 0 && NoneBefore(s, bit, 8 * c)
      decreases count
    {
      if !AllAre(s[c], !bit) {
        break;
      }
      SkipByte(s, bit, c);
      c, count := c + 1, count - 1;
    }
    while count >= 8
      invariant 0 <= c && c + count == |s| && count >= 0 && NoneBefore(s, bit, 8 * c)
      decreases count
    {
      if !WordIs(s, c, !bit) {
        break;
      }
      SkipWord(s, bit, c, 8);
      c, count := c + 8, count - 8;
    }
    assert count >= 8 ==> !WordIs(s, c, !bit);
    var word := LoadWord(s, c);
    if bit && word == Zero() {
      NoOnes(s, c, word);
      return -1;
    }
    HasBit(s, bit, c, word);
    pos := ScanWord(s, bit, c, word);
    FirstBounded(s, bit, pos);
  }

  /** A word with all its bits alike was eight such bytes. */
  lemma WordBytes(s: seq<Byte>, c: nat, word: Word, bit: bool)
    requires c + 8 <= |s| && Holds(word, s, c, WORD_BITS)
    ensures AllAre(word, bit) ==> WordIs(s, c, bit)
  {
    if AllAre(word, bit) {
      forall k | c <= k < c + 8
        ensures AllAre(s[k], bit)
      {
        forall p | 8 * k <= p < 8 * k + 8
          ensures BitAt(s, p) == bit
        {
          InWindow(s, c, word, p);
        }
        ByteAre(s, k, bit);
      }
    }
  }

  lemma InWindow(s: seq<Byte>, c: nat, word: Word, p: nat)
    requires Holds(word, s, c, WORD_BITS) && 8 * c <= p < 8 * c + WORD_BITS
    ensures BitAt(s, p) == word[WORD_BITS - 1 - (p - 8 * c)]
  {
    var i := WORD_BITS - 1 - (p - 8 * c);
    assert word[i] == BitAt(s, 8 * c + (WORD_BITS - 1 - i));
  }

  lemma NoOnes(s: seq<Byte>, c: nat, word: Word)
    requires c <= |s| && Holds(word, s, c, WORD_BITS) && word == Zero() && NoneBefore(s, true, 8 * c)
    requires c + 8 <= |s| ==> !WordIs(s, c, false)
    ensures forall p: nat :: !BitAt(s, p)
  {
    if c + 8 <= |s| {
      WordBytes(s, c, word, false);
    }
    forall p: nat
      ensures !BitAt(s, p)
    {
      if 8 * c <= p < 8 * c + WORD_BITS {
        InWindow(s, c, word, p);
      }
    }
  }

  lemma ByteAre(s: seq<Byte>, k: nat, bit: bool)
    requires k < |s| && forall p :: 8 * k <= p < 8 * k + 8 ==> BitAt(s, p) == bit
    ensures AllAre(s[k], bit)
  {
    forall i | 0 <= i < 8
      ensures s[k][i] == bit
    {
      var p := 8 * k + (7 - i);
      assert p / 8 == k && p % 8 == 7 - i;
      assert BitAt(s, p) == s[k][i];
    }
  }

  /** The word that stopped the search, or the padding, has the wanted bit. */
  lemma HasBit(s: seq<Byte>, bit: bool, c: nat, word: Word)
    requires c <= |s| && Holds(word, s, c, WORD_BITS) && !(bit && word == Zero())
    requires c + 8 <= |s| ==> !WordIs(s, c, !bit)
    ensures exists i :: 0 <= i < WORD_BITS && word[i] == bit
  {
    if bit {
      assert AllAre(word, false) ==> word == Zero();
    } else if c + 8 <= |s| {
      WordBytes(s, c, word, true);
    } else {
      InWindow(s, c, word, 8 * c + 63);
    }
  }

  lemma FirstBounded(s: seq<Byte>, bit: bool, pos: nat)
    requires First(s, bit, pos)
    ensures pos <= 8 * |s| && (bit ==> exists p: nat :: BitAt(s, p))
  {
    var end := 8 * |s|;
    assert !BitAt(s, end) && (pos > end ==> !BitAt(s, pos));
  }
}
