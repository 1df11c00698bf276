/** 64-bit machine words (`unsigned long` in the C sources) as bit strings, least significant bit
    first, with the operators dict.c applies to them and the two numbers a bit string denotes:
    the usual one and the one read in the opposite direction. */
module Words {

  const WORD_BITS: nat := 64

  type Word = s: seq<bool> | |s| == WORD_BITS witness seq(WORD_BITS, i => false)

  // ---- C operators

  function And(a: Word, b: Word): Word {
    seq(WORD_BITS, i requires 0 <= i < WORD_BITS => a[i] && b[i])
  }

  function Or(a: Word, b: Word): Word {
    seq(WORD_BITS, i requires 0 <= i < WORD_BITS => a[i] || b[i])
  }

  function Xor(a: Word, b: Word): Word {
    seq(WORD_BITS, i requires 0 <= i < WORD_BITS => a[i] != b[i])
  }

  function Not(a: Word): Word {
    seq(WORD_BITS, i requires 0 <= i < WORD_BITS => !a[i])
  }

  function ShiftRight(a: Word, n: nat): Word {
    seq(WORD_BITS, i requires 0 <= i < WORD_BITS => if i + n < WORD_BITS then a[i + n] else false)
  }

  function ShiftLeft(a: Word, n: nat): Word {
    seq(WORD_BITS, i requires 0 <= i < WORD_BITS => if i >= n then a[i - n] else false)
  }

  /** `a + 1`, wrapping. */
  function Increment(a: seq<bool>): (r: seq<bool>)
    ensures |r| == |a|
  {
    if a == [] then [] else if a[0] then [false] + Increment(a[1..]) else [true] + a[1..]
  }

  function Zero(): Word {
    seq(WORD_BITS, i => false)
  }

  // ---- numbers

  function Pow2(k: nat): (p: nat)
    ensures p > 0
  {
    if k == 0 then 1 else 2 * Pow2(k - 1)
  }

  /** The number a bit string denotes. */
  function ToNat(s: seq<bool>): (n: nat)
    ensures n < Pow2(|s|)
  {
    if s == [] then 0 else (if s[0] then 1 else 0) + 2 * ToNat(s[1..])
  }

  predicate BitOf(n: nat, i: nat) {
    if i == 0 then n % 2 == 1 else BitOf(n / 2, i - 1)
  }

  /** The word of n, modulo 2^64. */
  function ToWord(n: nat): Word {
    seq(WORD_BITS, i requires 0 <= i => BitOf(n, i))
  }

  /** The number denoted when the first bit counts most. */
  function RevNat(s: seq<bool>): (n: nat)
    ensures n < Pow2(|s|)
  {
    if s == [] then 0 else (if s[0] then Pow2(|s| - 1) else 0) + RevNat(s[1..])
  }

  function Reverse(s: seq<bool>): (r: seq<bool>)
    ensures |r| == |s|
  {
    seq(|s|, i requires 0 <= i < |s| => s[|s| - 1 - i])
  }

  /** The word 2^k - 1, the size mask of a table of 2^k buckets. */
  function Mask(k: nat): Word {
    seq(WORD_BITS, i => i < k)
  }

  predicate AllClear(s: seq<bool>) {
    forall i :: 0 <= i < |s| ==> !s[i]
  }

  lemma Associate(x: nat, y: nat, z: nat)
    ensures (x * y) * z == x * (y * z)
  {
  }

  lemma Distribute(x: nat, y: nat, z: nat)
    ensures (x + y) * z == x * z + y * z
  {
  }

  lemma {:induction false} Pow2Monotonic(j: nat, k: nat)
    requires j < k
    ensures 2 * Pow2(j) <= Pow2(k)
    decreases k
  {
    if j < k - 1 {
      Pow2Monotonic(j, k - 1);
    }
  }

  lemma {:induction false} Pow2Add(j: nat, k: nat)
    ensures Pow2(j + k) == Pow2(j) * Pow2(k)
  {
    if j > 0 {
      Pow2Add(j - 1, k);
      assert Pow2(j + k) == 2 * (Pow2(j - 1) * Pow2(k));
    }
  }

  lemma {:induction false} ToNatConcat(a: seq<bool>, b: seq<bool>)
    ensures ToNat(a + b) == ToNat(a) + Pow2(|a|) * ToNat(b)
  {
    if a == [] {
      assert a + b == b;
    } else {
      assert (a + b)[1..] == a[1..] + b;
      ToNatConcat(a[1..], b);
      Associate(2, Pow2(|a| - 1), ToNat(b));
    }
  }

  lemma {:induction false} RevNatConcat(a: seq<bool>, b: seq<bool>)
    ensures RevNat(a + b) == RevNat(a) * Pow2(|b|) + RevNat(b)
  {
    if a == [] {
      assert a + b == b;
    } else {
      assert (a + b)[1..] == a[1..] + b;
      RevNatConcat(a[1..], b);
      Pow2Add(|a| - 1, |b|);
      Distribute(if a[0] then Pow2(|a| - 1) else 0, RevNat(a[1..]), Pow2(|b|));
    }
  }

  lemma {:induction false} ToNatInjective(a: seq<bool>, b: seq<bool>)
    requires |a| == |b| && ToNat(a) == ToNat(b)
    ensures a == b
  {
    if a != [] {
      ToNatInjective(a[1..], b[1..]);
      assert a == [a[0]] + a[1..] && b == [b[0]] + b[1..];
    }
  }

  lemma {:induction false} RevNatInjective(a: seq<bool>, b: seq<bool>)
    requires |a| == |b| && RevNat(a) == RevNat(b)
    ensures a == b
  {
    if a != [] {
      RevNatInjective(a[1..], b[1..]);
      assert a == [a[0]] + a[1..] && b == [b[0]] + b[1..];
    }
  }

  /** Reading a string backwards is reading its reversal. */
  lemma {:induction false} RevNatIsReverse(s: seq<bool>)
    ensures ToNat(Reverse(s)) == RevNat(s)
  {
    if s != [] {
      var r := Reverse(s[1..]);
      assert Reverse(s) == r + [s[0]];
      ToNatConcat(r, [s[0]]);
      RevNatIsReverse(s[1..]);
      SingleBit(s[0]);
    }
  }

  lemma SingleBit(b: bool)
    ensures ToNat([b]) == RevNat([b]) == if b then 1 else 0
  {
    assert ToNat([b][1..]) == 0 && RevNat([b][1..]) == 0 && Pow2(0) == 1;
  }

  lemma {:induction false} IncrementIsSuccessor(s: seq<bool>)
    ensures ToNat(Increment(s)) == if ToNat(s) + 1 == Pow2(|s|) then 0 else ToNat(s) + 1
  {
    if s != [] {
      IncrementIsSuccessor(s[1..]);
      assert Increment(s)[1..] == if s[0] then Increment(s[1..]) else s[1..];
    }
  }

  lemma {:induction false} ToNatClear(s: seq<bool>)
    requires AllClear(s)
    ensures ToNat(s) == 0 && RevNat(s) == 0
  {
    if s != [] {
      ToNatClear(s[1..]);
    }
  }

  lemma {:induction false} BitOfOnes(k: nat, i: nat)
    ensures BitOf(Pow2(k) - 1, i) <==> i < k
  {
    if k > 0 {
      assert (Pow2(k) - 1) % 2 == 1 && (Pow2(k) - 1) / 2 == Pow2(k - 1) - 1;
    }
    if i > 0 {
      BitOfOnes(if k > 0 then k - 1 else 0, i - 1);
    }
  }

  /** `size - 1` is the mask of the k low bits when size is 2^k. */
  lemma SizeMask(k: nat)
    ensures ToWord(Pow2(k) - 1) == Mask(k)
  {
    forall i: nat {:trigger BitOf(Pow2(k) - 1, i)} | i < WORD_BITS
      ensures BitOf(Pow2(k) - 1, i) <==> i < k
    {
      BitOfOnes(k, i);
    }
  }

  /** Masking keeps the k low bits: the remainder by 2^k. */
  lemma AndMask(h: Word, k: nat)
    requires k <= WORD_BITS
    ensures And(h, Mask(k)) == h[..k] + Zero()[k..]
    ensures ToNat(And(h, Mask(k))) == ToNat(h[..k])
  {
    assert And(h, Mask(k)) == h[..k] + Zero()[k..];
    ToNatConcat(h[..k], Zero()[k..]);
    ToNatClear(Zero()[k..]);
  }

  // ---- bit reversal

  /** The parallel bit reversal of dict.c: halves, quarters, ... are swapped under a mask. */
  method Rev(v0: Word) returns (v: Word)
    ensures v == Reverse(v0)
  {
    v := v0;
    var s := WORD_BITS;
    var mask := Not(Zero());
    ghost var n := s;
    WholeBlock(v0);
    s := s / 2;
    while s > 0
      invariant n in {64, 32, 16, 8, 4, 2, 1} && s == n / 2
      invariant Multiple(WORD_BITS, n)
      invariant mask == BlockMask(n) && v == BlocksReversed(v0, n)
    {
      HalfMultiple(WORD_BITS, s);
      MaskStage(s);
      RevStage(v0, s);
      mask := Xor(mask, ShiftLeft(mask, s));
      v := Swap(v, mask, s);
      n := s;
      s := s / 2;
    }
    SingleBlocks(v0);
  }

  /** Bit i lies in an even one of the blocks of n bits. */
  predicate InFirst(i: nat, n: nat)
    requires n > 0
  {
    i < n || !InFirst(i - n, n)
  }

  /** The offset of bit i in its block of n bits. */
  function Offset(i: nat, n: nat): (r: nat)
    requires n > 0
    ensures r < n && r <= i
  {
    if i < n then i else Offset(i - n, n)
  }

  predicate Multiple(m: nat, n: nat)
    requires n > 0
  {
    m == n || (m > n && Multiple(m - n, n))
  }

  lemma {:induction false} HalfMultiple(m: nat, n: nat)
    requires n > 0 && Multiple(m, 2 * n)
    ensures Multiple(m, n)
  {
    assert Multiple(2 * n, n);
    if m > 2 * n {
      HalfMultiple(m - 2 * n, n);
      assert Multiple(m - n, n);
    }
  }

  lemma {:induction false} BlockFits(i: nat, m: nat, n: nat)
    requires n > 0 && Multiple(m, n) && i < m
    ensures i - Offset(i, n) + n <= m
  {
    if i >= n {
      BlockFits(i - n, m - n, n);
    }
  }

  /** Alternating blocks of n ones and n zeros. */
  function BlockMask(n: nat): Word
    requires n > 0
  {
    seq(WORD_BITS, i requires 0 <= i => InFirst(i, n))
  }

  /** v with its blocks of n bits in opposite order. */
  function BlocksReversed(v: Word, n: nat): Word
    requires n > 0 && Multiple(WORD_BITS, n)
  {
    seq(WORD_BITS, i requires 0 <= i < WORD_BITS =>
      BlockFits(i, WORD_BITS, n);
      v[WORD_BITS - n - i + 2 * Offset(i, n)])
  }

  lemma {:induction false} OffsetStage(i: nat, s: nat)
    requires s > 0
    ensures InFirst(i, s) <==> InFirst(i, 2 * s) != (i >= s && InFirst(i - s, 2 * s))
    ensures InFirst(i, s) ==> Offset(i, 2 * s) == Offset(i, s) && Offset(i + s, 2 * s) == Offset(i, s) + s
    ensures !InFirst(i, s) ==> i >= s && Offset(i - s, 2 * s) == Offset(i, s)
    ensures !InFirst(i, s) ==> Offset(i, 2 * s) == Offset(i, s) + s
  {
    if i >= 2 * s {
      OffsetStage(i - 2 * s, s);
    }
  }

  lemma WholeBlock(v: Word)
    ensures Multiple(WORD_BITS, WORD_BITS)
    ensures BlocksReversed(v, WORD_BITS) == v && BlockMask(WORD_BITS) == Not(Zero())
  {
  }

  lemma SingleBlocks(v: Word)
    requires Multiple(WORD_BITS, 1)
    ensures BlocksReversed(v, 1) == Reverse(v)
  {
  }

  lemma MaskStage(s: nat)
    requires s > 0
    ensures Xor(BlockMask(2 * s), ShiftLeft(BlockMask(2 * s), s)) == BlockMask(s)
  {
    forall i | 0 <= i < WORD_BITS
      ensures BlockMask(s)[i] <==> BlockMask(2 * s)[i] != (i >= s && BlockMask(2 * s)[i - s])
    {
      OffsetStage(i, s);
    }
  }

  /** `((v >> s) & m) | ((v << s) & ~m)` takes each bit from s places above or below. */
  function Swap(v: Word, m: Word, s: nat): Word
  {
    Or(And(ShiftRight(v, s), m), And(ShiftLeft(v, s), Not(m)))
  }

  lemma BlockBit(v: Word, n: nat, i: nat)
    requires n > 0 && Multiple(WORD_BITS, n) && i < WORD_BITS
    ensures 0 <= WORD_BITS - n - i + 2 * Offset(i, n) < WORD_BITS
    ensures BlocksReversed(v, n)[i] == v[WORD_BITS - n - i + 2 * Offset(i, n)]
  {
    BlockFits(i, WORD_BITS, n);
  }

  /** One round of the loop turns reversed blocks of 2s bits into reversed blocks of s bits. */
  lemma RevStage(v0: Word, s: nat)
    requires s > 0 && Multiple(WORD_BITS, 2 * s) && Multiple(WORD_BITS, s)
    ensures Swap(BlocksReversed(v0, 2 * s), BlockMask(s), s) == BlocksReversed(v0, s)
  {
    var v, m := BlocksReversed(v0, 2 * s), BlockMask(s);
    forall i | 0 <= i < WORD_BITS
      ensures Swap(v, m, s)[i] == BlocksReversed(v0, s)[i]
    {
      SwapBit(v, m, s, i);
      RevStageBit(v0, s, i);
    }
  }

  lemma RevStageBit(v0: Word, s: nat, i: nat)
    requires s > 0 && Multiple(WORD_BITS, 2 * s) && Multiple(WORD_BITS, s) && i < WORD_BITS
    ensures var v := BlocksReversed(v0, 2 * s);
      BlocksReversed(v0, s)[i] ==
        if InFirst(i, s) then i + s < WORD_BITS && v[i + s] else i >= s && v[i - s]
  {
    StageIndex(i, s);
    BlockBit(v0, s, i);
    BlockBit(v0, 2 * s, if InFirst(i, s) then i + s else i - s);
  }

  lemma StageIndex(i: nat, s: nat)
    requires s > 0 && Multiple(WORD_BITS, 2 * s) && i < WORD_BITS
    ensures if InFirst(i, s) then
        i + s < WORD_BITS && 2 * Offset(i + s, 2 * s) == 2 * s + 2 * Offset(i, s)
      else
        i >= s && Offset(i - s, 2 * s) == Offset(i, s)
  {
    OffsetStage(i, s);
    BlockFits(i, WORD_BITS, 2 * s);
  }

  lemma SwapBit(v: Word, m: Word, s: nat, i: nat)
    requires i < WORD_BITS
    ensures Swap(v, m, s)[i] == if m[i] then i + s < WORD_BITS && v[i + s] else i >= s && v[i - s]
  {
  }
}
