/** crc64: the table-driven loop, the bit-by-bit division it computes, and how much of the input its result
    gives away. */
module Checksum {
  import opened Sequences
  import opened CrcTable

  /** One turn of the loop: crc64_tab[(uint8_t)crc ^ byte] ^ (crc >> 8). */
  function Step(crc: Word, byte: bv8): Word {
    var t := Entry(X8(crc.b0, byte));
    Word(X8(t.b0, crc.b1), X8(t.b1, crc.b2), X8(t.b2, crc.b3), X8(t.b3, crc.b4), X8(t.b4, crc.b5), X8(t.b5, crc.b6),
      X8(t.b6, crc.b7), t.b7)
  }

  function Crc(crc: Word, s: Bytes): Word
    decreases |s|
  {
    if s == [] then crc else Step(Crc(crc, s[..|s| - 1]), s[|s| - 1])
  }

  method Crc64(crc0: Word, s: Bytes) returns (crc: Word)
    ensures crc == Crc(crc0, s)
  {
    crc := crc0;
    assert s[..0] == [];
    for j := 0 to |s|
      invariant crc == Crc(crc0, s[..j])
    {
      assert s[..j + 1][..j] == s[..j];
      hide Step;
      crc := Step(crc, s[j]);
    }
    assert s[..|s|] == s;
  }

  lemma {:induction false} CrcConcat(crc: Word, a: Bytes, b: Bytes)
    ensures Crc(crc, a + b) == Crc(Crc(crc, a), b)
    decreases |b|
  {
    hide Step;
    if b == [] {
      assert a + b == a;
    } else {
      var n := |b| - 1;
      assert (a + b)[..|a + b| - 1] == a + b[..n];
      CrcConcat(crc, a, b[..n]);
    }
  }

  // ---- the definition by bits

  /** The checksum by its definition: each byte is added to the low end and divided out bit by bit. */
  function CrcBits(crc: Word, s: Bytes): Word
    decreases |s|
  {
    if s == [] then crc else ShiftN(Xor(CrcBits(crc, s[..|s| - 1]), Low(s[|s| - 1])), 8)
  }

  /** The bits of x and y, y's above, k bits on. */
  function Part(x: bv8, y: bv8, k: nat): bv8
    requires k <= 8
  {
    if k == 0 then x else if k == 8 then y else (x >> k) | (y << (8 - k))
  }

  lemma PartCarry(x: bv8, y: bv8, z: bv8, k: nat)
    requires k < 8
    ensures Carry(Part(x, y, k), Part(y, z, k)) == Part(x, y, k + 1)
  {
    match k
    case 0 => case 1 => case 2 => case 3 => case 4 => case 5 => case 6 =>
    case _ => assert k == 7;
  }

  lemma PartLow(y: bv8, k: nat)
    requires k < 8
    ensures Part(0, y, k) & 1 == 0
  {
    match k
    case 0 => case 1 => case 2 => case 3 => case 4 => case 5 => case 6 =>
    case _ => assert k == 7;
  }

  /** A word moved down k bits. */
  function Down(x: Word, k: nat): Word
    requires k <= 8
  {
    Word(Part(x.b0, x.b1, k), Part(x.b1, x.b2, k), Part(x.b2, x.b3, k), Part(x.b3, x.b4, k), Part(x.b4, x.b5, k),
      Part(x.b5, x.b6, k), Part(x.b6, x.b7, k), Part(x.b7, 0, k))
  }

  lemma DownHalf(x: Word, k: nat)
    requires k < 8
    ensures Half(Down(x, k)) == Down(x, k + 1)
  {
    hide Part, Carry;
    PartCarry(x.b0, x.b1, x.b2, k);
    PartCarry(x.b1, x.b2, x.b3, k);
    PartCarry(x.b2, x.b3, x.b4, k);
    PartCarry(x.b3, x.b4, x.b5, k);
    PartCarry(x.b4, x.b5, x.b6, k);
    PartCarry(x.b5, x.b6, x.b7, k);
    PartCarry(x.b6, x.b7, 0, k);
    PartCarry(x.b7, 0, 0, k);
    PartZero(k);
  }

  lemma PartZero(k: nat)
    requires k <= 8
    ensures Part(0, 0, k) == 0
  {
    match k
    case 0 => case 1 => case 2 => case 3 => case 4 => case 5 => case 6 => case 7 =>
    case _ => assert k == 8;
  }

  lemma XorZeroRight(x: Word)
    ensures Xor(x, ZERO) == x
  {
    ZeroX8(x.b0);
    ZeroX8(x.b1);
    ZeroX8(x.b2);
    ZeroX8(x.b3);
    ZeroX8(x.b4);
    ZeroX8(x.b5);
    ZeroX8(x.b6);
    ZeroX8(x.b7);
    hide X8;
  }

  /** Nothing is added while no bit reaches the end. */
  lemma {:induction false} HighShift(x: Word, k: nat, n: nat)
    requires x.b0 == 0 && k + n <= 8
    ensures ShiftN(Down(x, k), n) == Down(x, k + n)
    decreases n
  {
    if n > 0 {
      PartLow(x.b1, k);
      DownHalf(x, k);
      assert Down(x, k).b0 == Part(0, x.b1, k);
      assert LowBit(Down(x, k).b0) == ZERO;
      hide Down, Half, Part, Xor, LowBit;
      XorZeroRight(Half(Down(x, k)));
      assert Shift(Down(x, k)) == Down(x, k + 1);
      HighShift(x, k + 1, n - 1);
    }
  }

  function High(x: Word): Word {
    Word(0, x.b1, x.b2, x.b3, x.b4, x.b5, x.b6, x.b7)
  }

  lemma Split(crc: Word, byte: bv8)
    ensures Xor(crc, Low(byte)) == Xor(Low(X8(crc.b0, byte)), High(crc))
  {
    ZeroX8(crc.b1);
    ZeroX8(crc.b2);
    ZeroX8(crc.b3);
    ZeroX8(crc.b4);
    ZeroX8(crc.b5);
    ZeroX8(crc.b6);
    ZeroX8(crc.b7);
    ZeroX8(X8(crc.b0, byte));
    hide X8;
  }

  lemma StepXor(crc: Word, byte: bv8)
    ensures Step(crc, byte) == Xor(Entry(X8(crc.b0, byte)), Down(High(crc), 8))
  {
    var t := Entry(X8(crc.b0, byte));
    ZeroX8(t.b7);
    hide X8, Entry;
  }

  /** One table look-up is eight bits of division. */
  lemma StepIsDivision(crc: Word, byte: bv8)
    ensures Step(crc, byte) == ShiftN(Xor(crc, Low(byte)), 8)
  {
    hide *;
    var n := 8;
    var low, high := Low(X8(crc.b0, byte)), High(crc);
    DownNone(high);
    Split(crc, byte);
    StepXor(crc, byte);
    EntryIsDivision(X8(crc.b0, byte));
    HighZero(crc);
    HighShift(high, 0, n);
    ShiftNXor(low, high, n);
  }

  lemma DownNone(x: Word)
    ensures Down(x, 0) == x
  {
  }

  lemma HighZero(x: Word)
    ensures High(x).b0 == 0
  {
  }

  /** The table-driven checksum is the one defined by bits, for every input and every starting value. */
  lemma {:induction false} CrcIsBits(crc: Word, s: Bytes)
    ensures Crc(crc, s) == CrcBits(crc, s)
    decreases |s|
  {
    hide Step, Xor, ShiftN, Low;
    if s != [] {
      CrcIsBits(crc, s[..|s| - 1]);
      StepIsDivision(CrcBits(crc, s[..|s| - 1]), s[|s| - 1]);
    }
  }

  // ---- nothing is forgotten

  /** The k most significant bytes are the same. */
  predicate SameTop(x: Word, y: Word, k: nat) {
    && (k >= 1 ==> x.b7 == y.b7)
    && (k >= 2 ==> x.b6 == y.b6)
    && (k >= 3 ==> x.b5 == y.b5)
    && (k >= 4 ==> x.b4 == y.b4)
    && (k >= 5 ==> x.b3 == y.b3)
    && (k >= 6 ==> x.b2 == y.b2)
    && (k >= 7 ==> x.b1 == y.b1)
    && (k >= 8 ==> x.b0 == y.b0)
  }

  lemma XorCancel(t: bv8, a: bv8, b: bv8)
    ensures X8(t, a) == X8(t, b) <==> a == b
    ensures X8(a, t) == X8(b, t) <==> a == b
  {
  }

  /** From the top byte the table index is known, and with it one more byte of the value before. */
  lemma StepBack(x: Word, y: Word, p: bv8, q: bv8, k: nat)
    requires 1 <= k <= 8 && SameTop(Step(x, p), Step(y, q), k)
    ensures X8(x.b0, p) == X8(y.b0, q) && SameTop(x, y, k - 1)
  {
    var i, j := X8(x.b0, p), X8(y.b0, q);
    TopByte(i);
    TopByte(j);
    hide X8, Entry, IndexOf;
    assert i == j;
    var t := Entry(i);
    XorCancel(t.b6, x.b7, y.b7);
    XorCancel(t.b5, x.b6, y.b6);
    XorCancel(t.b4, x.b5, y.b5);
    XorCancel(t.b3, x.b4, y.b4);
    XorCancel(t.b2, x.b3, y.b3);
    XorCancel(t.b1, x.b2, y.b2);
    XorCancel(t.b0, x.b1, y.b1);
  }

  /** A step can be undone: for a given byte, and from a given value. */
  lemma StepInjective(x: Word, y: Word, p: bv8, q: bv8)
    ensures Step(x, p) == Step(y, p) ==> x == y
    ensures Step(x, p) == Step(x, q) ==> p == q
  {
    if Step(x, p) == Step(y, p) {
      StepBack(x, y, p, p, 8);
      XorCancel(p, x.b0, y.b0);
    }
    if Step(x, p) == Step(x, q) {
      StepBack(x, x, p, q, 8);
      XorCancel(x.b0, p, q);
    }
    hide Step, X8;
  }

  /** The last k bytes of the input can be read off the k top bytes of the result, for k up to eight. */
  lemma {:induction false} LastBytesKnown(crc: Word, a: Bytes, b: Bytes)
    requires |a| == |b| <= 8 && SameTop(Crc(crc, a), Crc(crc, b), |a|)
    ensures a == b
    decreases |a|
  {
    hide Step, X8, SameTop;
    if a != [] {
      var n := |a| - 1;
      var x, y := Crc(crc, a[..n]), Crc(crc, b[..n]);
      assert Crc(crc, a) == Step(x, a[n]) && Crc(crc, b) == Step(y, b[n]);
      StepBack(x, y, a[n], b[n], n + 1);
      LastBytesKnown(crc, a[..n], b[..n]);
      XorCancel(x.b0, a[n], b[n]);
      assert a == a[..n] + [a[n]] && b == b[..n] + [b[n]];
    }
  }

  /** Equal results after equal inputs come from equal values before. */
  lemma {:induction false} TailInjective(x: Word, y: Word, s: Bytes)
    requires Crc(x, s) == Crc(y, s)
    ensures x == y
    decreases |s|
  {
    if s != [] {
      var n := |s| - 1;
      hide Step;
      StepInjective(Crc(x, s[..n]), Crc(y, s[..n]), s[n], s[n]);
      TailInjective(x, y, s[..n]);
    }
  }

  // ---- the check value

  lemma Check1()
    ensures Step(Word(0x00, 0x00, 0x00, 0x00, 0x00, 0x00, 0x00, 0x00), 0x31) == Word(0xfa, 0x39, 0xf7, 0xa9, 0x84, 0x71, 0xc1, 0xfd)
  {
  }

  lemma Check2()
    ensures Step(Word(0xfa, 0x39, 0xf7, 0xa9, 0x84, 0x71, 0xc1, 0xfd), 0x32) == Word(0x96, 0xed, 0x98, 0x3a, 0x51, 0x64, 0x03, 0xe1)
  {
  }

  lemma Check3()
    ensures Step(Word(0x96, 0xed, 0x98, 0x3a, 0x51, 0x64, 0x03, 0xe1), 0x33) == Word(0xac, 0xb1, 0x79, 0x44, 0x81, 0xfb, 0xbc, 0xd5)
  {
  }

  lemma Check4()
    ensures Step(Word(0xac, 0xb1, 0x79, 0x44, 0x81, 0xfb, 0xbc, 0xd5), 0x34) == Word(0xf0, 0x21, 0xa5, 0xcd, 0x5d, 0x3c, 0x59, 0x43)
  {
  }

  lemma Check5()
    ensures Step(Word(0xf0, 0x21, 0xa5, 0xcd, 0x5d, 0x3c, 0x59, 0x43), 0x35) == Word(0x0d, 0x7e, 0x9c, 0x23, 0x13, 0x85, 0x75, 0xf0)
  {
  }

  lemma Check6()
    ensures Step(Word(0x0d, 0x7e, 0x9c, 0x23, 0x13, 0x85, 0x75, 0xf0), 0x36) == Word(0x03, 0x49, 0xab, 0xb2, 0x25, 0x09, 0xa9, 0xa3)
  {
  }

  lemma Check7()
    ensures Step(Word(0x03, 0x49, 0xab, 0xb2, 0x25, 0x09, 0xa9, 0xa3), 0x37) == Word(0x45, 0xad, 0x31, 0x24, 0x36, 0x4d, 0x82, 0x47)
  {
  }

  lemma Check8()
    ensures Step(Word(0x45, 0xad, 0x31, 0x24, 0x36, 0x4d, 0x82, 0x47), 0x38) == Word(0xc2, 0x6d, 0xe8, 0x15, 0xb3, 0x20, 0xec, 0x49)
  {
  }

  lemma Check9()
    ensures Step(Word(0xc2, 0x6d, 0xe8, 0x15, 0xb3, 0x20, 0xec, 0x49), 0x39) == Word(0xca, 0xd9, 0xb8, 0xc4, 0x14, 0xd9, 0xc6, 0xe9)
  {
  }

  /** The checksum of the nine digits from 1 to 9 is e9c6d914c4b8d9ca, as the source's own test expects. */
  lemma CheckValue()
    ensures Crc(ZERO, [0x31, 0x32, 0x33, 0x34, 0x35, 0x36, 0x37, 0x38, 0x39])
         == Word(0xca, 0xd9, 0xb8, 0xc4, 0x14, 0xd9, 0xc6, 0xe9)
  {
    var s: Bytes := [0x31, 0x32, 0x33, 0x34, 0x35, 0x36, 0x37, 0x38, 0x39];
    hide Step, Entry;
    Check1();
    Check2();
    Check3();
    Check4();
    Check5();
    Check6();
    Check7();
    Check8();
    Check9();
    CrcNext(s, 0, Word(0x00, 0x00, 0x00, 0x00, 0x00, 0x00, 0x00, 0x00));
    CrcNext(s, 1, Word(0xfa, 0x39, 0xf7, 0xa9, 0x84, 0x71, 0xc1, 0xfd));
    CrcNext(s, 2, Word(0x96, 0xed, 0x98, 0x3a, 0x51, 0x64, 0x03, 0xe1));
    CrcNext(s, 3, Word(0xac, 0xb1, 0x79, 0x44, 0x81, 0xfb, 0xbc, 0xd5));
    CrcNext(s, 4, Word(0xf0, 0x21, 0xa5, 0xcd, 0x5d, 0x3c, 0x59, 0x43));
    CrcNext(s, 5, Word(0x0d, 0x7e, 0x9c, 0x23, 0x13, 0x85, 0x75, 0xf0));
    CrcNext(s, 6, Word(0x03, 0x49, 0xab, 0xb2, 0x25, 0x09, 0xa9, 0xa3));
    CrcNext(s, 7, Word(0x45, 0xad, 0x31, 0x24, 0x36, 0x4d, 0x82, 0x47));
    CrcNext(s, 8, Word(0xc2, 0x6d, 0xe8, 0x15, 0xb3, 0x20, 0xec, 0x49));
    assert s[..9] == s;
  }

  lemma CrcNext(s: Bytes, i: nat, crc: Word)
    requires i < |s| && Crc(ZERO, s[..i]) == crc
    ensures Crc(ZERO, s[..i + 1]) == Step(crc, s[i])
  {
    hide Step;
    assert s[..i + 1][..i] == s[..i];
  }
}
