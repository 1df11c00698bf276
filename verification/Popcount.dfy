/** redisPopcount: bits counted sixteen bytes at a time. */
module Popcount {
  import opened Sequences

  /** The number of ones in a byte. */
  function Ones(b: bv8): bv8 {
    (b & 1) + ((b >> 1) & 1) + ((b >> 2) & 1) + ((b >> 3) & 1) +
    ((b >> 4) & 1) + ((b >> 5) & 1) + ((b >> 6) & 1) + ((b >> 7) & 1)
  }

  function Weight(b: bv8): nat {
    Ones(b) as nat
  }

  /** The number of ones in a string. */
  function OnesIn(s: Bytes): nat {
    if s == [] then 0 else Weight(s[0]) + OnesIn(s[1..])
  }

  lemma {:induction false} OnesConcat(a: Bytes, b: Bytes)
    ensures OnesIn(a + b) == OnesIn(a) + OnesIn(b)
    decreases |a|
  {
    hide Weight;
    if a == [] {
      assert a + b == b;
    } else {
      assert (a + b)[1..] == a[1..] + b;
      OnesConcat(a[1..], b);
    }
  }

  lemma OnesNext(s: Bytes, i: nat)
    requires i < |s|
    ensures OnesIn(s[..i + 1]) == OnesIn(s[..i]) + Weight(s[i])
  {
    hide Weight;
    assert s[..i + 1] == s[..i] + [s[i]];
    OnesConcat(s[..i], [s[i]]);
    assert [s[i]][1..] == [];
  }

  // ---- the table

  /** The sixteen constants that every row of bitsinbyte repeats, on top of the row's own first entry. */
  function Nibble(l: bv8): nat {
    if l == 0 then 0 else if l == 1 then 1 else if l == 2 then 1 else if l == 3 then 2
    else if l == 4 then 1 else if l == 5 then 2 else if l == 6 then 2 else if l == 7 then 3
    else if l == 8 then 1 else if l == 9 then 2 else if l == 10 then 2 else if l == 11 then 3
    else if l == 12 then 2 else if l == 13 then 3 else if l == 14 then 3 else 4
  }

  /** bitsinbyte[b]. */
  function BitsInByte(b: bv8): nat {
    Nibble(b >> 4) + Nibble(b & 15)
  }

  lemma NibbleOnes(l: bv8)
    requires l < 16
    ensures Nibble(l) == Weight(l) && Ones(l) <= 4
  {
    match l
    case 0 => case 1 => case 2 => case 3 => case 4 => case 5 => case 6 => case 7 =>
    case 8 => case 9 => case 10 => case 11 => case 12 => case 13 => case 14 =>
    case _ => assert l == 15;
  }

  lemma Halves(b: bv8)
    ensures b >> 4 < 16 && b & 15 < 16 && Ones(b) == Ones(b >> 4) + Ones(b & 15)
  {
  }

  lemma AddSmall8(a: bv8, b: bv8)
    requires a <= 8 && b <= 8
    ensures (a + b) as nat == a as nat + b as nat
  {
  }

  /** The table counts ones. */
  lemma TableCounts(b: bv8)
    ensures BitsInByte(b) == Weight(b)
  {
    Halves(b);
    NibbleOnes(b >> 4);
    NibbleOnes(b & 15);
    hide Ones, Nibble;
    AddSmall8(Ones(b >> 4), Ones(b & 15));
  }

  // ---- thirty-two bits at once

  /** A 32-bit load. */
  function Load(b0: bv8, b1: bv8, b2: bv8, b3: bv8): bv32 {
    b0 as bv32 | (b1 as bv32 << 8) | (b2 as bv32 << 16) | (b3 as bv32 << 24)
  }

  function Pairs(aux: bv32): bv32 {
    aux - ((aux >> 1) & 0x55555555)
  }

  function Fours(aux: bv32): bv32 {
    (aux & 0x33333333) + ((aux >> 2) & 0x33333333)
  }

  function Eights(aux: bv32): bv32 {
    (aux + (aux >> 4)) & 0x0F0F0F0F
  }

  function Gather(aux: bv32): bv32 {
    (aux * 0x01010101) >> 24
  }

  function Swar(aux: bv32): bv32 {
    Gather(Eights(Fours(Pairs(aux))))
  }

  /** The ones of each byte of a word. */
  function Bits0(x: bv32): bv32 {
    (x & 1) + ((x >> 1) & 1) + ((x >> 2) & 1) + ((x >> 3) & 1) +
    ((x >> 4) & 1) + ((x >> 5) & 1) + ((x >> 6) & 1) + ((x >> 7) & 1)
  }

  function Bits1(x: bv32): bv32 {
    ((x >> 8) & 1) + ((x >> 9) & 1) + ((x >> 10) & 1) + ((x >> 11) & 1) +
    ((x >> 12) & 1) + ((x >> 13) & 1) + ((x >> 14) & 1) + ((x >> 15) & 1)
  }

  function Bits2(x: bv32): bv32 {
    ((x >> 16) & 1) + ((x >> 17) & 1) + ((x >> 18) & 1) + ((x >> 19) & 1) +
    ((x >> 20) & 1) + ((x >> 21) & 1) + ((x >> 22) & 1) + ((x >> 23) & 1)
  }

  function Bits3(x: bv32): bv32 {
    ((x >> 24) & 1) + ((x >> 25) & 1) + ((x >> 26) & 1) + ((x >> 27) & 1) +
    ((x >> 28) & 1) + ((x >> 29) & 1) + ((x >> 30) & 1) + ((x >> 31) & 1)
  }

  lemma Byte0(x: bv32)
    ensures Eights(Fours(Pairs(x))) & 0xff == Bits0(x)
  {
  }

  lemma Byte1(x: bv32)
    ensures (Eights(Fours(Pairs(x))) >> 8) & 0xff == Bits1(x)
  {
  }

  lemma Byte2(x: bv32)
    ensures (Eights(Fours(Pairs(x))) >> 16) & 0xff == Bits2(x)
  {
  }

  lemma Byte3(x: bv32)
    ensures Eights(Fours(Pairs(x))) >> 24 == Bits3(x)
  {
  }

  lemma EightsClear(x: bv32)
    ensures Eights(x) & 0xF0F0F0F0 == 0
  {
  }

  lemma GatherAdds(a: bv32)
    requires a & 0xF0F0F0F0 == 0
    requires a & 0xff <= 8 && (a >> 8) & 0xff <= 8 && (a >> 16) & 0xff <= 8 && a >> 24 <= 8
    ensures Gather(a) == (a & 0xff) + ((a >> 8) & 0xff) + ((a >> 16) & 0xff) + (a >> 24)
  {
  }

  lemma GatherIs(a: bv32, w0: bv32, w1: bv32, w2: bv32, w3: bv32)
    requires a & 0xF0F0F0F0 == 0 && w0 <= 8 && w1 <= 8 && w2 <= 8 && w3 <= 8
    requires a & 0xff == w0 && (a >> 8) & 0xff == w1 && (a >> 16) & 0xff == w2 && a >> 24 == w3
    ensures Gather(a) == w0 + w1 + w2 + w3
  {
    GatherAdds(a);
    hide Gather;
  }

  lemma LoadByte0(b0: bv8, b1: bv8, b2: bv8, b3: bv8)
    ensures Bits0(Load(b0, b1, b2, b3)) == Ones32(b0)
  {
  }

  lemma LoadByte1(b0: bv8, b1: bv8, b2: bv8, b3: bv8)
    ensures Bits1(Load(b0, b1, b2, b3)) == Ones32(b1)
  {
  }

  lemma LoadByte2(b0: bv8, b1: bv8, b2: bv8, b3: bv8)
    ensures Bits2(Load(b0, b1, b2, b3)) == Ones32(b2)
  {
  }

  lemma LoadByte3(b0: bv8, b1: bv8, b2: bv8, b3: bv8)
    ensures Bits3(Load(b0, b1, b2, b3)) == Ones32(b3)
  {
  }

  function Ones32(b: bv8): bv32 {
    Ones(b) as bv32
  }

  lemma OnesSmall(b: bv8)
    ensures Ones32(b) <= 8 && Ones(b) <= 8
  {
  }

  lemma SwarWords(b0: bv8, b1: bv8, b2: bv8, b3: bv8)
    ensures Swar(Load(b0, b1, b2, b3))
         == Ones32(b0) + Ones32(b1) + Ones32(b2) + Ones32(b3)
  {
    var x := Load(b0, b1, b2, b3);
    var a := Eights(Fours(Pairs(x)));
    hide Ones32, Load, Pairs, Fours, Eights, Gather, Bits0, Bits1, Bits2, Bits3;
    Byte0(x);
    Byte1(x);
    Byte2(x);
    Byte3(x);
    LoadByte0(b0, b1, b2, b3);
    LoadByte1(b0, b1, b2, b3);
    LoadByte2(b0, b1, b2, b3);
    LoadByte3(b0, b1, b2, b3);
    OnesSmall(b0);
    OnesSmall(b1);
    OnesSmall(b2);
    OnesSmall(b3);
    EightsClear(Fours(Pairs(x)));
    GatherIs(a, Ones32(b0), Ones32(b1), Ones32(b2), Ones32(b3));
  }

  function Nat(a: bv32): nat {
    a as nat
  }

  lemma AddSmall(a: bv32, b: bv32)
    requires a <= 24 && b <= 8
    ensures Nat(a + b) == Nat(a) + Nat(b)
  {
  }

  lemma Bounds(a: bv32, b: bv32)
    requires b <= 8
    ensures (a <= 8 ==> a + b <= 16) && (a <= 16 ==> a + b <= 24) && (a <= 24 ==> a + b <= 32)
  {
  }

  lemma Widen(b: bv8)
    requires b <= 8
    ensures Nat(b as bv32) == b as nat
  {
  }

  lemma Ones32Weight(b: bv8)
    ensures Nat(Ones32(b)) == Weight(b)
  {
    hide Ones, Nat;
    OnesSmall(b);
    Widen(Ones(b));
  }

  lemma SumFour(a: bv32, b: bv32, c: bv32, d: bv32)
    requires a <= 8 && b <= 8 && c <= 8 && d <= 8
    ensures Nat(a + b + c + d) == Nat(a) + Nat(b) + Nat(c) + Nat(d)
  {
    hide Nat;
    Bounds(a, b);
    Bounds(a + b, c);
    AddSmall(a, b);
    AddSmall(a + b, c);
    AddSmall(a + b + c, d);
  }

  /** The arithmetic on a 32-bit word counts the ones of its four bytes. */
  lemma SwarCounts(b0: bv8, b1: bv8, b2: bv8, b3: bv8)
    ensures Nat(Swar(Load(b0, b1, b2, b3))) == Weight(b0) + Weight(b1) + Weight(b2) + Weight(b3)
  {
    hide *;
    SwarWords(b0, b1, b2, b3);
    OnesSmall(b0);
    OnesSmall(b1);
    OnesSmall(b2);
    OnesSmall(b3);
    Ones32Weight(b0);
    Ones32Weight(b1);
    Ones32Weight(b2);
    Ones32Weight(b3);
    SumFour(Ones32(b0), Ones32(b1), Ones32(b2), Ones32(b3));
  }

  // ---- the loop

  /** Four bytes from i on. */
  function LoadAt(s: Bytes, i: nat): bv32
    requires i + 4 <= |s|
  {
    Load(s[i], s[i + 1], s[i + 2], s[i + 3])
  }

  lemma LoadCounts(s: Bytes, i: nat)
    requires i + 4 <= |s|
    ensures OnesIn(s[..i]) + Nat(Swar(LoadAt(s, i))) == OnesIn(s[..i + 4])
  {
    hide Swar, Load, Weight, Nat, OnesIn;
    OnesNext(s, i);
    OnesNext(s, i + 1);
    OnesNext(s, i + 2);
    OnesNext(s, i + 3);
    SwarCounts(s[i], s[i + 1], s[i + 2], s[i + 3]);
  }

  lemma SixteenCounts(s: Bytes, i: nat)
    requires i + 16 <= |s|
    ensures OnesIn(s[..i]) + Nat(Swar(LoadAt(s, i))) + Nat(Swar(LoadAt(s, i + 4))) + Nat(Swar(LoadAt(s, i + 8)))
      + Nat(Swar(LoadAt(s, i + 12))) == OnesIn(s[..i + 16])
  {
    hide Swar, LoadAt, Nat, OnesIn;
    LoadCounts(s, i);
    LoadCounts(s, i + 4);
    LoadCounts(s, i + 8);
    LoadCounts(s, i + 12);
  }

  /** redisPopcount, on a string that starts at the given address; the four 32-bit counts of a turn are added as
      numbers, each being at most 32. */
  method Popcount(s: Bytes, address: nat) returns (bits: nat)
    ensures bits == OnesIn(s)
  {
    bits := 0;
    var p, count: int := 0, |s|;
    assert OnesIn(s[..0]) == 0;
    hide Swar, LoadAt, Weight, BitsInByte, Nat, OnesIn;
    while (address + p) % 4 != 0 && count != 0
      invariant 0 <= p && p + count == |s| && count >= 0 && bits == OnesIn(s[..p])
      decreases count
    {
      OnesNext(s, p);
      TableCounts(s[p]);
      bits := bits + BitsInByte(s[p]);
      p, count := p + 1, count - 1;
    }
    while count >= 16
      invariant 0 <= p && p + count == |s| && count >= 0 && bits == OnesIn(s[..p])
    {
      SixteenCounts(s, p);
      var aux1, aux2, aux3, aux4 := LoadAt(s, p), LoadAt(s, p + 4), LoadAt(s, p + 8), LoadAt(s, p + 12);
      bits := bits + Nat(Swar(aux1)) + Nat(Swar(aux2)) + Nat(Swar(aux3)) + Nat(Swar(aux4));
      p, count := p + 16, count - 16;
    }
    while count != 0
      invariant 0 <= p && p + count == |s| && count >= 0 && bits == OnesIn(s[..p])
      decreases count
    {
      OnesNext(s, p);
      TableCounts(s[p]);
      bits := bits + BitsInByte(s[p]);
      p, count := p + 1, count - 1;
    }
    assert s[..p] == s;
  }
}
