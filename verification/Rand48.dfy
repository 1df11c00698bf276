/** redisLrand48: a 48-bit linear congruential generator computed in 16-bit limbs. */
module Rand48 {
  const LIMB: nat := 0x1_0000
  const LIMB32: nat := 0x1_0000_0000
  const MODULUS: nat := 0x1_0000_0000_0000

  const A0: nat := 0xE66D
  const A1: nat := 0xDEEC
  const A2: nat := 0x5
  const C: nat := 0xB
  const X0: nat := 0x330E

  /** The multiplier and the step that drand48 and lrand48 are defined with. */
  const A: nat := 0x5_DEEC_E66D

  function Successor(x: nat): (r: nat)
    ensures r < MODULUS
  {
    (A * x + C) % MODULUS
  }

  function Low(x: nat): (r: nat)
    ensures r < LIMB
  {
    x % LIMB
  }

  /** The high limb of a 32-bit product. */
  function High(x: nat): (r: nat)
    ensures r < LIMB
  {
    x / LIMB % LIMB
  }

  /** The 48 bits that three limbs stand for. */
  function Join(x0: nat, x1: nat, x2: nat): nat {
    x0 + LIMB * x1 + LIMB32 * x2
  }

  /** MUL: the limbs of a product of two limbs, held in a 32-bit integer. */
  method Mul(x: nat, y: nat) returns (low: nat, high: nat)
    requires x < LIMB && y < LIMB
    ensures low + LIMB * high == x * y && low < LIMB && high < LIMB
  {
    var l := x * y;
    ProductBound(x, y);
    low, high := Low(l), High(l);
  }

  lemma ProductBound(x: nat, y: nat)
    requires x < LIMB && y < LIMB
    ensures x * y <= (LIMB - 1) * (LIMB - 1)
  {
    MulLe(x, LIMB - 1, y);
    MulLe(y, LIMB - 1, LIMB - 1);
  }

  lemma MulLe(a: nat, b: nat, c: nat)
    requires a <= b
    ensures a * c <= b * c && a * c == c * a
  {
    assert (b - a) * c >= 0;
    assert b * c == (b - a) * c + a * c;
  }

  /** CARRY. */
  function Carry(x: nat, y: nat): nat {
    if x + y > LIMB - 1 then 1 else 0
  }

  lemma SumOfLimbs(x: nat, y: nat)
    requires x < LIMB && y < LIMB
    ensures Low(x + y) + LIMB * Carry(x, y) == x + y
  {
  }

  /** Only the low limb of the top sum matters. */
  lemma TopLimb(rest: nat, low: nat, t: nat)
    requires low < LIMB32
    ensures low + LIMB32 * Low(t) == (low + LIMB32 * t) % MODULUS
  {
    assert t == Low(t) + LIMB * (t / LIMB);
    assert low + LIMB32 * t == low + LIMB32 * Low(t) + MODULUS * (t / LIMB);
    ModOf(low + LIMB32 * Low(t), t / LIMB);
  }

  lemma ModOf(r: nat, q: nat)
    requires r < MODULUS
    ensures (r + MODULUS * q) % MODULUS == r
  {
  }

  /** What the limb products add up to, short of whole multiples of 2^48. */
  lemma Product(x0: nat, x1: nat, x2: nat)
    ensures A * Join(x0, x1, x2) == A0 * x0 + LIMB * (A0 * x1 + A1 * x0)
      + LIMB32 * (A0 * x2 + A1 * x1 + A2 * x0) + MODULUS * (A1 * x2 + A2 * x1 + A2 * LIMB * x2)
  {
  }

  lemma DropMultiples(a: nat, b: nat, q: nat)
    requires a == b + MODULUS * q
    ensures a % MODULUS == b % MODULUS
  {
    assert b == b % MODULUS + MODULUS * (b / MODULUS);
    assert a == b % MODULUS + MODULUS * (b / MODULUS + q);
    ModOf(b % MODULUS, b / MODULUS + q);
  }

  class Generator {
    var x0: nat
    var x1: nat
    var x2: nat

    predicate Valid()
      reads this
    {
      x0 < LIMB && x1 < LIMB && x2 < LIMB
    }

    function State(): nat
      reads this
    {
      Join(x0, x1, x2)
    }

    constructor ()
      ensures Valid() && State() == 0x1234_ABCD_330E
    {
      x0, x1, x2 := X0, 0xABCD, 0x1234;
    }

    /** redisSrand48. */
    method Seed(seedval: int)
      requires -0x8000_0000 <= seedval < 0x8000_0000
      modifies this
      ensures Valid() && State() == 0x330E + 0x1_0000 * (seedval % 0x1_0000_0000)
    {
      var s := seedval % LIMB32;
      x0, x1, x2 := X0, Low(s), High(s);
    }

    /** next. */
    method Next()
      requires Valid()
      modifies this
      ensures Valid() && State() == Successor(old(State()))
      ensures State() == (0x5_DEEC_E66D * old(State()) + 0xB) % 0x1_0000_0000_0000
    {
      assert Successor(State()) == (0x5_DEEC_E66D * State() + 0xB) % 0x1_0000_0000_0000;
      hide Low, High, Carry, Successor, Join;
      ghost var u0, u1, u2 := x0, x1, x2;
      ghost var m0, m1, m2, t := A0 * x0, A0 * x1, A1 * x0, A0 * x2 + A1 * x1 + A2 * x0;
      var p0, p1 := Mul(A0, x0);
      ghost var v0, v1 := p0, p1;
      var carry0 := Carry(p0, C);
      SumOfLimbs(p0, C);
      p0 := Low(p0 + C);
      ghost var k0 := carry0;
      CarryBit(v0, C);
      var carry1 := Carry(p1, carry0);
      SumOfLimbs(p1, carry0);
      p1 := Low(p1 + carry0);
      ghost var w1 := p1;
      var q0, q1 := Mul(A0, x1);
      carry0 := Carry(p1, q0);
      SumOfLimbs(p1, q0);
      p1 := Low(p1 + q0);
      var r0, r1 := Mul(A1, x0);
      SumOfLimbs(p1, r0);
      ghost var k := Carry(p1, r0);
      var top := carry0 + carry1 + Carry(p1, r0) + q1 + r1 + (A0 * x2 + A1 * x1 + A2 * x0);
      Combine(m0, m1, m2, t, v0, v1, p0, k0, w1, carry1, q0, q1, p1, carry0, r0, r1, Low(p1 + r0), k, top);
      x2 := Low(top);
      x1 := Low(p1 + r0);
      LowSmall(p0);
      x0 := Low(p0);
      Steps(u0, u1, u2, x0 + LIMB * x1, top);
      JoinIs(x0, x1, Low(top));
    }

    /** redisLrand48: the 31 most significant of the 48 bits. */
    method Lrand48() returns (r: nat)
      requires Valid()
      modifies this
      ensures Valid() && State() == Successor(old(State()))
      ensures State() == (0x5_DEEC_E66D * old(State()) + 0xB) % 0x1_0000_0000_0000
      ensures r == State() / 0x2_0000 && r < 0x8000_0000
    {
      Next();
      r := x2 * 0x8000 + x1 / 2;
    }

    /** A run of draws. */
    method Draw(n: nat) returns (rs: seq<nat>)
      requires Valid()
      modifies this
      ensures Valid() && |rs| == n && State() == After(old(State()), n)
      ensures forall i :: 0 <= i < n ==> rs[i] == After(old(State()), i + 1) / 0x2_0000
    {
      rs := [];
      for i := 0 to n
        invariant Valid() && |rs| == i && State() == After(old(State()), i)
        invariant forall j :: 0 <= j < i ==> rs[j] == After(old(State()), j + 1) / 0x2_0000
      {
        hide Successor;
        var r := Lrand48();
        rs := rs + [r];
      }
    }
  }

  /** The state n steps on. */
  function After(x: nat, n: nat): nat
    decreases n
  {
    if n == 0 then x else Successor(After(x, n - 1))
  }

  lemma CarryBit(x: nat, y: nat)
    ensures Carry(x, y) < LIMB
  {
  }

  lemma LowSmall(x: nat)
    requires x < LIMB
    ensures Low(x) == x
  {
  }

  lemma JoinIs(x0: nat, x1: nat, x2: nat)
    requires x0 < LIMB && x1 < LIMB
    ensures Join(x0, x1, x2) == x0 + LIMB * x1 + LIMB32 * x2 && x0 + LIMB * x1 < LIMB32
  {
  }

  /** The carries put the limbs of the products back together. */
  lemma Combine(m0: nat, m1: nat, m2: nat, t: nat, v0: nat, v1: nat, y0: nat, k0: nat, w1: nat, k1: nat, q0: nat, q1: nat,
      z1: nat, k2: nat, r0: nat, r1: nat, y1: nat, k3: nat, top: nat)
    requires v0 + LIMB * v1 == m0
    requires y0 + LIMB * k0 == v0 + C
    requires w1 + LIMB * k1 == v1 + k0
    requires q0 + LIMB * q1 == m1
    requires z1 + LIMB * k2 == w1 + q0
    requires r0 + LIMB * r1 == m2
    requires y1 + LIMB * k3 == z1 + r0
    requires top == k2 + k1 + k3 + q1 + r1 + t
    ensures m0 + LIMB * (m1 + m2) + C + LIMB32 * t == y0 + LIMB * y1 + LIMB32 * top
  {
  }

  lemma Steps(u0: nat, u1: nat, u2: nat, low: nat, top: nat)
    requires low < LIMB32
    requires A0 * u0 + LIMB * (A0 * u1 + A1 * u0) + C + LIMB32 * (A0 * u2 + A1 * u1 + A2 * u0) == low + LIMB32 * top
    ensures low + LIMB32 * Low(top) == Successor(Join(u0, u1, u2))
  {
    Product(u0, u1, u2);
    TopLimb(0, low, top);
    DropMultiples(A * Join(u0, u1, u2) + C, low + LIMB32 * top, A1 * u2 + A2 * u1 + A2 * LIMB * u2);
  }
}
