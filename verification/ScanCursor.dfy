/** The cursor arithmetic of dictScan. Cursors are compared by `RevNat`, the number read from the
    reversed bits: a call covers the block of reversed hashes from its cursor up to the next. */
module ScanCursor {
  import opened Words

  // ---- bit strings

  ghost predicate AllSet(s: seq<bool>) {
    forall i :: 0 <= i < |s| ==> s[i]
  }

  lemma {:induction false} IncrementOnes(a: seq<bool>, b: seq<bool>)
    requires AllSet(a)
    ensures Increment(a + b)[..|a|] == seq(|a|, i => false)
    ensures Increment(a + b)[|a|..] == Increment(b)
  {
    if a == [] {
      assert a + b == b;
    } else {
      assert (a + b)[1..] == a[1..] + b;
      IncrementOnes(a[1..], b);
      var r := Increment(a[1..] + b);
      assert Increment(a + b) == [false] + r;
      assert ([false] + r)[..|a|] == [false] + r[..|a| - 1];
      assert ([false] + r)[|a|..] == r[|a| - 1..];
    }
  }

  /** The carry never looks at higher bits. */
  lemma {:induction false} IncrementPrefix(a: seq<bool>, n: nat)
    requires n <= |a|
    ensures Increment(a)[..n] == Increment(a[..n])
  {
    if n > 0 {
      assert a[..n][1..] == a[1..][..n - 1];
      IncrementPrefix(a[1..], n - 1);
    }
  }

  lemma RevNatSplit(s: seq<bool>, k: nat)
    requires k <= |s|
    ensures RevNat(s) == RevNat(s[..k]) * Pow2(|s| - k) + RevNat(s[k..])
  {
    assert s == s[..k] + s[k..];
    RevNatConcat(s[..k], s[k..]);
  }

  lemma ToNatSplit(s: seq<bool>, k: nat)
    requires k <= |s|
    ensures ToNat(s) == ToNat(s[..k]) + Pow2(k) * ToNat(s[k..])
  {
    assert s == s[..k] + s[k..];
    ToNatConcat(s[..k], s[k..]);
  }

  // ---- the next cursor

  /** `v |= ~m0; v = rev(v); v++; v = rev(v);` */
  function NextCursor(v: Word, m0: Word): Word {
    Reverse(Increment(Reverse(Or(v, Not(m0)))))
  }

  /** Reversed increment of the bits under the mask; the bits above it are clear. */
  lemma NextCursorBits(v: Word, k: nat)
    requires k <= WORD_BITS
    ensures var n := NextCursor(v, Mask(k));
      n[..k] == Reverse(Increment(Reverse(v[..k]))) && AllClear(n[k..])
  {
    var low := v[..k];
    var w := Or(v, Not(Mask(k)));
    var ones := w[k..];
    assert AllSet(ones);
    assert Reverse(w) == Reverse(ones) + Reverse(low);
    assert AllSet(Reverse(ones));
    IncrementOnes(Reverse(ones), Reverse(low));
    var r := Increment(Reverse(w));
    var hi := WORD_BITS - k;
    assert r[hi..] == Increment(Reverse(low));
    assert NextCursor(v, Mask(k)) == Reverse(r);
    assert Reverse(r)[..k] == Reverse(r[hi..]);
    forall i | k <= i < WORD_BITS
      ensures !Reverse(r)[i]
    {
      assert Reverse(r)[i] == r[..hi][WORD_BITS - 1 - i];
    }
  }

  lemma NextCursorRevNat(v: Word, k: nat)
    requires k <= WORD_BITS
    ensures var n, b := NextCursor(v, Mask(k)), RevNat(v[..k]) + 1;
      if b == Pow2(k) then n == Zero() else RevNat(n) == b * Pow2(WORD_BITS - k) && n != Zero()
  {
    hide NextCursor, Mask, RevNat, ToNat, Increment, Pow2;
    NextCursorBits(v, k);
    var n := NextCursor(v, Mask(k));
    var low := Reverse(v[..k]);
    RevNatIsReverse(v[..k]);
    IncrementIsSuccessor(low);
    RevNatIsReverse(n[..k]);
    assert Reverse(n[..k]) == Increment(low);
    RevNatSplit(n, k);
    ToNatClear(n[k..]);
    ToNatClear(Zero());
    if RevNat(v[..k]) + 1 == Pow2(k) {
      RevNatInjective(n, Zero());
    } else {
      Positive(RevNat(v[..k]) + 1, Pow2(WORD_BITS - k));
    }
  }

  lemma Positive(x: nat, y: nat)
    requires y > 0
    ensures x * y >= x
  {
  }

  /** h lies in the block of reversed hashes that a call from v to v' covers. */
  ghost predicate InBlock(h: Word, v: Word, v': Word) {
    RevNat(v) <= RevNat(h) && (v' == Zero() || RevNat(h) < RevNat(v'))
  }

  lemma Ordered(x: nat, y: nat, b: nat, r: nat)
    requires r < b
    ensures x < y ==> x * b + r < y * b
    ensures x == y ==> x * b + r < (y + 1) * b
    ensures x > y ==> x * b + r >= (y + 1) * b
  {
    Distribute(x, 1, b);
    if x < y {
      Distribute(x + 1, y - x - 1, b);
    } else if x > y {
      Distribute(y + 1, x - y - 1, b);
    }
  }

  /** The block from v consists of hashes that agree with v under the mask, and reaches up to the
      last of them. */
  lemma BlockBits(h: Word, v: Word, k: nat)
    requires k <= WORD_BITS
    ensures var v' := NextCursor(v, Mask(k));
      && (InBlock(h, v, v') ==> h[..k] == v[..k])
      && (h[..k] == v[..k] && RevNat(v) <= RevNat(h) ==> InBlock(h, v, v'))
  {
    hide NextCursor, Mask, RevNat, Pow2;
    var b := Pow2(WORD_BITS - k);
    NextCursorRevNat(v, k);
    RevNatSplit(h, k);
    RevNatSplit(v, k);
    var x, y := RevNat(h[..k]), RevNat(v[..k]);
    Ordered(x, y, b, RevNat(h[k..]));
    if x == y {
      RevNatInjective(h[..k], v[..k]);
    }
    BlockBound(y, b, k);
  }

  lemma BlockBound(y: nat, b: nat, k: nat)
    requires k <= WORD_BITS && b == Pow2(WORD_BITS - k) && y < Pow2(k)
    ensures y + 1 == Pow2(k) ==> (y + 1) * b == Pow2(WORD_BITS)
  {
    Pow2Add(k, WORD_BITS - k);
  }

  /** The reversed cursor strictly increases until it wraps. */
  lemma CursorProgress(v: Word, k: nat)
    requires k <= WORD_BITS
    ensures var v' := NextCursor(v, Mask(k)); v' == Zero() || RevNat(v') > RevNat(v)
  {
    BlockBits(v, v, k);
  }

  // ---- expansions in the larger table

  /** `(((v | m0) + 1) & ~m0) | (v & m0)` */
  function NextExpansion(v: Word, m0: Word): Word {
    Or(And(Increment(Or(v, m0)), Not(m0)), And(v, m0))
  }

  lemma NextExpansionBits(v: Word, k0: nat)
    requires k0 <= WORD_BITS
    ensures NextExpansion(v, Mask(k0)) == v[..k0] + Increment(v[k0..])
  {
    var m0 := Mask(k0);
    var ones := seq(k0, i => true);
    assert Or(v, m0) == ones + v[k0..];
    IncrementOnes(ones, v[k0..]);
    var w := Increment(Or(v, m0));
    assert w[k0..] == Increment(v[k0..]);
    forall i | 0 <= i < WORD_BITS
      ensures NextExpansion(v, m0)[i] == (v[..k0] + Increment(v[k0..]))[i]
    {
      if i >= k0 {
        assert w[i] == w[k0..][i - k0];
      }
    }
  }

  lemma NextExpansionMiddle(v: Word, k0: nat, k1: nat)
    requires k0 < k1 <= WORD_BITS
    ensures var v', mid := NextExpansion(v, Mask(k0)), v[k0..k1];
      v'[..k0] == v[..k0] && v'[k0..k1] == Increment(mid)
  {
    NextExpansionBits(v, k0);
    var v' := NextExpansion(v, Mask(k0));
    IncrementPrefix(v[k0..], k1 - k0);
    assert v[k0..][..k1 - k0] == v[k0..k1];
    assert v'[k0..] == Increment(v[k0..]);
    assert v'[k0..k1] == v'[k0..][..k1 - k0];
    assert v'[..k0] == v[..k0];
  }

  lemma ClearIsZero(s: seq<bool>)
    ensures AllClear(s) <==> ToNat(s) == 0
  {
    if AllClear(s) {
      ToNatClear(s);
    } else if ToNat(s) == 0 {
      ToNatClear(seq(|s|, i => false));
      ToNatInjective(s, seq(|s|, i => false));
    }
  }

  lemma NextExpansionIndex(v: Word, k0: nat, k1: nat)
    requires k0 < k1 <= WORD_BITS
    ensures var v', i := NextExpansion(v, Mask(k0)), ToNat(v[..k1]);
      && v'[..k0] == v[..k0]
      && (if i + Pow2(k0) < Pow2(k1) then ToNat(v'[..k1]) == i + Pow2(k0) && !AllClear(v'[k0..k1])
          else AllClear(v'[k0..k1]))
  {
    hide NextExpansion, ToNat, Pow2, Mask, AllClear;
    var v' := NextExpansion(v, Mask(k0));
    NextExpansionMiddle(v, k0, k1);
    IncrementIsSuccessor(v[k0..k1]);
    ClearIsZero(v'[k0..k1]);
    IndexSplit(v, k0, k1);
    IndexSplit(v', k0, k1);
    Pow2Add(k0, k1 - k0);
    MidArith(ToNat(v[..k0]), ToNat(v[k0..k1]), ToNat(v'[k0..k1]), Pow2(k0), Pow2(k1 - k0));
  }

  lemma IndexSplit(v: Word, k0: nat, k1: nat)
    requires k0 < k1 <= WORD_BITS
    ensures ToNat(v[..k1]) == ToNat(v[..k0]) + Pow2(k0) * ToNat(v[k0..k1])
  {
    ToNatSplit(v[..k1], k0);
    assert v[..k1][..k0] == v[..k0] && v[..k1][k0..] == v[k0..k1];
  }

  lemma MidArith(low: nat, mid: nat, mid': nat, p: nat, q: nat)
    requires low < p && mid < q && mid' == if mid + 1 == q then 0 else mid + 1
    ensures if low + p * mid + p < p * q then low + p * mid' == low + p * mid + p && mid' != 0 else mid' == 0
  {
    Distribute(mid, 1, p);
    Ordered(mid + 1, q, p, low);
  }
}
