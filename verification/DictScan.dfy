/** dictScan on the two tables, and what a scan made of many calls returns while the dictionary
    changes between them. */
module DictScan {
  import opened Wrappers
  import opened Words
  import opened DictModel
  import opened ScanCursor

  /** The k of a table of 2^k buckets. */
  ghost function Log(n: nat): (k: nat)
    requires IsSize(n)
    ensures 2 <= k < WORD_BITS && n == Pow2(k)
  {
    var k: nat :| 2 <= k < WORD_BITS && n == Pow2(k);
    k
  }

  function SizeMaskOf(n: nat): Word
    requires n > 0
  {
    ToWord(n - 1)
  }

  lemma IdxBits(h: Word, n: nat)
    requires IsSize(n)
    ensures SizeMaskOf(n) == Mask(Log(n))
    ensures Idx(h, n) == ToNat(h[..Log(n)])
  {
    SizeMask(Log(n));
    AndMask(h, Log(n));
  }

  lemma IdxEqual(h: Word, v: Word, n: nat)
    requires IsSize(n)
    ensures Idx(h, n) == Idx(v, n) <==> h[..Log(n)] == v[..Log(n)]
  {
    IdxBits(h, n);
    IdxBits(v, n);
    if Idx(h, n) == Idx(v, n) {
      ToNatInjective(h[..Log(n)], v[..Log(n)]);
    }
  }

  function Small<V>(s: State<V>): Table<V> {
    if s.Rehashing() && |s.t0| > |s.t1| then s.t1 else s.t0
  }

  function Large<V>(s: State<V>): Table<V> {
    if s.Rehashing() && |s.t0| > |s.t1| then s.t0 else s.t1
  }

  /** Buckets b, b + step, b + 2 * step, ... of a table. */
  function Expansions<V>(t: Table<V>, b: nat, step: nat): seq<Entry<V>>
    requires step > 0
    decreases |t| - b
  {
    if b >= |t| then [] else t[b] + Expansions(t, b + step, step)
  }

  /** The entries one call passes to the callback. */
  function Emitted<V>(s: State<V>, v: Word): seq<Entry<V>>
    requires Inv(s)
  {
    if Size(s) == 0 then []
    else if !s.Rehashing() then s.t0[Idx(v, |s.t0|)]
    else
      Small(s)[Idx(v, |Small(s)|)] + Expansions(Large(s), Idx(v, |Large(s)|), |Small(s)|)
  }

  /** The cursor one call returns. */
  function NextOf<V>(s: State<V>, v: Word): Word
    requires Inv(s)
  {
    if Size(s) == 0 then Zero() else NextCursor(v, SizeMaskOf(|Small(s)|))
  }

  // ---- what one call emits

  /** b, b + step, b + 2 * step, ... reaches j. */
  predicate Reaches(b: nat, j: nat, step: nat)
    requires step > 0
    decreases if j > b then j - b else 0
  {
    b == j || (b < j && Reaches(b + step, j, step))
  }

  lemma {:induction false} LookupConcat<V>(a: seq<Entry<V>>, b: seq<Entry<V>>, k: Key)
    ensures Lookup(a + b, k) == if Lookup(a, k).Some? then Lookup(a, k) else Lookup(b, k)
  {
    if a == [] {
      assert a + b == b;
    } else {
      assert (a + b)[1..] == a[1..] + b;
      LookupConcat(a[1..], b, k);
    }
  }

  lemma LookupBucket<V>(t: Table<V>, b: nat, k: Key)
    requires TableOk(t) && b < |t|
    ensures Lookup(t[b], k) == if b == Idx(k.hash, |t|) then GetIn(t, k) else None
  {
    LookupSome(t[b], k);
  }

  lemma {:induction false} LookupExpansions<V>(t: Table<V>, b: nat, step: nat, k: Key)
    requires TableOk(t) && step > 0
    ensures Lookup(Expansions(t, b, step), k) ==
      (if t != [] && Reaches(b, Idx(k.hash, |t|), step) then GetIn(t, k) else None)
    decreases |t| - b
  {
    if b < |t| {
      LookupBucket(t, b, k);
      LookupConcat(t[b], Expansions(t, b + step, step), k);
      LookupExpansions(t, b + step, step, k);
      ReachesBeyond(b, Idx(k.hash, |t|), step);
    } else if t != [] {
      assert Idx(k.hash, |t|) < |t|;
    }
  }

  lemma ReachesBeyond(b: nat, j: nat, step: nat)
    requires step > 0
    ensures b > j ==> !Reaches(b, j, step)
  {
  }

  /** Stepping by p changes the high part of low + p * high only. */
  lemma {:induction false} ReachesParts(l: nat, m: nat, l': nat, m': nat, p: nat)
    requires l < p && l' < p
    ensures Reaches(l + p * m, l' + p * m', p) <==> l == l' && m <= m'
    decreases if m' >= m then m' - m + 1 else 0
  {
    Ordered(m, m', p, l);
    Ordered(m', m, p, l');
    if m < m' {
      ReachesParts(l, m + 1, l', m', p);
      Distribute(m, 1, p);
    } else {
      ReachesBeyond(l + p * m, l' + p * m', p);
      if m == m' && l < l' {
        ReachesBeyond(l + p * m + p, l' + p * m', p);
      }
    }
  }

  /** One round of the expansion loop, for masks that may be equal. */
  lemma ExpansionStep(v: Word, k0: nat, k1: nat)
    requires k0 <= k1 <= WORD_BITS
    ensures var v', i := NextExpansion(v, Mask(k0)), ToNat(v[..k1]);
      && v'[..k0] == v[..k0]
      && (And(v', Xor(Mask(k0), Mask(k1))) == Zero() <==> AllClear(v'[k0..k1]))
      && (if i + Pow2(k0) < Pow2(k1) then ToNat(v'[..k1]) == i + Pow2(k0) && !AllClear(v'[k0..k1])
          else AllClear(v'[k0..k1]))
  {
    var v' := NextExpansion(v, Mask(k0));
    var a := And(v', Xor(Mask(k0), Mask(k1)));
    assert forall i :: 0 <= i < WORD_BITS ==> a[i] == (v'[i] && k0 <= i < k1);
    if AllClear(v'[k0..k1]) {
      assert forall i :: k0 <= i < k1 ==> v'[i] == v'[k0..k1][i - k0];
      assert a == Zero();
    } else {
      var j :| 0 <= j < k1 - k0 && v'[k0..k1][j];
      assert a[k0 + j] && !Zero()[k0 + j];
    }
    if k0 < k1 {
      NextExpansionIndex(v, k0, k1);
    } else {
      NextExpansionBits(v, k0);
    }
  }

  lemma ExpansionIdx(v: Word, n0: nat, n1: nat)
    requires IsSize(n0) && IsSize(n1) && n0 <= n1
    ensures var m0, m1, i := SizeMaskOf(n0), SizeMaskOf(n1), Idx(v, n1);
      var v' := NextExpansion(v, m0);
      && i < n1 && ToNat(And(v, m1)) == i
      && v'[..Log(n0)] == v[..Log(n0)]
      && (And(v', Xor(m0, m1)) != Zero() <==> i + n0 < n1)
      && (i + n0 < n1 ==> Idx(v', n1) == i + n0)
  {
    SizesOrdered(n0, n1);
    IdxBits(v, n0);
    IdxBits(v, n1);
    IdxBits(NextExpansion(v, SizeMaskOf(n0)), n1);
    ExpansionStep(v, Log(n0), Log(n1));
  }

  /** One round of the expansion loop keeps `goal`, the entries to be emitted in all. */
  lemma ExpansionRound<V>(t: Table<V>, v: Word, n0: nat, out: seq<Entry<V>>, goal: seq<Entry<V>>)
    requires IsSize(n0) && IsSize(|t|) && n0 <= |t| && out + Expansions(t, Idx(v, |t|), n0) == goal
    ensures var m0, m1 := SizeMaskOf(n0), SizeMaskOf(|t|);
      var v', i := NextExpansion(v, m0), ToNat(And(v, m1));
      && v'[..Log(n0)] == v[..Log(n0)] && i < |t|
      && (if And(v', Xor(m0, m1)) != Zero() then
            out + t[i] + Expansions(t, Idx(v', |t|), n0) == goal && Idx(v, |t|) < Idx(v', |t|) < |t|
          else out + t[i] == goal)
  {
    hide And, Xor, NextExpansion, SizeMaskOf, Log, ToNat, Zero, Idx, Expansions, IsSize;
    ExpansionIdx(v, n0, |t|);
    ExpansionUnfold(t, Idx(v, |t|), n0, out);
  }

  lemma ExpansionUnfold<V>(t: Table<V>, i: nat, step: nat, out: seq<Entry<V>>)
    requires i < |t| && step > 0
    ensures out + Expansions(t, i, step) == out + t[i] + Expansions(t, i + step, step)
    ensures i + step >= |t| ==> out + Expansions(t, i, step) == out + t[i]
  {
    assert Expansions(t, i, step) == t[i] + Expansions(t, i + step, step);
    assert out + (t[i] + Expansions(t, i + step, step)) == out + t[i] + Expansions(t, i + step, step);
  }

  /** The final steps of dictScan, for the cursor the expansion loop leaves. */
  lemma NextFrom(cursor: Word, v: Word, n0: nat)
    requires IsSize(n0) && cursor[..Log(n0)] == v[..Log(n0)]
    ensures Reverse(Increment(Reverse(Or(cursor, Not(SizeMaskOf(n0)))))) == NextCursor(v, SizeMaskOf(n0))
  {
    IdxBits(v, n0);
    SameUnderMask(cursor, v, Log(n0));
  }

  lemma SameUnderMask(a: Word, b: Word, k: nat)
    requires k <= WORD_BITS && a[..k] == b[..k]
    ensures Or(a, Not(Mask(k))) == Or(b, Not(Mask(k)))
  {
    assert forall i :: 0 <= i < k ==> a[i] == a[..k][i] && b[i] == b[..k][i];
  }

  /** Bucket b of the larger table is an expansion of cursor v, and not before it. */
  lemma ReachesBits(h: Word, v: Word, k0: nat, k1: nat)
    requires k0 <= k1 <= WORD_BITS
    ensures Reaches(ToNat(v[..k1]), ToNat(h[..k1]), Pow2(k0)) <==>
      h[..k0] == v[..k0] && ToNat(h[..k1]) >= ToNat(v[..k1])
  {
    hide ToNat, Pow2, Reaches;
    SplitIndex(h, k0, k1);
    SplitIndex(v, k0, k1);
    ReachesParts(ToNat(v[..k0]), ToNat(v[k0..k1]), ToNat(h[..k0]), ToNat(h[k0..k1]), Pow2(k0));
    PartsOrder(ToNat(v[..k0]), ToNat(v[k0..k1]), ToNat(h[k0..k1]), Pow2(k0));
    if ToNat(v[..k0]) == ToNat(h[..k0]) {
      ToNatInjective(h[..k0], v[..k0]);
    }
  }

  lemma PartsOrder(l: nat, m: nat, m': nat, p: nat)
    requires p > 0
    ensures l + p * m <= l + p * m' <==> m <= m'
  {
    Ordered(m, m', p, 0);
    Ordered(m', m, p, 0);
  }

  lemma SplitIndex(v: Word, k0: nat, k1: nat)
    requires k0 <= k1 <= WORD_BITS
    ensures ToNat(v[..k1]) == ToNat(v[..k0]) + Pow2(k0) * ToNat(v[k0..k1])
  {
    ToNatSplit(v[..k1], k0);
    assert v[..k1][..k0] == v[..k0] && v[..k1][k0..] == v[k0..k1];
  }

  /** The call with cursor v comes to the bucket of hash h; in the larger table only the expansions
      from the cursor's own index upwards are tried. */
  ghost predicate Visits<V>(s: State<V>, v: Word, k: Key)
    requires Inv(s) && Size(s) != 0
  {
    NonEmpty(s);
    var k0 := Log(|Small(s)|);
    && k.hash[..k0] == v[..k0]
    && (s.Rehashing() && GetIn(Small(s), k) == None ==>
          var k1 := Log(|Large(s)|);
          ToNat(k.hash[..k1]) >= ToNat(v[..k1]))
  }

  lemma NonEmpty<V>(s: State<V>)
    requires Inv(s) && Size(s) != 0
    ensures IsSize(|Small(s)|) && (s.Rehashing() ==> IsSize(|Large(s)|))
    ensures s.Rehashing() ==> |Small(s)| <= |Large(s)|
  {
    assert s.t0 == [] ==> Used(s.t0) == 0 && Used(s.t1) == 0;
  }

  lemma SizesOrdered(n0: nat, n1: nat)
    requires IsSize(n0) && IsSize(n1) && n0 <= n1
    ensures Log(n0) <= Log(n1)
  {
    if Log(n0) > Log(n1) {
      Pow2Monotonic(Log(n1), Log(n0));
    }
  }

  /** Exactly the entries of the buckets the call comes to are emitted. */
  lemma EmittedExactly<V>(s: State<V>, v: Word, k: Key)
    requires Inv(s) && Size(s) != 0
    ensures Lookup(Emitted(s, v), k) == if Visits(s, v, k) then Get(s, k) else None
  {
    NonEmpty(s);
    var t0, t1 := Small(s), Large(s);
    var n0, n1 := |t0|, |t1|;
    IdxEqual(k.hash, v, n0);
    LookupBucket(t0, Idx(v, n0), k);
    if s.Rehashing() {
      SizesOrdered(n0, n1);
      LookupExpansions(t1, Idx(v, n1), n0, k);
      LookupConcat(t0[Idx(v, n0)], Expansions(t1, Idx(v, n1), n0), k);
      IdxBits(k.hash, n1);
      IdxBits(v, n1);
      ReachesBits(k.hash, v, Log(n0), Log(n1));
    }
  }

  // ---- how often

  /** How many entries have key k. */
  function Times<V>(es: seq<Entry<V>>, k: Key): nat {
    if es == [] then 0 else (if es[0].key == k then 1 else 0) + Times(es[1..], k)
  }

  lemma {:induction false} TimesConcat<V>(a: seq<Entry<V>>, b: seq<Entry<V>>, k: Key)
    ensures Times(a + b, k) == Times(a, k) + Times(b, k)
  {
    if a == [] {
      assert a + b == b;
    } else {
      assert (a + b)[1..] == a[1..] + b;
      TimesConcat(a[1..], b, k);
    }
  }

  lemma {:induction false} TimesDistinct<V>(c: seq<Entry<V>>, k: Key)
    requires DistinctKeys(c)
    ensures Times(c, k) == if Lookup(c, k).Some? then 1 else 0
  {
    if c != [] {
      TimesDistinct(c[1..], k);
      if c[0].key == k && Lookup(c[1..], k).Some? {
        LookupSome(c[1..], k);
        FirstApart(c);
      }
    }
  }

  lemma {:induction false} TimesOfMember<V>(es: seq<Entry<V>>, i: nat)
    requires i < |es|
    ensures Times(es, es[i].key) > 0
  {
    if i > 0 {
      TimesOfMember(es[1..], i - 1);
    }
  }

  /** Entries none of whose keys comes twice. */
  lemma OnceDistinct<V>(es: seq<Entry<V>>)
    requires forall k :: Times(es, k) <= 1
    ensures DistinctKeys(es)
  {
    forall i, j | 0 <= i < j < |es|
      ensures es[i].key != es[j].key
    {
      assert es == es[..j] + es[j..];
      TimesConcat(es[..j], es[j..], es[j].key);
      TimesOfMember(es[..j], i);
      TimesOfMember(es[j..], 0);
    }
  }

  lemma {:induction false} TimesExpansions<V>(t: Table<V>, b: nat, step: nat, k: Key)
    requires TableOk(t) && step > 0
    ensures Times(Expansions(t, b, step), k) ==
      (if t != [] && Reaches(b, Idx(k.hash, |t|), step) && GetIn(t, k).Some? then 1 else 0)
    decreases |t| - b
  {
    if b < |t| {
      LookupBucket(t, b, k);
      TimesDistinct(t[b], k);
      TimesConcat(t[b], Expansions(t, b + step, step), k);
      TimesExpansions(t, b + step, step, k);
      ReachesBeyond(b + step, Idx(k.hash, |t|), step);
    } else if t != [] {
      assert Idx(k.hash, |t|) < |t|;
    }
  }

  /** A call emits a present key once if it comes to its bucket; otherwise, and when it is absent, never. */
  lemma EmittedTimes<V>(s: State<V>, v: Word, k: Key)
    requires Inv(s) && Size(s) != 0
    ensures Times(Emitted(s, v), k) == if Visits(s, v, k) && Get(s, k).Some? then 1 else 0
  {
    NonEmpty(s);
    var t0, t1 := Small(s), Large(s);
    var n0, n1 := |t0|, |t1|;
    IdxEqual(k.hash, v, n0);
    LookupBucket(t0, Idx(v, n0), k);
    TimesDistinct(t0[Idx(v, n0)], k);
    if s.Rehashing() {
      SizesOrdered(n0, n1);
      TimesExpansions(t1, Idx(v, n1), n0, k);
      TimesConcat(t0[Idx(v, n0)], Expansions(t1, Idx(v, n1), n0), k);
      IdxBits(k.hash, n1);
      IdxBits(v, n1);
      ReachesBits(k.hash, v, Log(n0), Log(n1));
      NotInBoth(s, k);
    }
  }

  lemma NotInBoth<V>(s: State<V>, k: Key)
    requires Inv(s) && s.Rehashing()
    ensures GetIn(Small(s), k) == None || GetIn(Large(s), k) == None
  {
  }

  /** One call, on one table or on two, emits no key twice, and every entry as the dictionary holds it. */
  lemma EmittedOnce<V>(s: State<V>, v: Word)
    requires Inv(s)
    ensures DistinctKeys(Emitted(s, v))
    ensures forall e :: e in Emitted(s, v) ==> Get(s, e.key) == Some(e.val)
  {
    if Size(s) != 0 {
      hide Emitted, Get, Inv, Visits;
      forall k
        ensures Times(Emitted(s, v), k) <= 1
      {
        EmittedTimes(s, v, k);
      }
      OnceDistinct(Emitted(s, v));
      forall e | e in Emitted(s, v)
        ensures Get(s, e.key) == Some(e.val)
      {
        LookupMember(Emitted(s, v), e);
        EmittedExactly(s, v, e.key);
      }
    }
  }

  /** A call on an empty dictionary emits nothing and ends the scan. */
  lemma EmptyCall<V>(s: State<V>, v: Word)
    requires Inv(s) && Used(s.t0) == 0 && Used(s.t1) == 0
    ensures NextOf(s, v) == Zero() && Emitted(s, v) == []
  {
  }

  // ---- coverage of one call

  /** No clear bit of v below a set one among the bits that only the larger mask covers. */
  ghost predicate LowOnes(v: Word, k0: nat, k1: nat)
    requires k1 <= WORD_BITS
  {
    forall i, j :: k0 <= i < j < k1 && v[j] ==> v[i]
  }

  /** What a caller can check before the call: either one table is live, or the cursor is aligned with
      the smaller one as far as the expansion loop needs. */
  ghost predicate Aligned<V>(s: State<V>, v: Word)
    requires Inv(s)
  {
    s.Rehashing() ==>
      assert s.t0 != [] && s.t1 != [];
      LowOnes(v, Log(|Small(s)|), Log(|Large(s)|))
  }

  lemma {:induction false} ExpansionsCover(x: seq<bool>, y: seq<bool>, d: nat)
    requires |x| == |y| && d <= |x| && RevNat(y) <= RevNat(x)
    requires forall i, j :: 0 <= i < j < d && y[j] ==> y[i]
    ensures ToNat(y[..d]) <= ToNat(x[..d])
  {
    if d > 0 {
      if y[0] {
        assert x[0];
        assert y[..d][1..] == y[1..][..d - 1] && x[..d][1..] == x[1..][..d - 1];
        ExpansionsCover(x[1..], y[1..], d - 1);
      } else {
        assert AllClear(y[..d]);
        ToNatClear(y[..d]);
      }
    }
  }

  lemma LowOnesShift(v: Word, k0: nat, k1: nat)
    requires k0 <= k1 <= WORD_BITS && LowOnes(v, k0, k1)
    ensures forall i, j :: 0 <= i < j < k1 - k0 && v[k0..][j] ==> v[k0..][i]
  {
    forall i, j | 0 <= i < j < k1 - k0 && v[k0..][j]
      ensures v[k0..][i]
    {
      assert v[k0 + j] ==> v[k0 + i];
    }
  }

  /** The expansions tried include every bucket of the block just when the cursor is aligned. */
  lemma AlignedCovers(h: Word, v: Word, k0: nat, k1: nat)
    requires k0 <= k1 <= WORD_BITS && LowOnes(v, k0, k1)
    requires h[..k0] == v[..k0] && RevNat(v) <= RevNat(h)
    ensures ToNat(h[..k1]) >= ToNat(v[..k1])
  {
    hide ToNat, RevNat, Pow2, LowOnes;
    RevNatSplit(h, k0);
    RevNatSplit(v, k0);
    LowOnesShift(v, k0, k1);
    assert v[k0..][..k1 - k0] == v[k0..k1] && h[k0..][..k1 - k0] == h[k0..k1];
    ExpansionsCover(h[k0..], v[k0..], k1 - k0);
    SplitIndex(h, k0, k1);
    SplitIndex(v, k0, k1);
    PartsOrder(ToNat(v[..k0]), ToNat(v[k0..k1]), ToNat(h[k0..k1]), Pow2(k0));
  }

  lemma NextOfIs<V>(s: State<V>, v: Word)
    requires Inv(s) && Size(s) != 0
    ensures IsSize(|Small(s)|) && NextOf(s, v) == NextCursor(v, Mask(Log(|Small(s)|)))
  {
    NonEmpty(s);
    SizeMask(Log(|Small(s)|));
  }

  lemma BlockAgrees<V>(s: State<V>, v: Word, h: Word)
    requires Inv(s) && Size(s) != 0
    ensures IsSize(|Small(s)|)
    ensures InBlock(h, v, NextOf(s, v)) <==>
      h[..Log(|Small(s)|)] == v[..Log(|Small(s)|)] && RevNat(v) <= RevNat(h)
  {
    NextOfIs(s, v);
    BlockBits(h, v, Log(|Small(s)|));
  }

  /** A call with an aligned cursor emits every present key of its block. */
  lemma CallCovers<V>(s: State<V>, v: Word, k: Key)
    requires Inv(s) && Get(s, k).Some? && Aligned(s, v)
    requires InBlock(k.hash, v, NextOf(s, v))
    ensures Lookup(Emitted(s, v), k) == Get(s, k)
  {
    SizePositive(s, k);
    EmittedExactly(s, v, k);
    BlockAgrees(s, v, k.hash);
    if s.Rehashing() {
      NonEmpty(s);
      SizesOrdered(|Small(s)|, |Large(s)|);
      AlignedCovers(k.hash, v, Log(|Small(s)|), Log(|Large(s)|));
    }
  }

  lemma SizePositive<V>(s: State<V>, k: Key)
    requires Inv(s) && Get(s, k).Some?
    ensures Size(s) != 0
  {
    UsedZero(s.t0);
    UsedZero(s.t1);
  }
}
