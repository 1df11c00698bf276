/** Whole scans: many calls of dictScan, from cursor 0 until the cursor is 0 again, with arbitrary
    changes of the dictionary between the calls. */
module ScanRuns {
  import opened Wrappers
  import opened Words
  import opened DictModel
  import opened ScanCursor
  import opened DictScan

  /** Call i runs on states[i] with cursors[i]; the caller stops at the first zero cursor. */
  ghost predicate IsScan<V>(states: seq<State<V>>, cursors: seq<Word>) {
    && |states| > 0 && |cursors| == |states| + 1
    && cursors[0] == Zero() && cursors[|states|] == Zero()
    && (forall i :: 0 <= i < |states| ==> Inv(states[i]) && cursors[i + 1] == NextOf(states[i], cursors[i]))
    && (forall i :: 0 < i < |states| ==> cursors[i] != Zero())
  }

  ghost predicate Present<V>(states: seq<State<V>>, k: Key)
    requires forall i :: 0 <= i < |states| ==> Inv(states[i])
  {
    forall i :: 0 <= i < |states| ==> Get(states[i], k).Some?
  }

  /** Call i returns key k with its value. */
  ghost predicate Returns<V>(states: seq<State<V>>, cursors: seq<Word>, k: Key, i: nat)
    requires i < |states| && |cursors| == |states| + 1 && Inv(states[i])
  {
    Lookup(Emitted(states[i], cursors[i]), k).Some? && Lookup(Emitted(states[i], cursors[i]), k) == Get(states[i], k)
  }

  lemma {:induction false} CoveredFrom<V>(states: seq<State<V>>, cursors: seq<Word>, k: Key, i: nat)
    requires IsScan(states, cursors) && Present(states, k) && i < |states|
    requires forall j :: i <= j < |states| ==> Aligned(states[j], cursors[j])
    requires RevNat(cursors[i]) <= RevNat(k.hash)
    ensures exists j :: i <= j < |states| && Returns(states, cursors, k, j)
    decreases |states| - i
  {
    if InBlock(k.hash, cursors[i], cursors[i + 1]) {
      CallCovers(states[i], cursors[i], k);
      assert Returns(states, cursors, k, i);
    } else {
      CoveredFrom(states, cursors, k, i + 1);
    }
  }

  /** A scan whose calls are all aligned returns every key that is present throughout. */
  lemma ScanCovers<V>(states: seq<State<V>>, cursors: seq<Word>, k: Key)
    requires IsScan(states, cursors) && Present(states, k)
    requires forall i :: 0 <= i < |states| ==> Aligned(states[i], cursors[i])
    ensures exists i :: 0 <= i < |states| && Returns(states, cursors, k, i)
  {
    ToNatClear(Zero());
    CoveredFrom(states, cursors, k, 0);
  }

  /** Whenever a call lands in a rehashing, the smaller live table is at least half as large as the
      smaller table of the call before. */
  ghost predicate HalvesAtMost<V>(states: seq<State<V>>) {
    forall i :: 0 < i < |states| && states[i].Rehashing() ==> 2 * |Small(states[i])| >= |Small(states[i - 1])|
  }

  lemma NextOfBits<V>(s: State<V>, v: Word)
    requires Inv(s) && Size(s) != 0
    ensures IsSize(|Small(s)|)
    ensures AllClear(NextOf(s, v)[Log(|Small(s)|)..])
  {
    NextOfIs(s, v);
    NextCursorBits(v, Log(|Small(s)|));
  }

  lemma HalfLog(n0: nat, n: nat)
    requires IsSize(n0) && IsSize(n) && 2 * n0 >= n
    ensures Log(n) <= Log(n0) + 1
  {
    if Log(n) > Log(n0) + 1 {
      Pow2Monotonic(Log(n0) + 1, Log(n));
    }
  }

  lemma ClearLowOnes(v: Word, k: nat, k0: nat, k1: nat)
    requires k <= WORD_BITS && k <= k0 + 1 && k1 <= WORD_BITS && AllClear(v[k..])
    ensures LowOnes(v, k0, k1)
  {
    forall j | k <= j < WORD_BITS
      ensures !v[j]
    {
      assert v[k..][j - k] == v[j];
    }
  }

  lemma HalvingAligns<V>(s: State<V>, v: Word, s': State<V>)
    requires Inv(s) && Inv(s') && Size(s) != 0 && Size(s') != 0
    requires s'.Rehashing() ==> 2 * |Small(s')| >= |Small(s)|
    ensures Aligned(s', NextOf(s, v))
  {
    NextOfBits(s, v);
    NonEmpty(s');
    if s'.Rehashing() {
      HalfLog(|Small(s')|, |Small(s)|);
      ClearLowOnes(NextOf(s, v), Log(|Small(s)|), Log(|Small(s')|), Log(|Large(s')|));
    }
  }

  /** The guarantee of dictScan, for every interleaving of changes that shrinks at most by half. */
  lemma ScanCoversHalving<V>(states: seq<State<V>>, cursors: seq<Word>, k: Key)
    requires IsScan(states, cursors) && Present(states, k) && HalvesAtMost(states)
    ensures exists i :: 0 <= i < |states| && Returns(states, cursors, k, i)
  {
    forall i | 0 <= i < |states|
      ensures Aligned(states[i], cursors[i])
    {
      SizePositive(states[i], k);
      if i > 0 {
        SizePositive(states[i - 1], k);
        HalvingAligns(states[i - 1], cursors[i - 1], states[i]);
      }
    }
    ScanCovers(states, cursors, k);
  }

  // ---- no changes: exactly once

  lemma ClearBelow(v: Word, h: Word, k0: nat)
    requires k0 <= WORD_BITS && AllClear(v[k0..]) && h[..k0] == v[..k0]
    ensures RevNat(v) <= RevNat(h)
  {
    RevNatSplit(h, k0);
    RevNatSplit(v, k0);
    ToNatClear(v[k0..]);
  }

  lemma ClearIndexBelow(v: Word, h: Word, k0: nat, k1: nat)
    requires k0 <= k1 <= WORD_BITS && AllClear(v[k0..]) && h[..k0] == v[..k0]
    ensures ToNat(v[..k1]) <= ToNat(h[..k1])
  {
    assert v[k0..k1] == v[k0..][..k1 - k0];
    assert AllClear(v[k0..k1]);
    hide ToNat, Pow2, AllClear;
    ToNatClear(v[k0..k1]);
    SplitIndex(h, k0, k1);
    SplitIndex(v, k0, k1);
    PartsOrder(ToNat(v[..k0]), ToNat(v[k0..k1]), ToNat(h[k0..k1]), Pow2(k0));
  }

  /** With the bits above the smaller mask clear, a call emits exactly its block. */
  lemma ClearCursorExact<V>(s: State<V>, v: Word, k: Key)
    requires Inv(s) && Size(s) != 0
    requires IsSize(|Small(s)|) && AllClear(v[Log(|Small(s)|)..])
    ensures Lookup(Emitted(s, v), k) == if InBlock(k.hash, v, NextOf(s, v)) then Get(s, k) else None
  {
    EmittedExactly(s, v, k);
    BlockAgrees(s, v, k.hash);
    var k0 := Log(|Small(s)|);
    if k.hash[..k0] == v[..k0] {
      ClearBelow(v, k.hash, k0);
      NonEmpty(s);
      if s.Rehashing() {
        SizesOrdered(|Small(s)|, |Large(s)|);
        ClearIndexBelow(v, k.hash, k0, Log(|Large(s)|));
      }
    }
  }

  lemma CursorStep<V>(s: State<V>, v: Word)
    requires Inv(s) && Size(s) != 0
    ensures NextOf(s, v) == Zero() || RevNat(NextOf(s, v)) > RevNat(v)
  {
    NextOfIs(s, v);
    CursorProgress(v, Log(|Small(s)|));
  }

  lemma {:induction false} CursorsIncrease<V>(states: seq<State<V>>, cursors: seq<Word>, i: nat, j: nat)
    requires IsScan(states, cursors) && i <= j < |states|
    requires forall m :: 0 <= m < |states| ==> Size(states[m]) != 0
    ensures RevNat(cursors[i]) <= RevNat(cursors[j])
    decreases j - i
  {
    if i < j {
      CursorStep(states[i], cursors[i]);
      CursorsIncrease(states, cursors, i + 1, j);
    }
  }

  ghost predicate Unchanged<V>(states: seq<State<V>>, s: State<V>) {
    forall i :: 0 <= i < |states| ==> states[i] == s
  }

  /** A scan of an unchanged dictionary returns every key in exactly one of its calls. */
  lemma UnchangedScanOnce<V>(states: seq<State<V>>, cursors: seq<Word>, s: State<V>, k: Key, i: nat, j: nat)
    requires IsScan(states, cursors) && Inv(s) && Unchanged(states, s)
    requires Get(s, k).Some? && i < |states| && j < |states|
    requires Returns(states, cursors, k, i) && Returns(states, cursors, k, j)
    ensures i == j
  {
    SizePositive(s, k);
    UnchangedBlock(states, cursors, s, k, i);
    UnchangedBlock(states, cursors, s, k, j);
    if i < j {
      CursorsIncrease(states, cursors, i + 1, j);
    } else if j < i {
      CursorsIncrease(states, cursors, j + 1, i);
    }
  }

  /** Everything the calls with these cursors emit. */
  ghost function Output<V>(s: State<V>, cursors: seq<Word>): seq<Entry<V>>
    requires Inv(s)
  {
    if cursors == [] then [] else Emitted(s, cursors[0]) + Output(s, cursors[1..])
  }

  /** No bit of the cursor is set above the mask of the smaller table. */
  ghost predicate Clear<V>(s: State<V>, v: Word) {
    IsSize(|Small(s)|) && AllClear(v[Log(|Small(s)|)..])
  }

  lemma ClearTimes<V>(s: State<V>, v: Word, k: Key)
    requires Inv(s) && Size(s) != 0 && Clear(s, v)
    ensures Times(Emitted(s, v), k) == if InBlock(k.hash, v, NextOf(s, v)) && Get(s, k).Some? then 1 else 0
    ensures Clear(s, NextOf(s, v))
  {
    EmittedTimes(s, v, k);
    EmittedExactly(s, v, k);
    ClearCursorExact(s, v, k);
    NextOfBits(s, v);
  }

  lemma UnchangedStep<V>(states: seq<State<V>>, cursors: seq<Word>, s: State<V>, i: nat)
    requires IsScan(states, cursors) && Inv(s) && Unchanged(states, s) && i < |states|
    ensures cursors[i + 1] == NextOf(s, cursors[i]) && (cursors[i + 1] == Zero() <==> i + 1 == |states|)
  {
    hide Inv, NextOf, Zero;
    assert states[i] == s;
  }

  lemma UnchangedBlock<V>(states: seq<State<V>>, cursors: seq<Word>, s: State<V>, k: Key, i: nat)
    requires IsScan(states, cursors) && Inv(s) && Unchanged(states, s)
    requires Get(s, k).Some? && i < |states| && Returns(states, cursors, k, i)
    ensures InBlock(k.hash, cursors[i], cursors[i + 1])
  {
    SizePositive(s, k);
    NonEmpty(s);
    assert states[i] == s && Lookup(Emitted(s, cursors[i]), k).Some?;
    UnchangedStep(states, cursors, s, i);
    if i > 0 {
      UnchangedStep(states, cursors, s, i - 1);
      hide *;
      NextOfBits(s, cursors[i - 1]);
      ClearCursorExact(s, cursors[i], k);
    } else {
      assert cursors[i] == Zero();
      hide IsScan, Emitted, NextOf, Inv, Get, Lookup, Returns;
      ClearCursorExact(s, cursors[i], k);
    }
  }

  lemma OutputNext<V>(s: State<V>, cursors: seq<Word>, i: nat, n: nat, k: Key)
    requires Inv(s) && i < n <= |cursors|
    ensures Times(Output(s, cursors[i..n]), k)
         == Times(Emitted(s, cursors[i]), k) + Times(Output(s, cursors[i + 1..n]), k)
    ensures Times(Output(s, cursors[n..n]), k) == 0
  {
    assert cursors[i..n][0] == cursors[i] && cursors[i..n][1..] == cursors[i + 1..n];
    hide Emitted, Inv, Times;
    assert Output(s, cursors[i..n]) == Emitted(s, cursors[i]) + Output(s, cursors[i + 1..n]);
    TimesConcat(Emitted(s, cursors[i]), Output(s, cursors[i + 1..n]), k);
    assert Output(s, cursors[n..n]) == [];
    TimesNone<V>(k);
  }

  lemma TimesNone<V>(k: Key)
    ensures Times<V>([], k) == 0
  {
  }

  lemma {:induction false} OutputFrom<V>(states: seq<State<V>>, cursors: seq<Word>, s: State<V>, k: Key, i: nat)
    requires IsScan(states, cursors) && Inv(s) && Size(s) != 0 && Unchanged(states, s)
    requires i < |states| && Clear(s, cursors[i])
    ensures Times(Output(s, cursors[i..|states|]), k)
         == if RevNat(cursors[i]) <= RevNat(k.hash) && Get(s, k).Some? then 1 else 0
    decreases |states| - i
  {
    assert |cursors| == |states| + 1;
    hide Emitted, NextOf, Inv, Get, Size, Clear, RevNat, IsScan, Unchanged, Output, Times;
    UnchangedStep(states, cursors, s, i);
    ClearTimes(s, cursors[i], k);
    CursorStep(s, cursors[i]);
    OutputNext(s, cursors, i, |states|, k);
    if i + 1 < |states| {
      OutputFrom(states, cursors, s, k, i + 1);
    }
  }

  lemma EmptyOutput<V>(s: State<V>, cursors: seq<Word>)
    requires Inv(s) && Size(s) == 0
    ensures Output(s, cursors) == []
  {
    if cursors != [] {
      EmptyOutput(s, cursors[1..]);
    }
  }

  /** A scan of an unchanged dictionary returns every key that is in it exactly once, and no other. */
  lemma UnchangedScanComplete<V>(states: seq<State<V>>, cursors: seq<Word>, s: State<V>, k: Key)
    requires IsScan(states, cursors) && Inv(s) && Unchanged(states, s)
    ensures Times(Output(s, cursors[..|states|]), k) == if Get(s, k).Some? then 1 else 0
  {
    if Size(s) == 0 {
      if Get(s, k).Some? {
        SizePositive(s, k);
      }
      EmptyOutput(s, cursors[..|states|]);
    } else {
      NonEmpty(s);
      assert RevNat(cursors[0]) == 0 && Clear(s, cursors[0]) by {
        ToNatClear(Zero());
      }
      assert cursors[0..|states|] == cursors[..|states|];
      hide Output, Inv, Get, Clear, Size, IsScan;
      OutputFrom(states, cursors, s, k, 0);
    }
  }

  // ---- exactness of the alignment condition

  /** Two live tables of n0 and n1 buckets: from cursor v every key of the block is emitted. */
  ghost predicate CoversAll(n0: nat, n1: nat, v: Word) {
    forall s: State<int>, k: Key
      | Inv(s) && s.Rehashing() && |Small(s)| == n0 && |Large(s)| == n1 && Get(s, k).Some?
        && InBlock(k.hash, v, NextOf(s, v))
      :: Lookup(Emitted(s, v), k) == Get(s, k)
  }

  /** A dictionary with one entry, in the middle of shrinking from n1 to n0 buckets. */
  ghost function Shrinking(n0: nat, n1: nat, k: Key): State<int>
    requires IsSize(n1)
  {
    State(Push(EmptyTable(n1), Entry(k, 0)), EmptyTable(n0), 0, 0)
  }

  lemma ShrinkingOk(n0: nat, n1: nat, k: Key)
    requires IsSize(n0) && IsSize(n1) && n0 < n1
    ensures var s := Shrinking(n0, n1, k);
      && Inv(s) && Size(s) == 1 && s.Rehashing() && |Small(s)| == n0 && |Large(s)| == n1
      && Get(s, k) == Some(0) && GetIn(Small(s), k) == None
  {
    EmptyTableOk<int>(n0);
    EmptyTableOk<int>(n1);
    PushOk(EmptyTable(n1), Entry(k, 0));
  }

  /** The hash that a clear bit i below a set bit j makes a call skip. */
  ghost function SkippedHash(v: Word, i: nat): Word
    requires i < WORD_BITS
  {
    v[..i] + [true] + seq(WORD_BITS - i - 1, m => false)
  }

  lemma SkippedHashAfter(v: Word, i: nat)
    requires i < WORD_BITS && !v[i]
    ensures RevNat(v) <= RevNat(SkippedHash(v, i))
  {
    var h := SkippedHash(v, i);
    assert h[..i] == v[..i] && h[i] && v[i..][0] == v[i] && h[i..][0] == h[i];
    RevNatSplit(h, i);
    RevNatSplit(v, i);
    assert RevNat(v[i..]) == RevNat(v[i..][1..]) < Pow2(WORD_BITS - i - 1);
  }

  lemma SkippedHashBelow(v: Word, k1: nat, i: nat, j: nat)
    requires i < j < k1 <= WORD_BITS && !v[i] && v[j]
    ensures ToNat(SkippedHash(v, i)[..k1]) < ToNat(v[..k1])
  {
    var h := SkippedHash(v, i);
    SplitIndex(h, i + 1, k1);
    SplitIndex(v, i + 1, k1);
    ClearIsZero(h[i + 1..k1]);
    ClearIsZero(v[i + 1..k1]);
    assert v[i + 1..k1][j - i - 1];
    Positive(Pow2(i + 1), ToNat(v[i + 1..k1]));
  }

  lemma LowOnesCover(n0: nat, n1: nat, v: Word)
    requires IsSize(n0) && IsSize(n1) && n0 <= n1 && LowOnes(v, Log(n0), Log(n1))
    ensures CoversAll(n0, n1, v)
  {
    forall s: State<int>, k: Key | Inv(s) && s.Rehashing() && |Small(s)| == n0 && |Large(s)| == n1
      && Get(s, k).Some? && InBlock(k.hash, v, NextOf(s, v))
      ensures Lookup(Emitted(s, v), k) == Get(s, k)
    {
      CallCovers(s, v, k);
    }
  }

  lemma GapSkips(n0: nat, n1: nat, v: Word, i: nat, j: nat)
    requires IsSize(n0) && IsSize(n1) && n0 < n1 && Log(n0) <= i < j < Log(n1) && !v[i] && v[j]
    ensures !CoversAll(n0, n1, v)
  {
    SkippedHashAfter(v, i);
    SkippedHashBelow(v, Log(n1), i, j);
    assert SkippedHash(v, i)[..Log(n0)] == v[..Log(n0)];
    var k := Key("skipped", SkippedHash(v, i));
    Skips(n0, n1, v, k);
    assert Lookup(Emitted(Shrinking(n0, n1, k), v), k) == None;
  }

  /** The alignment a caller can check is exactly what coverage of the block needs. */
  lemma CoverageIffLowOnes(n0: nat, n1: nat, v: Word)
    requires IsSize(n0) && IsSize(n1) && n0 <= n1
    ensures CoversAll(n0, n1, v) <==> LowOnes(v, Log(n0), Log(n1))
  {
    if LowOnes(v, Log(n0), Log(n1)) {
      LowOnesCover(n0, n1, v);
    } else {
      var i, j :| Log(n0) <= i < j < Log(n1) && v[j] && !v[i];
      GapSkips(n0, n1, v, i, j);
    }
  }

  lemma Skips(n0: nat, n1: nat, v: Word, k: Key)
    requires IsSize(n0) && IsSize(n1) && n0 < n1
    requires k.hash[..Log(n0)] == v[..Log(n0)] && RevNat(v) <= RevNat(k.hash)
    requires ToNat(k.hash[..Log(n1)]) < ToNat(v[..Log(n1)])
    ensures var s := Shrinking(n0, n1, k);
      && Inv(s) && s.Rehashing() && |Small(s)| == n0 && |Large(s)| == n1 && Get(s, k).Some?
      && InBlock(k.hash, v, NextOf(s, v)) && Lookup(Emitted(s, v), k) == None
  {
    ShrinkingOk(n0, n1, k);
    var s := Shrinking(n0, n1, k);
    BlockAgrees(s, v, k.hash);
    EmittedExactly(s, v, k);
  }
}
