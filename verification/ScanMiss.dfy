/** A scan that never returns a key that is present throughout: a table of 64 buckets is shrunk to 4
    by dictResize, and the next call, with cursor 16, lands before the entry has moved. */
module ScanMiss {
  import opened Wrappers
  import opened Words
  import opened DictModel
  import opened ScanCursor
  import opened DictScan
  import opened ScanRuns

  ghost function Bit(i: nat): Word {
    seq(WORD_BITS, j => j == i)
  }

  ghost function Victim(): Key {
    Key("victim", Bit(3))
  }

  /** 64 buckets, one entry, in bucket 8. */
  ghost function Before(): State<int> {
    Sizes();
    State(Push(EmptyTable(64), Entry(Victim(), 0)), [], -1, 0)
  }

  ghost function After(): State<int> {
    Sizes();
    Shrinking(4, 64, Victim())
  }

  lemma LogIs(k: nat)
    requires 2 <= k < WORD_BITS
    ensures IsSize(Pow2(k)) && Log(Pow2(k)) == k
  {
    var j := Log(Pow2(k));
    if j < k {
      Pow2Monotonic(j, k);
    } else if k < j {
      Pow2Monotonic(k, j);
    }
  }

  lemma Sizes()
    ensures IsSize(64) && IsSize(4) && Log(64) == 6 && Log(4) == 2
  {
    assert Pow2(6) == 64 && Pow2(2) == 4;
    LogIs(6);
    LogIs(2);
  }

  /** A dictionary of one entry that dictResize will shrink to the initial size. */
  lemma ShrinksToInitial(n0: nat, n1: nat, k: Key)
    requires IsSize(n1) && n0 == INITIAL_SIZE
    ensures var t := EmptyTable<int>(n1);
      && Sized(t) && t != [] && IsSize(n0)
      && var s := State(Push(t, Entry(k, 0)), [], -1, 0);
      && Inv(s) && Size(s) == 1 && Get(s, k) == Some(0) && Used(s.t0) < LONG_MAX
      && Resize(s, true) == Some(Shrinking(n0, n1, k))
  {
    hide ToNat, And, ToWord, Idx;
    InitialSize();
    EmptyTableOk<int>(n1);
    PushOk(EmptyTable(n1), Entry(k, 0));
    hide EmptyTable, Push, GetIn;
    assert Used<int>([]) == 0 && TableOk<int>([]);
    assert NextPower(n0, n0) == n0;
  }

  /** The second state is the first one after dictResize. */
  lemma ResizeShrinks()
    ensures Inv(Before()) && Size(Before()) == 1 && Get(Before(), Victim()) == Some(0)
    ensures Used(Before().t0) < LONG_MAX && Resize(Before(), true) == Some(After())
  {
    hide Inv, Get, GetIn, Used, Push, EmptyTable, Resize, Shrinking, Victim, NextPower;
    Sizes();
    ShrinksToInitial(4, 64, Victim());
  }

  lemma StepCursor(i: nat, v: Word, low: seq<bool>)
    requires i < 6 && |low| == 6 && v[..6] == low
    requires Increment(Reverse(low)) == Reverse(Bit(i)[..6])
    ensures NextCursor(v, Mask(6)) == Bit(i)
  {
    NextCursorBits(v, 6);
    var r, b := NextCursor(v, Mask(6)), Bit(i)[..6];
    assert Reverse(Reverse(b)) == b;
    assert r == r[..6] + r[6..];
    assert Bit(i) == b + Bit(i)[6..];
    assert r[6..] == Bit(i)[6..];
  }

  lemma Increments()
    ensures Increment(Reverse(Zero()[..6])) == Reverse(Bit(5)[..6])
    ensures Increment(Reverse(Bit(5)[..6])) == Reverse(Bit(4)[..6])
  {
    var z := Reverse(Zero()[..6]);
    assert Increment(z) == [true] + z[1..];
    assert Reverse(Bit(5)[..6]) == [true] + z[1..];
    assert ([true] + z[1..])[1..] == z[1..];
    assert Increment(z[1..]) == [true] + z[2..];
    assert Reverse(Bit(4)[..6]) == [false] + ([true] + z[2..]);
  }

  lemma FirstCursors(s: State<int>)
    requires Inv(s) && Size(s) != 0 && IsSize(|Small(s)|) && Log(|Small(s)|) == 6
    ensures NextOf(s, Zero()) == Bit(5) && NextOf(s, Bit(5)) == Bit(4)
  {
    NextOfIs(s, Zero());
    NextOfIs(s, Bit(5));
    Increments();
    StepCursor(5, Zero(), Zero()[..6]);
    StepCursor(4, Bit(5), Bit(5)[..6]);
  }

  /** The calls from cursor v on, with the dictionary unchanged, until the cursor is zero. */
  ghost function Rest<V>(s: State<V>, v: Word): seq<Word>
    requires Inv(s) && Size(s) != 0
    decreases Pow2(WORD_BITS) - RevNat(v)
  {
    CursorStep(s, v);
    [v] + if NextOf(s, v) == Zero() then [] else Rest(s, NextOf(s, v))
  }

  lemma {:induction false} RestOk<V>(s: State<V>, v: Word)
    requires Inv(s) && Size(s) != 0
    ensures var r := Rest(s, v);
      && |r| > 0 && r[0] == v && NextOf(s, r[|r| - 1]) == Zero()
      && (forall i :: 0 <= i < |r| - 1 ==> r[i + 1] == NextOf(s, r[i]))
      && (forall i :: 0 < i < |r| ==> r[i] != Zero())
    decreases Pow2(WORD_BITS) - RevNat(v)
  {
    CursorStep(s, v);
    if NextOf(s, v) != Zero() {
      RestOk(s, NextOf(s, v));
    }
  }

  /** Past the block of a hash, an unchanged dictionary never returns its key. */
  lemma {:induction false} RestMisses<V>(s: State<V>, k: Key, v: Word, i: nat)
    requires Inv(s) && Size(s) != 0 && IsSize(|Small(s)|) && AllClear(v[Log(|Small(s)|)..])
    requires RevNat(v) > RevNat(k.hash) && i < |Rest(s, v)|
    ensures Lookup(Emitted(s, Rest(s, v)[i]), k) == None
    decreases Pow2(WORD_BITS) - RevNat(v)
  {
    ClearCursorExact(s, v, k);
    if i > 0 {
      CursorStep(s, v);
      NextOfBits(s, v);
      RestMisses(s, k, NextOf(s, v), i - 1);
    }
  }

  ghost function LostStates<V>(a: State<V>, s: State<V>, n: nat): seq<State<V>> {
    [a, a, s] + seq(n, i => s)
  }

  ghost function LostCursors(c1: Word, c2: Word, rest: seq<Word>): seq<Word> {
    [Zero(), c1, c2] + rest + [Zero()]
  }

  /** Two calls on a, then calls on s to the end, are a scan. */
  lemma LostIsScan<V>(a: State<V>, s: State<V>, c1: Word, c2: Word, c3: Word)
    requires Inv(a) && Inv(s) && Size(s) != 0
    requires NextOf(a, Zero()) == c1 && NextOf(a, c1) == c2 && NextOf(s, c2) == c3
    requires Zero() != c1 && Zero() != c2 && Zero() != c3
    ensures var rest := Rest(s, c3); IsScan(LostStates(a, s, |rest|), LostCursors(c1, c2, rest))
  {
    hide Inv, Rest, NextOf;
    RestOk(s, c3);
    var rest := Rest(s, c3);
    var states, cursors := LostStates(a, s, |rest|), LostCursors(c1, c2, rest);
    assert forall i :: 0 <= i < |rest| ==> cursors[3 + i] == rest[i];
    assert cursors[|states|] == Zero();
    forall i | 0 <= i < |states|
      ensures Inv(states[i]) && cursors[i + 1] == NextOf(states[i], cursors[i])
      ensures i > 0 ==> cursors[i] != Zero()
    {
      if i >= 3 {
        assert cursors[i] == rest[i - 3];
      }
    }
  }

  lemma LostPresent<V>(a: State<V>, s: State<V>, n: nat, k: Key)
    requires Inv(a) && Inv(s) && Get(a, k).Some? && Get(s, k).Some?
    ensures var states := LostStates(a, s, n);
      && (forall i :: 0 <= i < |states| ==> Inv(states[i])) && Present(states, k)
      && |states| == n + 3 && states[0] == states[1] == a && states[2] == s
      && (forall i :: 2 <= i < |states| ==> states[i] == states[2])
  {
    hide Inv, Get;
  }

  /** The call with cursor v does not return k. */
  ghost predicate Misses<V>(s: State<V>, v: Word, k: Key) {
    Inv(s) && Lookup(Emitted(s, v), k) == None
  }

  lemma LostMisses<V>(a: State<V>, s: State<V>, k: Key, c1: Word, c2: Word, c3: Word, rest: seq<Word>, i: nat)
    requires Inv(s) && Size(s) != 0 && NextOf(s, c2) == c3 && rest == Rest(s, c3)
    requires Misses(a, Zero(), k) && Misses(a, c1, k) && Misses(s, c2, k) && RevNat(c3) > RevNat(k.hash)
    requires i < 3 + |rest|
    ensures Misses(LostStates(a, s, |rest|)[i], LostCursors(c1, c2, rest)[i], k)
  {
    hide Inv, Rest, Emitted, NextOf;
    if i >= 3 {
      NextOfBits(s, c2);
      RestMisses(s, k, c3, i - 3);
    }
  }

  /** The cursor 2^j comes after bucket 2^i in index order, and before it in scan order. */
  lemma LowerBit(i: nat, j: nat, k0: nat, k1: nat)
    requires k0 <= i < j < k1 <= WORD_BITS
    ensures Bit(i)[..k0] == Bit(j)[..k0] && RevNat(Bit(j)) <= RevNat(Bit(i))
    ensures ToNat(Bit(i)[..k1]) < ToNat(Bit(j)[..k1])
  {
    assert SkippedHash(Bit(j), i) == Bit(i);
    SkippedHashAfter(Bit(j), i);
    SkippedHashBelow(Bit(j), k1, i, j);
  }

  /** The call with cursor 16 on tables of 4 and 64 buckets skips bucket 8. */
  lemma LateCall(n0: nat, n1: nat, k: Key)
    requires IsSize(n0) && IsSize(n1) && n0 < n1 && Log(n0) == 2 && Log(n1) == 6 && k.hash == Bit(3)
    ensures var s := Shrinking(n0, n1, k);
      && Inv(s) && Size(s) == 1 && Get(s, k) == Some(0)
      && Misses(s, Bit(4), k)
      && NextOf(s, Bit(4)) != Zero() && RevNat(NextOf(s, Bit(4))) > RevNat(k.hash)
  {
    hide Inv, Emitted, NextOf, Get, Bit, RevNat, ToNat, Shrinking;
    ShrinkingOk(n0, n1, k);
    LowerBit(3, 4, 2, 6);
    Skips(n0, n1, Bit(4), k);
    NextOfIs(Shrinking(n0, n1, k), Bit(4));
    NextNotZero();
  }

  lemma NextNotZero()
    ensures NextCursor(Bit(4), Mask(2)) != Zero()
  {
    NextCursorRevNat(Bit(4), 2);
    ToNatClear(Bit(4)[..2]);
    assert Pow2(2) == 4;
  }

  lemma EarlyCall(s: State<int>, v: Word)
    requires Inv(s) && Size(s) != 0 && !s.Rehashing() && IsSize(|s.t0|) && Log(|s.t0|) == 6
    requires v == Zero() || v == Bit(5)
    ensures Misses(s, v, Victim())
  {
    EmittedExactly(s, v, Victim());
    assert Victim().hash[..6][3] && !v[..6][3];
  }

  lemma LostScan(n0: nat, n1: nat, a: State<int>) returns (states: seq<State<int>>, cursors: seq<Word>)
    requires IsSize(n0) && IsSize(n1) && n0 < n1 && Log(n0) == 2 && Log(n1) == 6
    requires Inv(a) && Size(a) != 0 && !a.Rehashing() && |a.t0| == n1 && Get(a, Victim()).Some?
    ensures IsScan(states, cursors) && Present(states, Victim())
    ensures |states| > 2 && states[0] == states[1] == a && states[2] == Shrinking(n0, n1, Victim())
    ensures forall i :: 2 <= i < |states| ==> states[i] == states[2]
    ensures forall i :: 0 <= i < |states| ==> Misses(states[i], cursors[i], Victim())
  {
    hide Inv, Rest, Emitted, NextOf, Get, Shrinking, Misses, IsScan, Present;
    var k := Victim();
    var s := Shrinking(n0, n1, k);
    LateCall(n0, n1, k);
    FirstCursors(a);
    EarlyCall(a, Zero());
    EarlyCall(a, Bit(5));
    assert Bit(5)[5] && Bit(4)[4];
    var c3 := NextOf(s, Bit(4));
    var rest := Rest(s, c3);
    states, cursors := LostStates(a, s, |rest|), LostCursors(Bit(5), Bit(4), rest);
    LostIsScan(a, s, Bit(5), Bit(4), c3);
    LostPresent(a, s, |rest|, k);
    hide LostStates, LostCursors;
    forall i | 0 <= i < |states|
      ensures Misses(states[i], cursors[i], k)
    {
      LostMisses(a, s, k, Bit(5), Bit(4), c3, rest, i);
    }
  }

  /** The guarantee of dictScan fails without the halving condition: the key is present in every
      state, the only change is one dictResize, and no call returns the key. */
  lemma ShrinkingScanMisses() returns (states: seq<State<int>>, cursors: seq<Word>)
    ensures IsScan(states, cursors) && Present(states, Victim())
    ensures |states| > 2 && states[0] == states[1] && Used(states[1].t0) < LONG_MAX
    ensures Resize(states[1], true) == Some(states[2])
    ensures forall i :: 2 <= i < |states| ==> states[i] == states[2]
    ensures forall i :: 0 <= i < |states| ==> Misses(states[i], cursors[i], Victim())
  {
    Sizes();
    ResizeShrinks();
    states, cursors := LostScan(4, 64, Before());
  }
}
