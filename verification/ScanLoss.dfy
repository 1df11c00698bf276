/** Which scans can lose a key, from the sizes of the tables and the cursors alone. */
module ScanLoss {
  import opened Wrappers
  import opened Words
  import opened DictModel
  import opened ScanCursor
  import opened DictScan
  import opened ScanRuns

  /** The live tables a call finds: one, or a smaller and a larger one during a rehashing. */
  datatype Tables = One(n: nat) | Two(n: nat, large: nat)

  ghost predicate IsTables(t: Tables) {
    IsSize(t.n) && (t.Two? ==> IsSize(t.large) && t.n <= t.large)
  }

  ghost predicate HasTables<V>(s: State<V>, t: Tables) {
    && Inv(s) && Size(s) != 0 && |Small(s)| == t.n && (s.Rehashing() <==> t.Two?)
    && (t.Two? ==> |Large(s)| == t.large)
  }

  /** Cursors from zero to the first zero, over tables of these sizes. */
  ghost predicate IsPath(tables: seq<Tables>, cursors: seq<Word>) {
    && |tables| > 0 && |cursors| == |tables| + 1 && cursors[0] == Zero() && cursors[|tables|] == Zero()
    && (forall i :: 0 <= i < |tables| ==>
          IsTables(tables[i]) && cursors[i + 1] == NextCursor(cursors[i], SizeMaskOf(tables[i].n)))
    && (forall i :: 0 < i < |tables| ==> cursors[i] != Zero())
  }

  ghost predicate IsHistory<V>(states: seq<State<V>>, tables: seq<Tables>) {
    |states| == |tables| && forall i :: 0 <= i < |tables| ==> HasTables(states[i], tables[i])
  }

  /** Some history with tables of these sizes has a key that is present throughout and never returned. */
  ghost predicate Loses(tables: seq<Tables>, cursors: seq<Word>)
    requires |cursors| == |tables| + 1
  {
    exists states: seq<State<int>>, k: Key :: LosesKey(states, tables, cursors, k)
  }

  ghost predicate LosesKey<V>(states: seq<State<V>>, tables: seq<Tables>, cursors: seq<Word>, k: Key)
    requires |cursors| == |tables| + 1
  {
    && IsHistory(states, tables) && Present(states, k)
    && forall i :: 0 <= i < |states| ==> !Returns(states, cursors, k, i)
  }

  /** The call comes to the bucket of hash h in each live table. */
  ghost predicate Visited(t: Tables, v: Word, h: Word)
    requires IsTables(t)
  {
    h[..Log(t.n)] == v[..Log(t.n)]
    && (t.Two? ==> ToNat(h[..Log(t.large)]) >= ToNat(v[..Log(t.large)]))
  }

  ghost predicate NeverVisited(tables: seq<Tables>, cursors: seq<Word>, h: Word)
    requires IsPath(tables, cursors)
  {
    forall i :: 0 <= i < |tables| ==> !Visited(tables[i], cursors[i], h)
  }

  // ---- the exact condition

  /** A dictionary with these tables and one entry, in the table that a rehashing empties. */
  ghost function Single(t: Tables, k: Key): State<int>
    requires IsTables(t)
  {
    match t
    case One(n) => State(Push(EmptyTable(n), Entry(k, 0)), [], -1, 0)
    case Two(n, large) => Shrinking(n, large, k)
  }

  lemma SingleHas(t: Tables, k: Key)
    requires IsTables(t)
    ensures HasTables(Single(t, k), t) && Get(Single(t, k), k).Some?
  {
    EmptyTableOk<int>(t.n);
    if t.One? {
      PushOk(EmptyTable(t.n), Entry(k, 0));
    } else {
      EmptyTableOk<int>(t.large);
      PushOk(EmptyTable(t.large), Entry(k, 0));
    }
    hide EmptyTable, Push, IsSize;
  }

  lemma SingleOk(t: Tables, v: Word, k: Key)
    requires IsTables(t)
    ensures var s := Single(t, k);
      HasTables(s, t) && Get(s, k).Some? && (Lookup(Emitted(s, v), k).Some? ==> Visited(t, v, k.hash))
  {
    SingleHas(t, k);
    var s := Single(t, k);
    if t.Two? && t.n < t.large {
      ShrinkingOk(t.n, t.large, k);
    }
    hide Single, Emitted, Get, GetIn, Inv, ToNat, Shrinking, Small, Large, Size;
    EmittedExactly(s, v, k);
    SingleVisited(s, t, v, k);
  }

  lemma SingleVisited(s: State<int>, t: Tables, v: Word, k: Key)
    requires IsTables(t) && HasTables(s, t)
    requires t.Two? && t.n < t.large ==> GetIn(Small(s), k) == None
    ensures Visits(s, v, k) ==> Visited(t, v, k.hash)
  {
    hide GetIn, Inv, ToNat, IsSize;
  }

  lemma VisitedReturns<V>(s: State<V>, t: Tables, v: Word, k: Key)
    requires IsTables(t) && HasTables(s, t) && Visited(t, v, k.hash)
    ensures Lookup(Emitted(s, v), k) == Get(s, k)
  {
    EmittedExactly(s, v, k);
  }

  lemma LostUnvisited(states: seq<State<int>>, tables: seq<Tables>, cursors: seq<Word>, k: Key)
    requires IsPath(tables, cursors) && LosesKey(states, tables, cursors, k)
    ensures NeverVisited(tables, cursors, k.hash)
  {
    forall i | 0 <= i < |tables|
      ensures !Visited(tables[i], cursors[i], k.hash)
    {
      assert IsTables(tables[i]) && HasTables(states[i], tables[i]) && Get(states[i], k).Some?;
      assert !Returns(states, cursors, k, i);
      if Visited(tables[i], cursors[i], k.hash) {
        hide *;
        VisitedReturns(states[i], tables[i], cursors[i], k);
      }
    }
  }

  lemma UnvisitedLost(tables: seq<Tables>, cursors: seq<Word>, h: Word)
    requires IsPath(tables, cursors) && NeverVisited(tables, cursors, h)
    ensures Loses(tables, cursors)
  {
    var k := Key("lost", h);
    var states := seq(|tables|, i requires 0 <= i < |tables| => Single(tables[i], k));
    hide Single, Visited, Emitted, Inv;
    forall i | 0 <= i < |tables|
      ensures HasTables(states[i], tables[i]) && Get(states[i], k).Some? && !Returns(states, cursors, k, i)
    {
      SingleOk(tables[i], cursors[i], k);
    }
    assert LosesKey(states, tables, cursors, k);
  }

  /** A key can be lost exactly when there is a hash whose bucket no call comes to. */
  lemma LosesIff(tables: seq<Tables>, cursors: seq<Word>)
    requires IsPath(tables, cursors)
    ensures Loses(tables, cursors) <==> exists h: Word :: NeverVisited(tables, cursors, h)
  {
    if Loses(tables, cursors) {
      var states: seq<State<int>>, k :| LosesKey(states, tables, cursors, k);
      LostUnvisited(states, tables, cursors, k);
    }
    if h: Word :| NeverVisited(tables, cursors, h) {
      UnvisitedLost(tables, cursors, h);
    }
  }

  // ---- and when it comes about

  /** A call that may skip buckets of its block. */
  ghost predicate Misaligned(t: Tables, v: Word)
    requires IsTables(t)
  {
    t.Two? && !LowOnes(v, Log(t.n), Log(t.large))
  }

  lemma PathStep(tables: seq<Tables>, cursors: seq<Word>, i: nat)
    requires IsPath(tables, cursors) && i < |tables|
    ensures cursors[i + 1] == NextCursor(cursors[i], Mask(Log(tables[i].n)))
    ensures cursors[i + 1] == Zero() || RevNat(cursors[i + 1]) > RevNat(cursors[i])
  {
    SizeMask(Log(tables[i].n));
    CursorProgress(cursors[i], Log(tables[i].n));
  }

  lemma {:induction false} PathRises(tables: seq<Tables>, cursors: seq<Word>, i: nat, j: nat)
    requires IsPath(tables, cursors) && i <= j < |tables|
    ensures RevNat(cursors[i]) <= RevNat(cursors[j])
    decreases j - i
  {
    if i < j {
      PathStep(tables, cursors, i);
      PathRises(tables, cursors, i + 1, j);
    }
  }

  /** A call comes to no bucket of a block behind it or, while tables do not get smaller, before it. */
  lemma OtherCallsMiss(tables: seq<Tables>, cursors: seq<Word>, i: nat, h: Word, j: nat)
    requires IsPath(tables, cursors) && i < |tables| && j < |tables| && j != i
    requires InBlock(h, cursors[i], cursors[i + 1]) && (j > i ==> tables[j].n >= tables[i].n)
    ensures !Visited(tables[j], cursors[j], h)
  {
    hide RevNat, NextCursor, ToNat, Mask;
    var ki, kj := Log(tables[i].n), Log(tables[j].n);
    PathStep(tables, cursors, i);
    PathStep(tables, cursors, j);
    BlockBits(h, cursors[i], ki);
    if j < i {
      PathRises(tables, cursors, j + 1, i);
      BlockBits(h, cursors[j], kj);
    } else {
      PathRises(tables, cursors, i + 1, j);
      SizesOrdered(tables[i].n, tables[j].n);
      BlockBits(cursors[j], cursors[i], ki);
      assert h[..kj][..ki] == h[..ki] && cursors[j][..kj][..ki] == cursors[j][..ki];
    }
  }

  lemma SkippedInBlock(v: Word, k: nat, b: nat)
    requires k <= b < WORD_BITS && !v[b]
    ensures InBlock(SkippedHash(v, b), v, NextCursor(v, Mask(k)))
  {
    SkippedHashAfter(v, b);
    assert SkippedHash(v, b)[..k] == v[..k];
    BlockBits(SkippedHash(v, b), v, k);
  }

  lemma MisalignedLoses(tables: seq<Tables>, cursors: seq<Word>, i: nat)
    requires IsPath(tables, cursors) && i < |tables| && Misaligned(tables[i], cursors[i])
    requires forall j :: i < j < |tables| ==> tables[j].n >= tables[i].n
    ensures Loses(tables, cursors)
  {
    var t, v := tables[i], cursors[i];
    var a, b :| Log(t.n) <= a < b < Log(t.large) && v[b] && !v[a];
    var h := SkippedHash(v, a);
    SkippedHashBelow(v, Log(t.large), a, b);
    SkippedInBlock(v, Log(t.n), a);
    PathStep(tables, cursors, i);
    forall j | 0 <= j < |tables|
      ensures !Visited(tables[j], cursors[j], h)
    {
      if j != i {
        OtherCallsMiss(tables, cursors, i, h, j);
      }
    }
    assert NeverVisited(tables, cursors, h);
    LosesIff(tables, cursors);
  }

  lemma AlignedKeeps(tables: seq<Tables>, cursors: seq<Word>)
    requires IsPath(tables, cursors) && forall i :: 0 <= i < |tables| ==> !Misaligned(tables[i], cursors[i])
    ensures !Loses(tables, cursors)
  {
    if Loses(tables, cursors) {
      var states: seq<State<int>>, k :| LosesKey(states, tables, cursors, k);
      assert IsScan(states, cursors) by {
        forall i | 0 <= i < |states|
          ensures Inv(states[i]) && cursors[i + 1] == NextOf(states[i], cursors[i])
        {
        }
      }
      ScanCovers(states, cursors, k);
    }
  }

  /** For a whole scan: as long as the smaller live table is never smaller than at a misaligned call before, some
      dictionary with these tables loses a key if and only if some call is misaligned. */
  lemma LosesIffMisaligned(tables: seq<Tables>, cursors: seq<Word>)
    requires IsPath(tables, cursors)
    requires forall i, j :: 0 <= i < j < |tables| && Misaligned(tables[i], cursors[i]) ==> tables[j].n >= tables[i].n
    ensures Loses(tables, cursors) <==> exists i :: 0 <= i < |tables| && Misaligned(tables[i], cursors[i])
  {
    if i :| 0 <= i < |tables| && Misaligned(tables[i], cursors[i]) {
      MisalignedLoses(tables, cursors, i);
    } else {
      AlignedKeeps(tables, cursors);
    }
  }

  // ---- the condition without a bound on the tables

  /** Bit a of the cursor is clear below a set one, among the bits that only the larger mask covers. */
  ghost predicate Gap(t: Tables, v: Word, a: nat)
    requires IsTables(t)
  {
    t.Two? && Log(t.n) <= a < Log(t.large) && !v[a] && exists b :: a < b < Log(t.large) && v[b]
  }

  /** Call i skips the bucket that gap a leaves out, and no later call comes to it. */
  ghost predicate SkipsForGood(tables: seq<Tables>, cursors: seq<Word>, i: nat, a: nat)
    requires IsPath(tables, cursors) && i < |tables|
  {
    Gap(tables[i], cursors[i], a)
    && forall j :: i < j < |tables| ==> !Visited(tables[j], cursors[j], SkippedHash(cursors[i], a))
  }

  /** Where a string that is not less in reversed order is less in index order, there is a gap. */
  lemma {:induction false} FirstGap(x: seq<bool>, y: seq<bool>, d: nat) returns (a: nat, b: nat)
    requires |x| == |y| && d <= |x| && RevNat(y) <= RevNat(x) && ToNat(x[..d]) < ToNat(y[..d])
    ensures a < b < d && x[..a] == y[..a] && x[a] && !y[a] && y[b]
    decreases d
  {
    assert d > 0;
    assert x[..d][1..] == x[1..][..d - 1] && y[..d][1..] == y[1..][..d - 1];
    if x[0] == y[0] {
      a, b := FirstGap(x[1..], y[1..], d - 1);
      assert x[..a + 1] == [x[0]] + x[1..][..a] && y[..a + 1] == [y[0]] + y[1..][..a];
      a, b := a + 1, b + 1;
    } else {
      a := 0;
      b := HigherBit(x, y, d);
    }
  }

  lemma HigherBit(x: seq<bool>, y: seq<bool>, d: nat) returns (b: nat)
    requires 0 < d <= |x| == |y| && x[0] != y[0]
    requires RevNat(y) <= RevNat(x) && ToNat(x[..d]) < ToNat(y[..d])
    ensures 0 < b < d && x[0] && !y[0] && y[b]
  {
    assert y[..d][1..] == y[1..][..d - 1];
    ClearIsZero(y[1..][..d - 1]);
    var c :| 0 <= c < d - 1 && y[1..][..d - 1][c];
    b := c + 1;
  }

  /** The skipped hash has the fewest bits of all hashes that agree with it up to its gap. */
  lemma SkippedLeast(v: Word, h: Word, a: nat, k: nat)
    requires a < WORD_BITS && k <= WORD_BITS && h[..a] == v[..a] && h[a]
    ensures ToNat(SkippedHash(v, a)[..k]) <= ToNat(h[..k])
  {
    var g := SkippedHash(v, a);
    SkippedBits(v, h, a);
    hide ToNat, Pow2, SkippedHash;
    if k <= a + 1 {
      assert g[..k] == g[..a + 1][..k] && h[..k] == h[..a + 1][..k];
    } else {
      assert g[a + 1..k] == g[a + 1..][..k - a - 1];
      assert AllClear(g[a + 1..k]);
      SplitIndex(h, a + 1, k);
      SplitIndex(g, a + 1, k);
      ClearIsZero(g[a + 1..k]);
      PartsOrder(ToNat(g[..a + 1]), ToNat(g[a + 1..k]), ToNat(h[a + 1..k]), Pow2(a + 1));
    }
  }

  lemma SkippedBits(v: Word, h: Word, a: nat)
    requires a < WORD_BITS && h[..a] == v[..a] && h[a]
    ensures SkippedHash(v, a)[..a + 1] == h[..a + 1] && AllClear(SkippedHash(v, a)[a + 1..])
  {
    assert h[..a + 1] == h[..a] + [h[a]];
  }

  lemma {:induction false} SomeBlock(tables: seq<Tables>, cursors: seq<Word>, h: Word, i: nat) returns (j: nat)
    requires IsPath(tables, cursors) && i < |tables| && RevNat(cursors[i]) <= RevNat(h)
    ensures i <= j < |tables| && InBlock(h, cursors[j], cursors[j + 1])
    decreases |tables| - i
  {
    if InBlock(h, cursors[i], cursors[i + 1]) {
      j := i;
    } else {
      j := SomeBlock(tables, cursors, h, i + 1);
    }
  }

  /** Of hashes that agree in the low bits, the orders are those of the bits above. */
  lemma HighOrder(h: Word, v: Word, k0: nat, k1: nat)
    requires k0 <= k1 <= WORD_BITS && h[..k0] == v[..k0]
    requires RevNat(v) <= RevNat(h) && ToNat(h[..k1]) < ToNat(v[..k1])
    ensures RevNat(v[k0..]) <= RevNat(h[k0..])
    ensures ToNat(h[k0..][..k1 - k0]) < ToNat(v[k0..][..k1 - k0])
  {
    hide RevNat, ToNat, Pow2;
    RevNatSplit(h, k0);
    RevNatSplit(v, k0);
    SplitIndex(h, k0, k1);
    SplitIndex(v, k0, k1);
    assert h[k0..][..k1 - k0] == h[k0..k1] && v[k0..][..k1 - k0] == v[k0..k1];
    PartsOrder(ToNat(v[..k0]), ToNat(v[k0..k1]), ToNat(h[k0..k1]), Pow2(k0));
  }

  lemma WordGap(h: Word, v: Word, k0: nat, k1: nat) returns (a: nat, b: nat)
    requires k0 <= k1 <= WORD_BITS && h[..k0] == v[..k0]
    requires RevNat(v) <= RevNat(h) && ToNat(h[..k1]) < ToNat(v[..k1])
    ensures k0 <= a < b < k1 && h[..a] == v[..a] && h[a] && !v[a] && v[b]
  {
    HighOrder(h, v, k0, k1);
    var x, y := h[k0..], v[k0..];
    hide *;
    a, b := FirstGap(x, y, k1 - k0);
    PrefixJoin(h, k0, a);
    PrefixJoin(v, k0, a);
    PrefixJoin(v, k0, b);
    a, b := k0 + a, k0 + b;
  }

  lemma PrefixJoin(s: seq<bool>, k: nat, a: nat)
    requires k + a < |s|
    ensures s[..k + a] == s[..k] + s[k..][..a] && s[k + a] == s[k..][a]
  {
  }

  /** A call that does not come to a bucket of its own block skips it through a gap. */
  lemma BlockGap(t: Tables, v: Word, h: Word) returns (a: nat)
    requires IsTables(t) && InBlock(h, v, NextCursor(v, Mask(Log(t.n)))) && !Visited(t, v, h)
    ensures Gap(t, v, a) && h[..a] == v[..a] && h[a]
  {
    hide RevNat, ToNat, NextCursor, Mask;
    BlockBits(h, v, Log(t.n));
    assert RevNat(v) <= RevNat(h);
    SizesOrdered(t.n, t.large);
    var b;
    a, b := WordGap(h, v, Log(t.n), Log(t.large));
  }

  /** A later call that does not come to a bucket does not come to the one its gap leaves out. */
  lemma LaterMisses(tables: seq<Tables>, cursors: seq<Word>, i: nat, a: nat, h: Word, j: nat)
    requires IsPath(tables, cursors) && i < j < |tables| && Gap(tables[i], cursors[i], a)
    requires InBlock(h, cursors[i], cursors[i + 1]) && h[..a] == cursors[i][..a] && h[a]
    requires !Visited(tables[j], cursors[j], h)
    ensures !Visited(tables[j], cursors[j], SkippedHash(cursors[i], a))
  {
    var v, g := cursors[i], SkippedHash(cursors[i], a);
    var ki, kj := Log(tables[i].n), Log(tables[j].n);
    PathStep(tables, cursors, i);
    SkippedInBlock(v, ki, a);
    if tables[j].n >= tables[i].n {
      OtherCallsMiss(tables, cursors, i, g, j);
    } else {
      SizesOrdered(tables[j].n, tables[i].n);
      assert g[..a] == v[..a];
      assert g[..kj] == g[..a][..kj] && h[..kj] == h[..a][..kj];
      if tables[j].Two? {
        SkippedLeast(v, h, a, Log(tables[j].large));
      }
    }
  }

  lemma GapLoses(tables: seq<Tables>, cursors: seq<Word>, i: nat, a: nat)
    requires IsPath(tables, cursors) && i < |tables| && SkipsForGood(tables, cursors, i, a)
    ensures NeverVisited(tables, cursors, SkippedHash(cursors[i], a))
  {
    var t, v := tables[i], cursors[i];
    var h := SkippedHash(v, a);
    var b :| a < b < Log(t.large) && v[b];
    SkippedHashBelow(v, Log(t.large), a, b);
    SkippedInBlock(v, Log(t.n), a);
    PathStep(tables, cursors, i);
    forall j | 0 <= j < |tables|
      ensures !Visited(tables[j], cursors[j], h)
    {
      if j < i {
        OtherCallsMiss(tables, cursors, i, h, j);
      }
    }
  }

  lemma GapStays(tables: seq<Tables>, cursors: seq<Word>, h: Word, i: nat, a: nat)
    requires IsPath(tables, cursors) && NeverVisited(tables, cursors, h) && i < |tables|
    requires InBlock(h, cursors[i], cursors[i + 1])
    requires Gap(tables[i], cursors[i], a) && h[..a] == cursors[i][..a] && h[a]
    ensures SkipsForGood(tables, cursors, i, a)
  {
    forall j | i < j < |tables|
      ensures !Visited(tables[j], cursors[j], SkippedHash(cursors[i], a))
    {
      assert !Visited(tables[j], cursors[j], h);
      hide *;
      LaterMisses(tables, cursors, i, a, h, j);
    }
  }

  lemma StartsBelow(tables: seq<Tables>, cursors: seq<Word>, h: Word)
    requires IsPath(tables, cursors)
    ensures RevNat(cursors[0]) <= RevNat(h)
  {
    ToNatClear(Zero());
  }

  lemma LostGap(tables: seq<Tables>, cursors: seq<Word>, h: Word) returns (i: nat, a: nat)
    requires IsPath(tables, cursors) && NeverVisited(tables, cursors, h)
    ensures i < |tables| && SkipsForGood(tables, cursors, i, a)
  {
    StartsBelow(tables, cursors, h);
    i := SomeBlock(tables, cursors, h, 0);
    PathStep(tables, cursors, i);
    assert IsTables(tables[i]) && !Visited(tables[i], cursors[i], h);
    hide *;
    a := BlockGap(tables[i], cursors[i], h);
    GapStays(tables, cursors, h, i, a);
  }

  /** For every scan: some dictionary with these tables loses a key if and only if some call has a gap whose bucket
      no later call comes to. Both are read off the sizes of the tables and the bits of the cursors. */
  lemma LosesIffGap(tables: seq<Tables>, cursors: seq<Word>)
    requires IsPath(tables, cursors)
    ensures Loses(tables, cursors) <==> exists i, a :: 0 <= i < |tables| && SkipsForGood(tables, cursors, i, a)
  {
    LosesIff(tables, cursors);
    if h: Word :| NeverVisited(tables, cursors, h) {
      var i, a := LostGap(tables, cursors, h);
    }
    if i: nat, a: nat :| i < |tables| && SkipsForGood(tables, cursors, i, a) {
      GapLoses(tables, cursors, i, a);
    }
  }
}
