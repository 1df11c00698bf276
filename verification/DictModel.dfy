/** The incremental hash table of dict.c as a state and the transitions of its operations:
    two chained power-of-two tables, the second one live while buckets migrate into it.
    Every transition keeps `Inv` and acts on `Get` as an operation of one finite map. */
module DictModel {
  import opened Wrappers
  import opened Words

  /** A key together with the value dictHashKey returns for it; the hash is arbitrary. */
  datatype Key = Key(name: string, hash: Word)

  datatype Entry<V> = Entry(key: Key, val: V)

  type Chain<V> = seq<Entry<V>>
  type Table<V> = seq<Chain<V>>

  const INITIAL_SIZE: nat := 4

  datatype State<V> = State(t0: Table<V>, t1: Table<V>, rehashidx: int, iterators: nat) {
    predicate Rehashing() {
      rehashidx != -1
    }
  }

  ghost predicate IsSize(n: nat) {
    exists k: nat :: 2 <= k < WORD_BITS && n == Pow2(k)
  }

  ghost predicate Sized<V>(t: Table<V>) {
    t == [] || IsSize(|t|)
  }

  /** `hash & sizemask`. */
  function Idx(h: Word, size: nat): (i: nat)
    ensures IsSize(size) ==> i < size
  {
    assert IsSize(size) ==> ToNat(And(h, ToWord(size - 1))) < size by {
      if IsSize(size) {
        var k: nat :| 2 <= k < WORD_BITS && size == Pow2(k);
        SizeMask(k);
        AndMask(h, k);
      }
    }
    ToNat(And(h, ToWord(if size == 0 then 0 else size - 1)))
  }

  // ---- chains

  function Lookup<V>(c: Chain<V>, k: Key): Option<V> {
    if c == [] then None else if c[0].key == k then Some(c[0].val) else Lookup(c[1..], k)
  }

  function WithoutKey<V>(c: Chain<V>, k: Key): Chain<V> {
    if c == [] then [] else if c[0].key == k then c[1..] else [c[0]] + WithoutKey(c[1..], k)
  }

  function WithVal<V>(c: Chain<V>, k: Key, v: V): Chain<V> {
    if c == [] then [] else if c[0].key == k then [Entry(k, v)] + c[1..] else [c[0]] + WithVal(c[1..], k, v)
  }

  ghost predicate DistinctKeys<V>(c: Chain<V>) {
    forall i, j :: 0 <= i < j < |c| ==> c[i].key != c[j].key
  }

  lemma {:induction false} LookupSome<V>(c: Chain<V>, k: Key)
    ensures Lookup(c, k).Some? ==> Entry(k, Lookup(c, k).value) in c
    ensures Lookup(c, k).None? ==> forall e :: e in c ==> e.key != k
  {
    if c != [] && c[0].key != k {
      LookupSome(c[1..], k);
      assert forall e :: e in c ==> e == c[0] || e in c[1..];
    }
  }

  lemma {:induction false} LookupMember<V>(c: Chain<V>, e: Entry<V>)
    requires DistinctKeys(c) && e in c
    ensures Lookup(c, e.key) == Some(e.val)
  {
    var i :| 0 <= i < |c| && c[i] == e;
    if i > 0 {
      assert c[1..][i - 1] == e;
      LookupMember(c[1..], e);
    }
  }

  lemma FirstApart<V>(c: Chain<V>)
    requires DistinctKeys(c) && c != []
    ensures forall e :: e in c[1..] ==> e.key != c[0].key
  {
    forall e | e in c[1..]
      ensures e.key != c[0].key
    {
      var i :| 0 <= i < |c[1..]| && c[1..][i] == e;
      assert c[1 + i] == e;
    }
  }

  lemma {:induction false} LookupWithout<V>(c: Chain<V>, k: Key, q: Key)
    requires DistinctKeys(c)
    ensures Lookup(WithoutKey(c, k), q) == if q == k then None else Lookup(c, q)
    ensures DistinctKeys(WithoutKey(c, k))
    ensures forall e :: e in WithoutKey(c, k) ==> e in c
    ensures |WithoutKey(c, k)| == |c| - (if Lookup(c, k).Some? then 1 else 0)
  {
    if c != [] {
      if c[0].key == k {
        LookupSome(c[1..], k);
      } else {
        LookupWithout(c[1..], k, q);
        var w := WithoutKey(c[1..], k);
        FirstApart(c);
        assert WithoutKey(c, k) == [c[0]] + w;
      }
    }
  }

  lemma {:induction false} LookupWithVal<V>(c: Chain<V>, k: Key, v: V, q: Key)
    requires DistinctKeys(c)
    ensures Lookup(WithVal(c, k, v), q) == if q == k && Lookup(c, k).Some? then Some(v) else Lookup(c, q)
    ensures |WithVal(c, k, v)| == |c|
    ensures forall j :: 0 <= j < |c| ==> WithVal(c, k, v)[j].key == c[j].key
  {
    if c != [] && c[0].key != k {
      LookupWithVal(c[1..], k, v, q);
    }
  }

  // ---- tables

  ghost predicate Placed<V>(t: Table<V>) {
    forall i, e :: 0 <= i < |t| && e in t[i] ==> Idx(e.key.hash, |t|) == i
  }

  ghost predicate TableOk<V>(t: Table<V>) {
    Sized(t) && Placed(t) && forall i :: 0 <= i < |t| ==> DistinctKeys(t[i])
  }

  function GetIn<V>(t: Table<V>, k: Key): Option<V>
    requires Sized(t)
  {
    if t == [] then None else Lookup(t[Idx(k.hash, |t|)], k)
  }

  function Used<V>(t: Table<V>): nat {
    if t == [] then 0 else |t[0]| + Used(t[1..])
  }

  function EmptyTable<V>(size: nat): (t: Table<V>)
    ensures |t| == size
  {
    seq(size, i => [])
  }

  lemma {:induction false} UsedUpdate<V>(t: Table<V>, i: nat, c: Chain<V>)
    requires i < |t|
    ensures Used(t[i := c]) == Used(t) - |t[i]| + |c|
    ensures |t[i]| <= Used(t)
  {
    if i == 0 {
      assert t[i := c][1..] == t[1..];
    } else {
      assert t[i := c][1..] == t[1..][i - 1 := c];
      UsedUpdate(t[1..], i - 1, c);
    }
  }

  lemma {:induction false} UsedZero<V>(t: Table<V>)
    ensures Used(t) == 0 <==> forall i :: 0 <= i < |t| ==> t[i] == []
  {
    if t != [] {
      UsedZero(t[1..]);
      assert forall i :: 0 < i < |t| ==> t[i] == t[1..][i - 1];
    }
  }

  lemma EmptyTableOk<V>(size: nat)
    requires IsSize(size)
    ensures var t: Table<V> := EmptyTable(size);
      TableOk(t) && Used(t) == 0 && forall k :: GetIn(t, k) == None
  {
    UsedZero<V>(EmptyTable(size));
  }

  /** A bucket replaced by a chain of entries that belong there. */
  lemma BucketUpdate<V>(t: Table<V>, i: nat, c: Chain<V>)
    requires TableOk(t) && i < |t| && DistinctKeys(c)
    requires forall e :: e in c ==> Idx(e.key.hash, |t|) == i
    ensures TableOk(t[i := c])
    ensures forall q :: GetIn(t[i := c], q) == (if Idx(q.hash, |t|) == i then Lookup(c, q) else GetIn(t, q))
  {
    var t' := t[i := c];
    forall j, e: Entry<V> | 0 <= j < |t'| && e in t'[j]
      ensures Idx(e.key.hash, |t'|) == j
    {
      assert j != i ==> e in t[j];
    }
  }

  /** Entry pushed in front of its chain. */
  function Push<V>(t: Table<V>, e: Entry<V>): Table<V>
    requires t != [] && Sized(t)
  {
    var i := Idx(e.key.hash, |t|);
    t[i := [e] + t[i]]
  }

  lemma PushOk<V>(t: Table<V>, e: Entry<V>)
    requires TableOk(t) && t != [] && GetIn(t, e.key) == None
    ensures TableOk(Push(t, e)) && |Push(t, e)| == |t|
    ensures forall q :: GetIn(Push(t, e), q) == if q == e.key then Some(e.val) else GetIn(t, q)
    ensures Used(Push(t, e)) == Used(t) + 1
  {
    var i := Idx(e.key.hash, |t|);
    var c := [e] + t[i];
    LookupSome(t[i], e.key);
    BucketUpdate(t, i, c);
    UsedUpdate(t, i, c);
    assert c[1..] == t[i];
  }

  // ---- the state

  ghost predicate Disjoint<V>(t0: Table<V>, t1: Table<V>)
    requires Sized(t0) && Sized(t1)
  {
    forall k :: GetIn(t0, k) == None || GetIn(t1, k) == None
  }

  ghost predicate Inv<V>(s: State<V>) {
    && TableOk(s.t0) && TableOk(s.t1)
    && (if s.Rehashing() then
          && s.t0 != [] && s.t1 != []
          && 0 <= s.rehashidx <= |s.t0|
          && (forall i :: 0 <= i < s.rehashidx ==> s.t0[i] == [])
          && Disjoint(s.t0, s.t1)
        else
          s.t1 == [])
  }

  /** The map the two tables represent. */
  ghost function Get<V>(s: State<V>, k: Key): Option<V>
    requires Inv(s)
  {
    if GetIn(s.t0, k).Some? then GetIn(s.t0, k) else GetIn(s.t1, k)
  }

  function Size<V>(s: State<V>): nat {
    Used(s.t0) + Used(s.t1)
  }

  ghost predicate SameMap<V>(s: State<V>, s': State<V>) {
    && Inv(s) && Inv(s')
    && (forall k :: Get(s', k) == Get(s, k))
    && Size(s') == Size(s)
  }

  // ---- rehashing

  /** The entries of a chain pushed one by one, head first, as dictRehash moves a bucket. */
  function Move<V>(c: Chain<V>, t: Table<V>): (t': Table<V>)
    requires t != [] && Sized(t)
    ensures |t'| == |t|
  {
    if c == [] then t else Move(c[1..], Push(t, c[0]))
  }

  lemma {:induction false} MoveOk<V>(c: Chain<V>, t: Table<V>)
    requires TableOk(t) && t != [] && DistinctKeys(c)
    requires forall e :: e in c ==> GetIn(t, e.key) == None
    ensures TableOk(Move(c, t)) && Used(Move(c, t)) == Used(t) + |c|
    ensures forall q :: GetIn(Move(c, t), q) == if Lookup(c, q).Some? then Lookup(c, q) else GetIn(t, q)
  {
    if c != [] {
      PushOk(t, c[0]);
      forall e | e in c[1..]
        ensures GetIn(Push(t, c[0]), e.key) == None
      {
        assert e in c;
      }
      MoveOk(c[1..], Push(t, c[0]));
      forall q
        ensures GetIn(Move(c, t), q) == if Lookup(c, q).Some? then Lookup(c, q) else GetIn(t, q)
      {
        LookupSome(c[1..], q);
      }
    }
  }

  lemma {:induction false} UsedMove<V>(c: Chain<V>, t: Table<V>)
    requires t != [] && Sized(t)
    ensures Used(Move(c, t)) == Used(t) + |c|
  {
    if c != [] {
      var i := Idx(c[0].key.hash, |t|);
      UsedUpdate(t, i, [c[0]] + t[i]);
      UsedMove(c[1..], Push(t, c[0]));
    }
  }

  /** The first non-empty bucket from i on, or the table's size. */
  function NextBucket<V>(t: Table<V>, i: nat): (j: nat)
    requires i <= |t|
    ensures i <= j <= |t|
    ensures forall m :: i <= m < j ==> t[m] == []
    ensures j < |t| ==> t[j] != []
    decreases |t| - i
  {
    if i == |t| || t[i] != [] then i else NextBucket(t, i + 1)
  }

  /** One step of dictRehash. */
  function RehashOne<V>(s: State<V>): State<V>
    requires Inv(s) && s.Rehashing()
  {
    if Used(s.t0) == 0 then
      State(s.t1, [], -1, s.iterators)
    else
      var j := NextBucket(s.t0, s.rehashidx);
      if j == |s.t0| then s else
        State(s.t0[j := []], Move(s.t0[j], s.t1), j + 1, s.iterators)
  }

  lemma MoveBucketOk<V>(s: State<V>, j: nat)
    requires Inv(s) && s.Rehashing() && j < |s.t0|
    ensures var (t0, t1) := (s.t0[j := []], Move(s.t0[j], s.t1));
      && TableOk(t0) && TableOk(t1)
      && (forall k :: GetIn(t0, k) == if Idx(k.hash, |t0|) == j then None else GetIn(s.t0, k))
      && (forall k :: GetIn(t1, k) ==
           if Idx(k.hash, |t0|) == j && GetIn(s.t0, k).Some? then GetIn(s.t0, k) else GetIn(s.t1, k))
      && Used(t0) + Used(t1) == Used(s.t0) + Used(s.t1)
  {
    var c := s.t0[j];
    forall e | e in c
      ensures GetIn(s.t1, e.key) == None
    {
      LookupMember(c, e);
      assert GetIn(s.t0, e.key) == Some(e.val);
    }
    MoveOk(c, s.t1);
    BucketUpdate(s.t0, j, []);
    UsedUpdate(s.t0, j, []);
    forall k
      ensures Lookup(c, k) == if Idx(k.hash, |s.t0|) == j then GetIn(s.t0, k) else None
    {
      LookupSome(c, k);
    }
  }

  /** With the old table empty, the new one alone represents the map. */
  lemma SwitchOk<V>(s: State<V>, s': State<V>)
    requires Inv(s) && s.Rehashing() && Used(s.t0) == 0
    requires s' == State(s.t1, [], -1, s.iterators)
    ensures SameMap(s, s')
  {
    UsedZero(s.t0);
    assert forall k :: GetIn(s.t0, k) == None;
  }

  lemma MoveStepOk<V>(s: State<V>, j: nat, s': State<V>)
    requires Inv(s) && s.Rehashing() && s.rehashidx <= j < |s.t0|
    requires forall m :: s.rehashidx <= m < j ==> s.t0[m] == []
    requires s' == State(s.t0[j := []], Move(s.t0[j], s.t1), j + 1, s.iterators)
    ensures SameMap(s, s')
  {
    MoveBucketOk(s, j);
  }

  lemma RehashOneOk<V>(s: State<V>)
    requires Inv(s) && s.Rehashing()
    ensures SameMap(s, RehashOne(s)) && RehashOne(s).iterators == s.iterators
    ensures if Used(s.t0) == 0 then
        !RehashOne(s).Rehashing() && RehashOne(s).t0 == s.t1
      else
        var j := NextBucket(s.t0, s.rehashidx);
        j < |s.t0| && RehashOne(s).rehashidx == j + 1 && |RehashOne(s).t0| == |s.t0|
  {
    if Used(s.t0) == 0 {
      SwitchOk(s, RehashOne(s));
    } else {
      UsedZero(s.t0);
      MoveStepOk(s, NextBucket(s.t0, s.rehashidx), RehashOne(s));
    }
  }

  /** dictRehash: up to n steps. */
  function Rehash<V>(s: State<V>, n: nat): State<V>
    requires Inv(s)
    decreases n
  {
    if n == 0 || !s.Rehashing() then s else
      RehashOneOk(s);
      Rehash(RehashOne(s), n - 1)
  }

  lemma {:induction false} RehashOk<V>(s: State<V>, n: nat)
    requires Inv(s)
    ensures SameMap(s, Rehash(s, n)) && Rehash(s, n).iterators == s.iterators
    ensures !s.Rehashing() ==> Rehash(s, n) == s
    decreases n
  {
    hide Inv, Get;
    if n > 0 && s.Rehashing() {
      RehashOneOk(s);
      RehashOk(RehashOne(s), n - 1);
    }
  }

  /** Rehashing is over after at most size + 1 steps. */
  lemma {:induction false} RehashFinishes<V>(s: State<V>, n: nat)
    requires Inv(s) && s.Rehashing() && n >= |s.t0| - s.rehashidx + 1
    ensures !Rehash(s, n).Rehashing()
    decreases n
  {
    RehashOneOk(s);
    var s' := RehashOne(s);
    if s'.Rehashing() {
      RehashFinishes(s', n - 1);
    } else {
      RehashOk(s', n - 1);
    }
  }

  /** _dictRehashStep, as the operations call it. */
  function RehashStep<V>(s: State<V>): State<V>
    requires Inv(s)
  {
    if s.iterators == 0 then Rehash(s, 1) else s
  }

  lemma RehashStepOk<V>(s: State<V>)
    requires Inv(s)
    ensures SameMap(s, RehashStep(s)) && RehashStep(s).iterators == s.iterators
    ensures s.t0 != [] ==> RehashStep(s).t0 != []
    ensures RehashStep(s) == if s.Rehashing() && s.iterators == 0 then RehashOne(s) else s
  {
    RehashOk(s, 1);
    if s.Rehashing() {
      RehashOneOk(s);
    }
  }

  // ---- resizing

  const LONG_MAX: nat := Pow2(63) - 1

  lemma SizeDoubles(i: nat)
    requires IsSize(i) && i < LONG_MAX
    ensures IsSize(2 * i) || i == LONG_MAX + 1
  {
    var k: nat :| 2 <= k < WORD_BITS && i == Pow2(k);
    if k < 63 {
      assert 2 * i == Pow2(k + 1);
    }
  }

  lemma InitialSize()
    ensures IsSize(INITIAL_SIZE)
  {
    assert Pow2(2) == 4;
  }

  /** _dictNextPower: the smallest power of two from i on that is at least size. */
  function NextPower(size: nat, i: nat): (r: nat)
    requires IsSize(i) && size < LONG_MAX
    ensures IsSize(r) && r >= size && r >= i
    ensures r > i ==> r < 2 * size
    decreases size - i
  {
    if i >= size then i else
      SizeDoubles(i);
      NextPower(size, 2 * i)
  }

  /** dictExpand; None is DICT_ERR. */
  function Expand<V>(s: State<V>, size: nat): Option<State<V>>
    requires size < LONG_MAX
  {
    if s.Rehashing() || Used(s.t0) > size then None else
      InitialSize();
      var n := EmptyTable(NextPower(size, INITIAL_SIZE));
      if s.t0 == [] then Some(State(n, s.t1, s.rehashidx, s.iterators))
      else Some(State(s.t0, n, 0, s.iterators))
  }

  /** The table dictExpand installs is the only table, or the target of a rehashing that begins. It has the size
      asked for, rounded up to a power of two, and never less than four buckets. */
  ghost predicate Expanded<V>(s: State<V>, s': State<V>, size: nat) {
    var n := if s.t0 == [] then |s'.t0| else |s'.t1|;
    && IsSize(n) && 4 <= n && size <= n && (n > 4 ==> n < 2 * size)
    && (if s.t0 == [] then !s'.Rehashing() && s'.t1 == [] else s'.t0 == s.t0 && s'.Rehashing() && s'.rehashidx == 0)
  }

  lemma ExpandOk<V>(s: State<V>, size: nat)
    requires Inv(s) && size < LONG_MAX
    ensures Expand(s, size).None? <==> s.Rehashing() || Used(s.t0) > size
    ensures Expand(s, size).Some? ==> SameMap(s, Expand(s, size).value)
    ensures Expand(s, size).Some? ==> Expand(s, size).value.t0 != []
    ensures Expand(s, size).Some? ==> Expand(s, size).value.iterators == s.iterators
    ensures Expand(s, size).Some? ==> Expanded(s, Expand(s, size).value, size)
  {
    if Expand(s, size).Some? {
      InitialSize();
      EmptyTableOk<V>(NextPower(size, INITIAL_SIZE));
    }
  }

  /** dictResize: shrink to the smallest table that holds the elements. */
  function Resize<V>(s: State<V>, canResize: bool): Option<State<V>>
    requires Used(s.t0) < LONG_MAX
  {
    if !canResize || s.Rehashing() then None
    else Expand(s, if Used(s.t0) < INITIAL_SIZE then INITIAL_SIZE else Used(s.t0))
  }

  /** dictResize fails when resizing is not allowed or under way; otherwise the target has the least number of buckets,
      a power of two from four on, that is not less than the number of entries. */
  lemma ResizeOk<V>(s: State<V>, canResize: bool)
    requires Inv(s) && Used(s.t0) < LONG_MAX
    ensures Resize(s, canResize).None? <==> !canResize || s.Rehashing()
    ensures Resize(s, canResize).Some? ==>
      var s' := Resize(s, canResize).value;
      && SameMap(s, s') && s'.iterators == s.iterators
      && var n := if s.t0 == [] then |s'.t0| else |s'.t1|;
      && IsSize(n) && 4 <= n && Used(s.t0) <= n && (n > 4 ==> n < 2 * Used(s.t0))
      && (s.t0 != [] ==> s'.t0 == s.t0 && s'.Rehashing())
  {
    ExpandOk(s, if Used(s.t0) < INITIAL_SIZE then INITIAL_SIZE else Used(s.t0));
  }

  const FORCE_RESIZE_RATIO: nat := 5

  /** _dictExpandIfNeeded. */
  function ExpandIfNeeded<V>(s: State<V>, canResize: bool): State<V>
    requires 2 * Used(s.t0) < LONG_MAX
  {
    if s.Rehashing() then s
    else if s.t0 == [] then Expand(s, INITIAL_SIZE).value
    else if Used(s.t0) >= |s.t0| && (canResize || Used(s.t0) / |s.t0| > FORCE_RESIZE_RATIO) then
      Expand(s, 2 * Used(s.t0)).value
    else s
  }

  /** A dictionary without a table gets one of four buckets. A full one, when resizing is allowed or there are more than
      five entries a bucket, begins to move into a table for at least twice its entries. Otherwise nothing changes. */
  ghost predicate Grown<V>(s: State<V>, s': State<V>, canResize: bool) {
    if s.Rehashing() then s' == s
    else if s.t0 == [] then |s'.t0| == 4 && !s'.Rehashing()
    else if Used(s.t0) >= |s.t0| && (canResize || Used(s.t0) / |s.t0| > 5) then
      s'.t0 == s.t0 && s'.Rehashing() && 2 * Used(s.t0) <= |s'.t1| && (|s'.t1| > 4 ==> |s'.t1| < 4 * Used(s.t0))
    else s' == s
  }

  lemma ExpandIfNeededOk<V>(s: State<V>, canResize: bool)
    requires Inv(s) && 2 * Used(s.t0) < LONG_MAX
    ensures var s' := ExpandIfNeeded(s, canResize);
      SameMap(s, s') && s'.t0 != [] && s'.iterators == s.iterators
    ensures Grown(s, ExpandIfNeeded(s, canResize), canResize)
  {
    ExpandOk(s, INITIAL_SIZE);
    ExpandOk(s, 2 * Used(s.t0));
  }

  // ---- operations

  /** The table that takes new entries. */
  function PushNew<V>(s: State<V>, e: Entry<V>): State<V>
    requires Inv(s) && s.t0 != []
  {
    if s.Rehashing() then s.(t1 := Push(s.t1, e)) else s.(t0 := Push(s.t0, e))
  }

  /** The state in which dictAddRaw looks its key up. */
  function AddPrepare<V>(s: State<V>, canResize: bool): State<V>
    requires Inv(s) && 2 * Size(s) < LONG_MAX
  {
    RehashStepOk(s);
    ExpandIfNeeded(RehashStep(s), canResize)
  }

  lemma AddPrepareOk<V>(s: State<V>, canResize: bool)
    requires Inv(s) && 2 * Size(s) < LONG_MAX
    ensures var s' := AddPrepare(s, canResize);
      SameMap(s, s') && s'.t0 != [] && s'.iterators == s.iterators
  {
    RehashStepOk(s);
    ExpandIfNeededOk(RehashStep(s), canResize);
  }

  /** dictAdd: dictAddRaw and the value set on the new entry. */
  ghost function Add<V>(s: State<V>, k: Key, v: V, canResize: bool): State<V>
    requires Inv(s) && 2 * Size(s) < LONG_MAX
  {
    AddPrepareOk(s, canResize);
    var s' := AddPrepare(s, canResize);
    if Get(s', k).Some? then s' else PushNew(s', Entry(k, v))
  }

  lemma PushNewOk<V>(s: State<V>, e: Entry<V>)
    requires Inv(s) && s.t0 != [] && Get(s, e.key) == None
    ensures var s' := PushNew(s, e);
      && Inv(s') && s'.t0 != [] && Size(s') == Size(s) + 1
      && (forall q :: Get(s', q) == if q == e.key then Some(e.val) else Get(s, q))
  {
    PushOk(if s.Rehashing() then s.t1 else s.t0, e);
  }

  lemma AddOk<V>(s: State<V>, k: Key, v: V, canResize: bool)
    requires Inv(s) && 2 * Size(s) < LONG_MAX
    ensures var s' := Add(s, k, v, canResize);
      && Inv(s') && s'.iterators == s.iterators && s'.t0 != []
      && (forall q :: Get(s', q) == if q == k && Get(s, k) == None then Some(v) else Get(s, q))
      && Size(s') == Size(s) + (if Get(s, k) == None then 1 else 0)
  {
    AddPrepareOk(s, canResize);
    var s' := AddPrepare(s, canResize);
    if Get(s', k) == None {
      PushNewOk(s', Entry(k, v));
    }
  }

  /** dictFind leaves the state of its rehash step. */
  ghost function Find<V>(s: State<V>): State<V>
    requires Inv(s)
  {
    if s.t0 == [] then s else RehashStep(s)
  }

  lemma FindOk<V>(s: State<V>)
    requires Inv(s)
    ensures SameMap(s, Find(s)) && Find(s).iterators == s.iterators
  {
    RehashStepOk(s);
  }

  /** The bucket of key k in the table that holds it (the first one when `first`), replaced. */
  function SetBucket<V>(s: State<V>, first: bool, k: Key, c: Chain<V>): State<V>
    requires Inv(s) && (if first then s.t0 else s.t1) != []
  {
    if first then s.(t0 := s.t0[Idx(k.hash, |s.t0|) := c]) else s.(t1 := s.t1[Idx(k.hash, |s.t1|) := c])
  }

  ghost predicate Rewrites<V>(c: Chain<V>, c': Chain<V>, k: Key, r: Option<V>) {
    && DistinctKeys(c') && (forall q :: Lookup(c', q) == if q == k then r else Lookup(c, q))
    && (forall e :: e in c' ==> e.key == k || e in c)
    && |c'| == |c| - (if r.None? then 1 else 0)
  }

  lemma BucketRewritten<V>(t: Table<V>, k: Key, c: Chain<V>, r: Option<V>)
    requires TableOk(t) && GetIn(t, k).Some? && Rewrites(t[Idx(k.hash, |t|)], c, k, r)
    ensures var t' := t[Idx(k.hash, |t|) := c];
      && TableOk(t') && Used(t') == Used(t) - (if r.None? then 1 else 0)
      && (forall q :: GetIn(t', q) == if q == k then r else GetIn(t, q))
    ensures t[Idx(k.hash, |t|)] != []
  {
    var i := Idx(k.hash, |t|);
    LookupSome(t[i], k);
    BucketUpdate(t, i, c);
    UsedUpdate(t, i, c);
  }

  lemma SetBucketOk<V>(s: State<V>, first: bool, k: Key, c: Chain<V>, r: Option<V>)
    requires Inv(s)
    requires var t := if first then s.t0 else s.t1;
      GetIn(t, k).Some? && Rewrites(t[Idx(k.hash, |t|)], c, k, r)
    ensures var s' := SetBucket(s, first, k, c);
      && Inv(s') && Size(s') == Size(s) - (if r.None? then 1 else 0)
      && (forall q :: Get(s', q) == if q == k then r else Get(s, q))
  {
    var t := if first then s.t0 else s.t1;
    var i := Idx(k.hash, |t|);
    var t' := t[i := c];
    BucketRewritten(t, k, c, r);
    var s' := SetBucket(s, first, k, c);
    if first {
      assert s'.t0 == t' && s'.t1 == s.t1;
    } else {
      assert s'.t1 == t' && s'.t0 == s.t0;
    }
  }

  lemma WithValRewrites<V>(c: Chain<V>, k: Key, v: V)
    requires DistinctKeys(c) && Lookup(c, k).Some?
    ensures Rewrites(c, WithVal(c, k, v), k, Some(v))
  {
    var c' := WithVal(c, k, v);
    forall q
      ensures Lookup(c', q) == if q == k then Some(v) else Lookup(c, q)
    {
      LookupWithVal(c, k, v, q);
    }
    LookupWithVal(c, k, v, k);
    forall e | e in c' && e.key != k
      ensures e in c
    {
      LookupMember(c', e);
      LookupSome(c, e.key);
    }
  }

  lemma WithoutRewrites<V>(c: Chain<V>, k: Key)
    requires DistinctKeys(c) && Lookup(c, k).Some?
    ensures Rewrites(c, WithoutKey(c, k), k, None)
  {
    forall q
      ensures Lookup(WithoutKey(c, k), q) == if q == k then None else Lookup(c, q)
    {
      LookupWithout(c, k, q);
    }
    LookupWithout(c, k, k);
  }

  /** dictReplace: an add and, where the key exists, a find that overwrites its value. */
  ghost function Replace<V>(s: State<V>, k: Key, v: V, canResize: bool): State<V>
    requires Inv(s) && 2 * Size(s) < LONG_MAX
  {
    AddOk(s, k, v, canResize);
    var s1 := Add(s, k, v, canResize);
    if Get(s, k) == None then s1 else
      FindOk(s1);
      SetValue(Find(s1), k, v)
  }

  /** dictSetVal on the entry dictFind returns. */
  ghost function SetValue<V>(s: State<V>, k: Key, v: V): State<V>
    requires Inv(s)
  {
    if Get(s, k) == None then s else
      var first := GetIn(s.t0, k).Some?;
      var t := if first then s.t0 else s.t1;
      SetBucket(s, first, k, WithVal(t[Idx(k.hash, |t|)], k, v))
  }

  lemma SetValueOk<V>(s: State<V>, k: Key, v: V)
    requires Inv(s) && Get(s, k).Some?
    ensures var s' := SetValue(s, k, v);
      && Inv(s') && Size(s') == Size(s)
      && (forall q :: Get(s', q) == if q == k then Some(v) else Get(s, q))
  {
    var first := GetIn(s.t0, k).Some?;
    var t := if first then s.t0 else s.t1;
    var c := t[Idx(k.hash, |t|)];
    WithValRewrites(c, k, v);
    SetBucketOk(s, first, k, WithVal(c, k, v), Some(v));
  }

  lemma ReplaceOk<V>(s: State<V>, k: Key, v: V, canResize: bool)
    requires Inv(s) && 2 * Size(s) < LONG_MAX
    ensures var s' := Replace(s, k, v, canResize);
      && Inv(s') && s'.iterators == s.iterators
      && (forall q :: Get(s', q) == if q == k then Some(v) else Get(s, q))
      && Size(s') == Size(s) + (if Get(s, k) == None then 1 else 0)
  {
    AddOk(s, k, v, canResize);
    if Get(s, k).Some? {
      var s1 := Add(s, k, v, canResize);
      FindOk(s1);
      SetValueOk(Find(s1), k, v);
    }
  }

  /** The unlinking part of dictGenericDelete. */
  ghost function Unlink<V>(s: State<V>, k: Key): State<V>
    requires Inv(s)
  {
    if Get(s, k) == None then s else
      var first := GetIn(s.t0, k).Some?;
      var t := if first then s.t0 else s.t1;
      SetBucket(s, first, k, WithoutKey(t[Idx(k.hash, |t|)], k))
  }

  lemma UnlinkOk<V>(s: State<V>, k: Key)
    requires Inv(s)
    ensures var s' := Unlink(s, k);
      && Inv(s') && s'.iterators == s.iterators
      && (forall q :: Get(s', q) == if q == k then None else Get(s, q))
      && Size(s') == Size(s) - (if Get(s, k).Some? then 1 else 0)
  {
    if Get(s, k).Some? {
      var first := GetIn(s.t0, k).Some?;
      var t := if first then s.t0 else s.t1;
      var c := t[Idx(k.hash, |t|)];
      WithoutRewrites(c, k);
      SetBucketOk(s, first, k, WithoutKey(c, k), None);
    }
  }

  /** dictDelete. */
  ghost function Delete<V>(s: State<V>, k: Key): State<V>
    requires Inv(s)
  {
    FindOk(s);
    Unlink(Find(s), k)
  }

  lemma DeleteOk<V>(s: State<V>, k: Key)
    requires Inv(s)
    ensures var s' := Delete(s, k);
      && Inv(s') && s'.iterators == s.iterators
      && (forall q :: Get(s', q) == if q == k then None else Get(s, q))
      && Size(s') == Size(s) - (if Get(s, k).Some? then 1 else 0)
  {
    FindOk(s);
    UnlinkOk(Find(s), k);
  }

  // ---- the operations migrate

  /** s' is as far in the rehashing of s as r is. */
  ghost predicate AsFar<V>(r: State<V>, s': State<V>) {
    s'.rehashidx == r.rehashidx && |s'.t0| == |r.t0| && |s'.t1| == |r.t1|
  }

  /** While a rehashing is under way and no safe iterator is active, dictFind and dictDelete take one step of it,
      dictAdd one, unless it is finished by it and the table is found full, and dictReplace of a key that is there two. */
  lemma OperationsMigrate<V>(s: State<V>, k: Key, v: V, canResize: bool)
    requires Inv(s) && s.Rehashing() && s.iterators == 0 && 2 * Size(s) < LONG_MAX
    ensures var r := RehashOne(s);
      && SameMap(s, r) && r.iterators == 0
      && Find(s) == r && AsFar(r, Delete(s, k))
      && (r.Rehashing() ==> AsFar(r, Add(s, k, v, canResize)))
      && (r.Rehashing() && Get(s, k) == None ==> AsFar(r, Replace(s, k, v, canResize)))
  {
    RehashOneOk(s);
    RehashStepOk(s);
    FindOk(s);
    var r := RehashOne(s);
    hide Inv, Get, RehashOne, GetIn, Used;
    assert Find(s) == r;
    UnlinkAsFar(r, k);
    if r.Rehashing() {
      AddPrepareOk(s, canResize);
      assert AddPrepare(s, canResize) == r;
      AddAsFar(s, k, v, canResize);
    }
  }

  lemma UnlinkAsFar<V>(r: State<V>, k: Key)
    requires Inv(r)
    ensures AsFar(r, Unlink(r, k))
  {
  }

  lemma AddAsFar<V>(s: State<V>, k: Key, v: V, canResize: bool)
    requires Inv(s) && 2 * Size(s) < LONG_MAX
    ensures AddPrepare(s, canResize).Rehashing() ==>
      AsFar(AddPrepare(s, canResize), Add(s, k, v, canResize))
    ensures Get(s, k) == None ==> Replace(s, k, v, canResize) == Add(s, k, v, canResize)
  {
    AddPrepareOk(s, canResize);
    AddOk(s, k, v, canResize);
  }
}
