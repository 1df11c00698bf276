/** Safe iterators of dict.c: dictNext as a transition, and iterations during which the dictionary is
    used. Pointers to entries are the entries' keys, which are unique. */
module IteratorModel {
  import opened Wrappers
  import opened DictModel
  import opened DictHistory

  /** A dictIterator: the table and bucket being visited, the entry last returned, the one after it. */
  datatype Iter = Iter(table: nat, index: int, entry: Option<Key>, nextEntry: Option<Key>)

  const FRESH: Iter := Iter(0, -1, None, None)

  function TableOf<V>(s: State<V>, table: nat): Table<V> {
    if table == 0 then s.t0 else s.t1
  }

  /** The position of a key in a chain, or the chain's length. */
  function Pos<V>(c: Chain<V>, k: Key): (i: nat)
    ensures i <= |c|
  {
    if c == [] || c[0].key == k then 0 else 1 + Pos(c[1..], k)
  }

  function KeyAt<V>(c: Chain<V>, i: nat): Option<Key> {
    if i < |c| then Some(c[i].key) else None
  }

  ghost predicate IterOk<V>(s: State<V>, it: Iter) {
    && Inv(s) && it.table <= 1 && it.index >= -1
    && (it.table == 1 ==> s.Rehashing() && it.index >= 0)
    && (it.entry == None ==> it.nextEntry == None)
    && (it.entry.Some? ==>
          var t := TableOf(s, it.table);
          0 <= it.index < |t|
          && (it.nextEntry.Some? ==> Lookup(t[it.index], it.nextEntry.value).Some?))
  }

  /** dictNext: the iterator after the call and the entry returned. */
  function Next<V>(s: State<V>, it: Iter): (Iter, Option<Entry<V>>)
    requires IterOk(s, it)
    decreases 1 - it.table, |TableOf(s, it.table)| - it.index, it.entry.Some?
  {
    var t := TableOf(s, it.table);
    if it.entry.Some? then
      if it.nextEntry.Some? then
        PosBound(t[it.index], it.nextEntry.value);
        var i := Pos(t[it.index], it.nextEntry.value);
        (it.(entry := it.nextEntry, nextEntry := KeyAt(t[it.index], i + 1)), Some(t[it.index][i]))
      else Next(s, it.(entry := None))
    else if it.index + 1 < |t| then
      Bucket(s, it.(index := it.index + 1))
    else if s.Rehashing() && it.table == 0 then
      Bucket(s, Iter(1, 0, None, it.nextEntry))
    else
      (it.(index := it.index + 1), None)
  }

  /** The iterator arrives at a bucket. */
  function Bucket<V>(s: State<V>, it: Iter): (Iter, Option<Entry<V>>)
    requires IterOk(s, it) && it.entry == None && 0 <= it.index < |TableOf(s, it.table)|
    decreases 1 - it.table, |TableOf(s, it.table)| - it.index, true, 0
  {
    var c := TableOf(s, it.table)[it.index];
    if c == [] then Next(s, it) else
      (it.(entry := Some(c[0].key), nextEntry := KeyAt(c, 1)), Some(c[0]))
  }

  lemma {:induction false} PosBound<V>(c: Chain<V>, k: Key)
    ensures Lookup(c, k).Some? <==> Pos(c, k) < |c|
    ensures Pos(c, k) < |c| ==> c[Pos(c, k)].key == k && Lookup(c, k) == Some(c[Pos(c, k)].val)
  {
    if c != [] && c[0].key != k {
      PosBound(c[1..], k);
    }
  }

  lemma {:induction false} PosUnique<V>(c: Chain<V>, i: nat)
    requires DistinctKeys(c) && i < |c|
    ensures Pos(c, c[i].key) == i
  {
    if i > 0 {
      assert c[1..][i - 1] == c[i];
      PosUnique(c[1..], i - 1);
    }
  }

  // ---- what is still to come

  /** Key q of table t lies after the iterator's position in that table. */
  ghost predicate After<V>(t: Table<V>, it: Iter, q: Key)
    requires Sized(t)
  {
    && GetIn(t, q).Some?
    && var i := Idx(q.hash, |t|);
       || i > it.index
       || (i == it.index && it.entry.Some? && it.nextEntry.Some?
           && Pos(t[i], it.nextEntry.value) <= Pos(t[i], q))
  }

  /** The iteration will return key q, if q stays. */
  ghost predicate Pending<V>(s: State<V>, it: Iter, q: Key)
    requires Inv(s)
  {
    if it.table == 0 then After(s.t0, it, q) || GetIn(s.t1, q).Some? else After(s.t1, it, q)
  }

  lemma FreshPending<V>(s: State<V>, q: Key)
    requires Inv(s)
    ensures IterOk(s, FRESH)
    ensures Pending(s, FRESH, q) <==> Get(s, q).Some?
  {
  }

  /** Key q sits at position i of its chain or after it. */
  ghost predicate FromPos<V>(c: Chain<V>, i: nat, q: Key) {
    i <= Pos(c, q) < |c|
  }

  lemma FromPosStep<V>(c: Chain<V>, i: nat, q: Key)
    requires DistinctKeys(c) && i < |c|
    ensures FromPos(c, i, q) <==> q == c[i].key || FromPos(c, i + 1, q)
    ensures q == c[i].key ==> !FromPos(c, i + 1, q)
    ensures i + 1 < |c| ==> Pos(c, c[i + 1].key) == i + 1
  {
    PosUnique(c, i);
    PosBound(c, q);
    if i + 1 < |c| {
      PosUnique(c, i + 1);
    }
  }

  /** The iterator has just moved past the entry at position i of its bucket. */
  lemma AfterEntry<V>(t: Table<V>, it: Iter, i: nat, q: Key)
    requires TableOk(t) && 0 <= it.index < |t| && i < |t[it.index]|
    requires var c := t[it.index]; it.entry == Some(c[i].key) && it.nextEntry == KeyAt(c, i + 1)
    ensures var c := t[it.index];
      && (After(t, it, q) <==> GetIn(t, q).Some? && (Idx(q.hash, |t|) > it.index || FromPos(c, i + 1, q)))
      && (FromPos(c, i, q) <==> q == c[i].key || FromPos(c, i + 1, q))
      && (q == c[i].key ==> Idx(q.hash, |t|) == it.index && !FromPos(c, i + 1, q))
      && (it.nextEntry.Some? ==> Lookup(c, it.nextEntry.value).Some?)
      && GetIn(t, c[i].key) == Some(c[i].val)
      && (FromPos(c, i, q) ==> GetIn(t, q).Some? && Idx(q.hash, |t|) == it.index)
  {
    var c := t[it.index];
    FromPosStep(c, i, q);
    PosBound(c, q);
    assert c[i] in t[it.index];
    LookupMember(c, c[i]);
    if i + 1 < |c| {
      PosBound(c, c[i + 1].key);
    }
    if Pos(c, q) < |c| {
      assert c[Pos(c, q)] in t[it.index];
    }
  }

  /** dictNext's result r and new iterator it', from the pending keys p. */
  ghost predicate Advances<V>(s: State<V>, it0: Iter, it': Iter, r: Option<Entry<V>>)
    requires Inv(s)
  {
    && IterOk(s, it')
    && (r.Some? ==> Pending(s, it0, r.value.key) && Get(s, r.value.key) == Some(r.value.val))
    && (forall q :: Pending(s, it', q) <==> Pending(s, it0, q) && !(r.Some? && r.value.key == q))
    && (r.None? ==> forall q :: !Pending(s, it0, q))
  }

  lemma StepInChain<V>(s: State<V>, it: Iter)
    requires IterOk(s, it) && it.entry.Some? && it.nextEntry.Some?
    ensures var (it', r) := Next(s, it); Advances(s, it, it', r)
  {
    var t := TableOf(s, it.table);
    var c := t[it.index];
    PosBound(c, it.nextEntry.value);
    var i := Pos(c, it.nextEntry.value);
    var (it', r) := Next(s, it);
    AfterEntry(t, it', i, c[i].key);
    forall q
      ensures Pending(s, it', q) <==> Pending(s, it, q) && c[i].key != q
    {
      AfterEntry(t, it', i, q);
      PosBound(c, q);
    }
  }

  lemma FirstEntry<V>(t: Table<V>, it0: Iter, it': Iter, q: Key)
    requires TableOk(t) && 0 <= it'.index < |t| && t[it'.index] != []
    requires var c := t[it'.index]; it'.entry == Some(c[0].key) && it'.nextEntry == KeyAt(c, 1)
    requires it0 == Iter(it'.table, it'.index - 1, None, None)
    ensures After(t, it', q) <==> After(t, it0, q) && t[it'.index][0].key != q
    ensures q == t[it'.index][0].key ==> After(t, it0, q)
  {
    AfterEntry(t, it', 0, q);
    PosBound(t[it'.index], q);
  }

  lemma EnterBucket<V>(s: State<V>, it: Iter)
    requires IterOk(s, it) && it.entry == None && 0 <= it.index < |TableOf(s, it.table)|
    requires TableOf(s, it.table)[it.index] != []
    ensures var (it', r) := Bucket(s, it); Advances(s, it.(index := it.index - 1), it', r)
  {
    var t := TableOf(s, it.table);
    var c := t[it.index];
    var (it', r) := Bucket(s, it);
    AfterEntry(t, it', 0, c[0].key);
    forall q
      ensures Pending(s, it', q) <==> Pending(s, it.(index := it.index - 1), q) && c[0].key != q
    {
      FirstEntry(t, it.(index := it.index - 1), it', q);
    }
    FirstEntry(t, it.(index := it.index - 1), it', c[0].key);
  }

  lemma SkipBucket<V>(s: State<V>, it0: Iter, it: Iter)
    requires IterOk(s, it) && it.entry == None && 0 <= it.index < |TableOf(s, it.table)|
    requires TableOf(s, it.table)[it.index] == [] && it0 == it.(index := it.index - 1)
    ensures forall q :: Pending(s, it, q) <==> Pending(s, it0, q)
  {
    var t := TableOf(s, it.table);
    assert forall q :: After(t, it, q) <==> After(t, it0, q);
  }

  lemma ChainEnd<V>(s: State<V>, it: Iter, it1: Iter)
    requires IterOk(s, it) && it.nextEntry == None && it1 == it.(entry := None)
    ensures forall q :: Pending(s, it, q) <==> Pending(s, it1, q)
  {
    var t := TableOf(s, it.table);
    assert forall q :: After(t, it, q) <==> After(t, it1, q);
  }

  lemma TableEnd<V>(s: State<V>, it: Iter, it1: Iter)
    requires IterOk(s, it) && it.entry == None && it.index + 1 >= |TableOf(s, it.table)|
    requires it1 == if s.Rehashing() && it.table == 0 then Iter(1, 0, None, it.nextEntry) else it.(index := it.index + 1)
    ensures IterOk(s, it1)
    ensures if s.Rehashing() && it.table == 0 then
        && s.t1 != []
        && (forall q :: Pending(s, it, q) <==> Pending(s, Iter(1, -1, None, it.nextEntry), q))
      else
        forall q :: !Pending(s, it, q) && !Pending(s, it1, q)
  {
    var t := TableOf(s, it.table);
    assert forall q :: !After(t, it, q);
    assert it1.table == it.table ==> forall q :: !After(t, it1, q);
    assert s.Rehashing() && it.table == 0 ==>
      forall q :: After(s.t1, Iter(1, -1, None, it.nextEntry), q) <==> GetIn(s.t1, q).Some?;
  }

  lemma {:induction false} BucketOk<V>(s: State<V>, it0: Iter, it: Iter)
    requires IterOk(s, it) && it.entry == None && 0 <= it.index < |TableOf(s, it.table)|
    requires it0 == it.(index := it.index - 1)
    ensures var (it', r) := Bucket(s, it); Advances(s, it0, it', r)
    decreases 1 - it.table, |TableOf(s, it.table)| - it.index, true, 0
  {
    assert Inv(s);
    hide Inv, Pending, IterOk, Get;
    var t := TableOf(s, it.table);
    if t[it.index] == [] {
      NextOk(s, it);
      SkipBucket(s, it0, it);
    } else {
      EnterBucket(s, it);
    }
  }

  /** dictNext returns a pending key and makes it the only one that is no longer pending; it returns
      NULL exactly when nothing is pending. */
  lemma {:induction false} NextOk<V>(s: State<V>, it: Iter)
    requires IterOk(s, it)
    ensures var (it', r) := Next(s, it); Advances(s, it, it', r)
    decreases 1 - it.table, |TableOf(s, it.table)| - it.index, it.entry.Some?
  {
    assert Inv(s);
    hide Inv, Pending;
    var t := TableOf(s, it.table);
    if it.entry.Some? {
      if it.nextEntry.Some? {
        StepInChain(s, it);
      } else {
        NextOk(s, it.(entry := None));
        ChainEnd(s, it, it.(entry := None));
      }
    } else if it.index + 1 < |t| {
      BucketOk(s, it, it.(index := it.index + 1));
    } else if s.Rehashing() && it.table == 0 {
      var it1 := Iter(1, 0, None, it.nextEntry);
      TableEnd(s, it, it1);
      BucketOk(s, it1.(index := -1), it1);
    } else {
      TableEnd(s, it, it.(index := it.index + 1));
    }
  }

  // ---- using the dictionary during an iteration

  /** Between the first call of dictNext and the release, the iterator is counted among those that pause
      rehashing. */
  predicate Started(it: Iter) {
    !(it.index == -1 && it.table == 0)
  }

  lemma {:induction false} BucketStarts<V>(s: State<V>, it: Iter)
    requires IterOk(s, it) && it.entry == None && 0 <= it.index < |TableOf(s, it.table)|
    ensures Bucket(s, it).0.index >= 0
    decreases 1 - it.table, |TableOf(s, it.table)| - it.index, true, 0
  {
    hide Inv;
    if TableOf(s, it.table)[it.index] == [] {
      NextStarts(s, it);
    }
  }

  /** A call of dictNext leaves the iterator where it counts as started. */
  lemma {:induction false} NextStarts<V>(s: State<V>, it: Iter)
    requires IterOk(s, it)
    ensures Next(s, it).0.index >= 0 && Started(Next(s, it).0)
    decreases 1 - it.table, |TableOf(s, it.table)| - it.index, it.entry.Some?
  {
    assert s.Rehashing() ==> s.t1 != [];
    hide Inv;
    var t := TableOf(s, it.table);
    if it.entry.Some? {
      if it.nextEntry == None {
        NextStarts(s, it.(entry := None));
      }
    } else if it.index + 1 < |t| {
      BucketStarts(s, it.(index := it.index + 1));
    } else if s.Rehashing() && it.table == 0 {
      BucketStarts(s, Iter(1, 0, None, it.nextEntry));
    }
  }

  /** What may be done while a started iterator is in use, by its owner or by others: anything but deleting the
      entry the iterator will return next, rehashing on demand, and releasing an iterator that is not active. */
  predicate Allowed<V>(op: Op<V>, s: State<V>, it: Iter) {
    match op
    case Delete(k) => it.nextEntry != Some(k)
    case Rehash(_) => false
    case IteratorReleased => s.iterators > 1
    case _ => true
  }

  /** The chains keep the order of all keys but k. */
  ghost predicate SameOrder<V>(c: Chain<V>, c': Chain<V>, k: Key) {
    && (forall q :: q != k ==> (Lookup(c, q).Some? <==> Lookup(c', q).Some?))
    && (forall p, q :: p != k && q != k ==> (Pos(c, p) <= Pos(c, q) <==> Pos(c', p) <= Pos(c', q)))
  }

  lemma {:induction false} PosWithout<V>(c: Chain<V>, k: Key, q: Key)
    requires q != k
    ensures Pos(WithoutKey(c, k), q) == Pos(c, q) - (if Pos(c, k) < Pos(c, q) then 1 else 0)
  {
    if c != [] && c[0].key != k && c[0].key != q {
      PosWithout(c[1..], k, q);
      assert WithoutKey(c, k)[1..] == WithoutKey(c[1..], k);
    }
  }

  lemma WithoutOrder<V>(c: Chain<V>, k: Key)
    requires DistinctKeys(c)
    ensures SameOrder(c, WithoutKey(c, k), k)
  {
    var c' := WithoutKey(c, k);
    forall q | q != k
      ensures Lookup(c, q).Some? <==> Lookup(c', q).Some?
    {
      LookupWithout(c, k, q);
    }
    forall p, q | p != k && q != k
      ensures Pos(c, p) <= Pos(c, q) <==> Pos(c', p) <= Pos(c', q)
    {
      PosWithout(c, k, p);
      PosWithout(c, k, q);
      PosDistinct(c, k, p);
      PosDistinct(c, k, q);
    }
  }

  lemma PosDistinct<V>(c: Chain<V>, k: Key, q: Key)
    requires k != q
    ensures Pos(c, k) == Pos(c, q) ==> Pos(c, q) == |c|
  {
    PosBound(c, k);
    PosBound(c, q);
  }

  lemma PushOrder<V>(c: Chain<V>, e: Entry<V>)
    ensures SameOrder(c, [e] + c, e.key)
  {
    var c' := [e] + c;
    assert c'[1..] == c;
    assert forall q :: q != e.key ==> Pos(c', q) == 1 + Pos(c, q) && Lookup(c', q) == Lookup(c, q);
  }

  lemma {:induction false} WithValOrder<V>(c: Chain<V>, k: Key, v: V, q: Key)
    ensures Pos(WithVal(c, k, v), q) == Pos(c, q) && |WithVal(c, k, v)| == |c|
  {
    if c != [] {
      assert WithVal(c, k, v)[1..] == if c[0].key == k then c[1..] else WithVal(c[1..], k, v);
      if c[0].key != k {
        WithValOrder(c[1..], k, v, q);
      }
    }
  }

  /** The iterator stays valid, and what is pending changes at most for key k. */
  ghost predicate Undisturbed<V>(s: State<V>, s': State<V>, it: Iter, k: Key)
    requires Inv(s)
  {
    && IterOk(s', it)
    && forall q :: q != k ==> (Pending(s', it, q) <==> Pending(s, it, q))
  }

  ghost predicate StillPending<V>(s: State<V>, s': State<V>, it: Iter)
    requires Inv(s)
  {
    && IterOk(s', it)
    && forall q :: Pending(s', it, q) <==> Pending(s, it, q)
  }

  /** A bucket rewritten in the order of its other keys. */
  lemma BucketChanged<V>(s: State<V>, it: Iter, first: bool, k: Key, c: Chain<V>, s': State<V>)
    requires IterOk(s, it) && Inv(s') && it.nextEntry != Some(k)
    requires (if first then s.t0 else s.t1) != [] && s' == SetBucket(s, first, k, c)
    requires var t := if first then s.t0 else s.t1; SameOrder(t[Idx(k.hash, |t|)], c, k)
    ensures Undisturbed(s, s', it, k)
  {
    var t := if first then s.t0 else s.t1;
    var t' := t[Idx(k.hash, |t|) := c];
    assert t' == (if first then s'.t0 else s'.t1);
    forall q | q != k
      ensures After(t', it, q) <==> After(t, it, q)
      ensures GetIn(t', q).Some? <==> GetIn(t, q).Some?
    {
      AfterChanged(t, it, k, c, q);
    }
  }

  lemma AfterChanged<V>(t: Table<V>, it: Iter, k: Key, c: Chain<V>, q: Key)
    requires Sized(t) && t != [] && q != k && it.nextEntry != Some(k)
    requires SameOrder(t[Idx(k.hash, |t|)], c, k)
    ensures var t' := t[Idx(k.hash, |t|) := c];
      && (After(t', it, q) <==> After(t, it, q)) && (GetIn(t', q).Some? <==> GetIn(t, q).Some?)
  {
  }

  /** A value overwritten in place. */
  lemma ValueChanged<V>(s: State<V>, it: Iter, k: Key, v: V)
    requires IterOk(s, it) && Get(s, k).Some?
    ensures StillPending(s, SetValue(s, k, v), it)
  {
    SetValueOk(s, k, v);
    var first := GetIn(s.t0, k).Some?;
    var t := if first then s.t0 else s.t1;
    ValueStored(s, SetValue(s, k, v), it, first, k, v);
  }

  lemma ValueStored<V>(s: State<V>, s': State<V>, it: Iter, first: bool, k: Key, v: V)
    requires IterOk(s, it) && Inv(s')
    requires var t := if first then s.t0 else s.t1;
      t != [] && s' == SetBucket(s, first, k, WithVal(t[Idx(k.hash, |t|)], k, v))
    ensures StillPending(s, s', it)
  {
    var t := if first then s.t0 else s.t1;
    var t' := if first then s'.t0 else s'.t1;
    ValueIterOk(s, s', it, first, k, v);
    hide IterOk, Pending, WithVal, After, GetIn, Get;
    forall q
      ensures After(t', it, q) <==> After(t, it, q)
      ensures GetIn(t', q).Some? <==> GetIn(t, q).Some?
    {
      AfterValue(t, it, k, v, q);
    }
    PendingFromAfter(s, s', it, first);
  }

  lemma ValueIterOk<V>(s: State<V>, s': State<V>, it: Iter, first: bool, k: Key, v: V)
    requires IterOk(s, it) && Inv(s')
    requires var t := if first then s.t0 else s.t1;
      t != [] && s' == SetBucket(s, first, k, WithVal(t[Idx(k.hash, |t|)], k, v))
    ensures IterOk(s', it)
  {
    var t := if first then s.t0 else s.t1;
    assert Inv(s);
    hide Inv, After, WithVal;
    AfterValue(t, it, k, v, k);
  }

  lemma PendingFromAfter<V>(s: State<V>, s': State<V>, it: Iter, first: bool)
    requires Inv(s) && Inv(s')
    requires if first then s'.t1 == s.t1 else s'.t0 == s.t0
    requires var t, t' := if first then s.t0 else s.t1, if first then s'.t0 else s'.t1;
      forall q :: (After(t', it, q) <==> After(t, it, q)) && (GetIn(t', q).Some? <==> GetIn(t, q).Some?)
    ensures forall q :: Pending(s', it, q) <==> Pending(s, it, q)
  {
  }

  lemma AfterValue<V>(t: Table<V>, it: Iter, k: Key, v: V, q: Key)
    requires Sized(t) && t != []
    ensures var i := Idx(k.hash, |t|);
      var t' := t[i := WithVal(t[i], k, v)];
      && (After(t', it, q) <==> After(t, it, q)) && (GetIn(t', q).Some? <==> GetIn(t, q).Some?)
      && (forall p :: Lookup(WithVal(t[i], k, v), p).Some? <==> Lookup(t[i], p).Some?)
  {
    var i := Idx(k.hash, |t|);
    var c := WithVal(t[i], k, v);
    forall p
      ensures Pos(c, p) == Pos(t[i], p) && (Lookup(c, p).Some? <==> Lookup(t[i], p).Some?)
    {
      WithValOrder(t[i], k, v, p);
      PosBound(c, p);
      PosBound(t[i], p);
    }
  }

  /** A resize that may start a rehashing with an empty second table. */
  lemma ResizeUndisturbed<V>(s: State<V>, it: Iter, size: nat)
    requires IterOk(s, it) && size < LONG_MAX && DictModel.Expand(s, size).Some?
    ensures StillPending(s, DictModel.Expand(s, size).value, it)
  {
    ExpandOk(s, size);
    var s' := DictModel.Expand(s, size).value;
    InitialSize();
    EmptyTableOk<V>(NextPower(size, INITIAL_SIZE));
    if s.t0 == [] {
      assert forall q :: !After(s'.t0, it, q) && !After(s.t0, it, q);
    }
  }

  /** The keys present before and after keep their place with respect to the iterator. */
  ghost predicate Keeps<V>(s: State<V>, s': State<V>, it: Iter)
    requires Inv(s)
  {
    && IterOk(s', it)
    && forall q :: Get(s, q).Some? && Get(s', q).Some? ==> (Pending(s', it, q) <==> Pending(s, it, q))
  }

  lemma NextPresent<V>(s: State<V>, it: Iter)
    requires IterOk(s, it) && it.nextEntry.Some?
    ensures Get(s, it.nextEntry.value).Some?
  {
    var t, k := TableOf(s, it.table), it.nextEntry.value;
    LookupSome(t[it.index], k);
    LookupMember(t[it.index], Entry(k, Lookup(t[it.index], k).value));
  }

  lemma ExpandKeeps<V>(s: State<V>, it: Iter, canResize: bool)
    requires IterOk(s, it) && s.iterators > 0 && RoomFor(s, 0)
    ensures AddPrepare(s, canResize) == ExpandIfNeeded(s, canResize)
    ensures StillPending(s, ExpandIfNeeded(s, canResize), it)
  {
    ExpandIfNeededOk(s, canResize);
    if !s.Rehashing() {
      if s.t0 == [] {
        ExpandOk(s, INITIAL_SIZE);
        ResizeUndisturbed(s, it, INITIAL_SIZE);
      } else if ExpandIfNeeded(s, canResize) != s {
        ExpandOk(s, 2 * Used(s.t0));
        ResizeUndisturbed(s, it, 2 * Used(s.t0));
      }
    }
  }

  lemma PushKeeps<V>(s: State<V>, it: Iter, e: Entry<V>)
    requires IterOk(s, it) && s.t0 != [] && Get(s, e.key) == None
    ensures Undisturbed(s, PushNew(s, e), it, e.key)
  {
    PushNewOk(s, e);
    if it.nextEntry.Some? {
      NextPresent(s, it);
    }
    var t := if s.Rehashing() then s.t1 else s.t0;
    var c := t[Idx(e.key.hash, |t|)];
    PushOrder(c, e);
    BucketChanged(s, it, !s.Rehashing(), e.key, [e] + c, PushNew(s, e));
  }

  lemma AddKeeps<V>(s: State<V>, it: Iter, k: Key, v: V, canResize: bool)
    requires IterOk(s, it) && s.iterators > 0 && RoomFor(s, 0)
    ensures Keeps(s, DictModel.Add(s, k, v, canResize), it)
    ensures Get(s, k).Some? ==> StillPending(s, DictModel.Add(s, k, v, canResize), it)
  {
    AddOk(s, k, v, canResize);
    AddPrepareOk(s, canResize);
    ExpandKeeps(s, it, canResize);
    if Get(s, k) == None {
      PushKeeps(AddPrepare(s, canResize), it, Entry(k, v));
    }
  }

  lemma ReplaceKeeps<V>(s: State<V>, it: Iter, k: Key, v: V, canResize: bool)
    requires IterOk(s, it) && s.iterators > 0 && RoomFor(s, 0)
    ensures Keeps(s, DictModel.Replace(s, k, v, canResize), it)
  {
    ReplaceOk(s, k, v, canResize);
    AddOk(s, k, v, canResize);
    AddKeeps(s, it, k, v, canResize);
    if Get(s, k).Some? {
      ValueChanged(DictModel.Add(s, k, v, canResize), it, k, v);
    }
  }

  lemma DeleteKeeps<V>(s: State<V>, it: Iter, k: Key)
    requires IterOk(s, it) && s.iterators > 0 && it.nextEntry != Some(k)
    ensures Keeps(s, DictModel.Delete(s, k), it)
  {
    DeleteOk(s, k);
    if Get(s, k).Some? {
      var first := GetIn(s.t0, k).Some?;
      var t := if first then s.t0 else s.t1;
      var c := t[Idx(k.hash, |t|)];
      WithoutOrder(c, k);
      BucketChanged(s, it, first, k, WithoutKey(c, k), DictModel.Delete(s, k));
    }
  }

  /** The count of iterators is no part of the map. */
  lemma RecountKeeps<V>(s: State<V>, it: Iter, n: nat)
    requires IterOk(s, it)
    ensures Keeps(s, s.(iterators := n), it) && StillPending(s, s.(iterators := n), it)
    ensures forall q :: Get(s.(iterators := n), q) == Get(s, q)
  {
  }

  /** What an operation does to the count of active iterators. */
  function CountChange<V>(op: Op<V>): int {
    match op
    case IteratorStarted => 1
    case IteratorReleased => -1
    case _ => 0
  }

  lemma StepCounts<V>(s: State<V>, op: Op<V>)
    requires Inv(s) && RoomFor(s, 0) && (op.IteratorReleased? ==> s.iterators > 0)
    ensures Step(s, op).iterators == s.iterators + CountChange(op)
  {
    match op
    case Add(k, v, canResize) => AddOk(s, k, v, canResize);
    case Replace(k, v, canResize) => ReplaceOk(s, k, v, canResize);
    case Delete(k) => DeleteOk(s, k);
    case Find(k) => FindOk(s);
    case Rehash(n) => RehashOk(s, n);
    case _ =>
  }

  lemma StepKeeps<V>(s: State<V>, it: Iter, op: Op<V>)
    requires IterOk(s, it) && s.iterators > 0 && RoomFor(s, 0) && Allowed(op, s, it)
    ensures Keeps(s, Step(s, op), it)
  {
    match op
    case Add(k, v, canResize) => AddKeeps(s, it, k, v, canResize);
    case Replace(k, v, canResize) => ReplaceKeeps(s, it, k, v, canResize);
    case Delete(k) => DeleteKeeps(s, it, k);
    case Find(k) =>
    case IteratorStarted => RecountKeeps(s, it, s.iterators + 1);
    case IteratorReleased => RecountKeeps(s, it, s.iterators - 1);
    case Expand(size) =>
      if size < LONG_MAX && DictModel.Expand(s, size).Some? {
        ExpandOk(s, size);
        ResizeUndisturbed(s, it, size);
      }
    case Resize(canResize) =>
      if DictModel.Resize(s, canResize).Some? {
        var size := if Used(s.t0) < INITIAL_SIZE then INITIAL_SIZE else Used(s.t0);
        ExpandOk(s, size);
        ResizeUndisturbed(s, it, size);
      }
  }

  // ---- whole iterations

  datatype Action<V> = Call | Use(op: Op<V>)

  datatype Progress<V> = Progress(s: State<V>, it: Iter, keys: seq<Key>, done: bool)

  /** The iteration's state after one action; `keys` are the keys returned, `done` says that the last
      call returned NULL. The first call counts the iterator. */
  ghost function Act<V>(p: Progress<V>, a: Action<V>): Progress<V>
    requires IterOk(p.s, p.it) && RoomFor(p.s, 0)
  {
    match a
    case Call =>
      var s := if Started(p.it) then p.s else p.s.(iterators := p.s.iterators + 1);
      var (it', r) := Next(p.s, p.it);
      if r.Some? then Progress(s, it', p.keys + [r.value.key], false) else Progress(s, it', p.keys, true)
    case Use(op) => p.(s := Step(p.s, op), done := false)
  }

  /** dictReleaseIterator. */
  function Release<V>(p: Progress<V>): State<V>
    requires Started(p.it) ==> p.s.iterators > 0
  {
    if Started(p.it) then p.s.(iterators := p.s.iterators - 1) else p.s
  }

  /** The active iterators other than this one. */
  function Others<V>(p: Progress<V>): int {
    p.s.iterators - if Started(p.it) then 1 else 0
  }

  ghost predicate Ready<V>(p: Progress<V>) {
    IterOk(p.s, p.it) && Others(p) >= 0 && (!Started(p.it) ==> p.it == FRESH)
  }

  /** An iterator that has not been started restricts nothing, except that only active ones are released. */
  ghost predicate CanAct<V>(p: Progress<V>, a: Action<V>) {
    && RoomFor(p.s, 0)
    && (a.Use? && Started(p.it) ==> Allowed(a.op, p.s, p.it))
    && (a.Use? && a.op.IteratorReleased? ==> Others(p) > 0)
  }

  ghost predicate CanRun<V>(p: Progress<V>, actions: seq<Action<V>>)
    requires Ready(p)
    decreases |actions|
  {
    actions != [] ==>
      CanAct(p, actions[0])
      && (ActKeeps(p, actions[0]); CanRun(Act(p, actions[0]), actions[1..]))
  }

  ghost function RunIteration<V>(p: Progress<V>, actions: seq<Action<V>>): (p': Progress<V>)
    requires Ready(p) && CanRun(p, actions)
    ensures Ready(p')
    decreases |actions|
  {
    if actions == [] then p else
      ActKeeps(p, actions[0]);
      RunIteration(Act(p, actions[0]), actions[1..])
  }

  ghost predicate PresentThroughout<V>(p: Progress<V>, actions: seq<Action<V>>, q: Key)
    requires Ready(p) && CanRun(p, actions)
    decreases |actions|
  {
    Get(p.s, q).Some?
    && (actions != [] ==>
          (ActKeeps(p, actions[0]); PresentThroughout(Act(p, actions[0]), actions[1..], q)))
  }

  // ---- the count

  /** Iterators started by others less those released, in a run. */
  function NetStarted<V>(actions: seq<Action<V>>): int {
    if actions == [] then 0 else
      (if actions[0].Use? then CountChange(actions[0].op) else 0) + NetStarted(actions[1..])
  }

  predicate CallsNext<V>(actions: seq<Action<V>>) {
    actions != [] && (actions[0].Call? || CallsNext(actions[1..]))
  }

  lemma ActKeeps<V>(p: Progress<V>, a: Action<V>)
    requires Ready(p) && CanAct(p, a)
    ensures var p' := Act(p, a);
      && Ready(p') && (Started(p.it) || a.Call? ==> Started(p'.it))
      && Others(p') == Others(p) + (if a.Use? then CountChange(a.op) else 0)
  {
    match a
    case Call =>
      NextOk(p.s, p.it);
      NextStarts(p.s, p.it);
    case Use(op) =>
      StepCounts(p.s, op);
      if Started(p.it) {
        StepKeeps(p.s, p.it, op);
      } else {
        StepOk(p.s, op);
        FreshReady(Step(p.s, op));
      }
  }

  lemma FreshReady<V>(s: State<V>)
    requires Inv(s)
    ensures Ready(Progress(s, FRESH, [], false))
  {
  }

  lemma {:induction false} RunCounts<V>(p: Progress<V>, actions: seq<Action<V>>)
    requires Ready(p) && CanRun(p, actions)
    ensures var p' := RunIteration(p, actions);
      && Others(p') == Others(p) + NetStarted(actions)
      && (Started(p'.it) <==> Started(p.it) || CallsNext(actions))
    decreases |actions|
  {
    hide IterOk;
    if actions != [] {
      ActKeeps(p, actions[0]);
      StillFresh(p, actions[0]);
      RunCounts(Act(p, actions[0]), actions[1..]);
    }
  }

  lemma StillFresh<V>(p: Progress<V>, a: Action<V>)
    requires Ready(p) && CanAct(p, a)
    ensures a.Use? ==> Act(p, a).it == p.it
  {
  }

  /** Between its creation and its release an iterator is counted from the first call of dictNext on, however
      others come and go; after the release the count is what it was before, but for the others. */
  lemma IterationRestoresCount<V>(s: State<V>, actions: seq<Action<V>>)
    requires Inv(s) && Ready(Progress(s, FRESH, [], false)) && CanRun(Progress(s, FRESH, [], false), actions)
    ensures var p' := RunIteration(Progress(s, FRESH, [], false), actions);
      && (Started(p'.it) <==> CallsNext(actions))
      && p'.s.iterators == s.iterators + NetStarted(actions) + (if CallsNext(actions) then 1 else 0)
      && Release(p').iterators == s.iterators + NetStarted(actions)
  {
    RunCounts(Progress(s, FRESH, [], false), actions);
  }

  // ---- what is returned

  /** Times key q was returned, plus one while it is pending. */
  ghost function Tally<V>(p: Progress<V>, q: Key): nat
    requires Inv(p.s)
  {
    multiset(p.keys)[q] + (if Pending(p.s, p.it, q) then 1 else 0)
  }

  lemma CallKeepsTally<V>(p: Progress<V>, q: Key)
    requires IterOk(p.s, p.it) && RoomFor(p.s, 0)
    ensures var p' := Act(p, Call);
      && Inv(p'.s) && Tally(p', q) == Tally(p, q) && (p'.done ==> !Pending(p'.s, p'.it, q))
  {
    NextOk(p.s, p.it);
    var (it', r) := Next(p.s, p.it);
    RecountKeeps(p.s, it', p.s.iterators + 1);
    assert Inv(p.s);
    hide Inv, Pending, Get;
    if r.Some? {
      assert multiset(p.keys + [r.value.key]) == multiset(p.keys) + multiset{r.value.key};
    }
  }

  lemma ActKeepsTally<V>(p: Progress<V>, a: Action<V>, q: Key)
    requires Ready(p) && CanAct(p, a)
    ensures var p' := Act(p, a);
      && Inv(p'.s)
      && (Get(p.s, q).Some? && Get(p'.s, q).Some? ==> Tally(p', q) == Tally(p, q))
      && (p'.done ==> !Pending(p'.s, p'.it, q))
  {
    match a
    case Call => CallKeepsTally(p, q);
    case Use(op) =>
      if Started(p.it) {
        StepKeeps(p.s, p.it, op);
      } else {
        StepOk(p.s, op);
        FreshPending(p.s, q);
        FreshPending(Step(p.s, op), q);
      }
  }

  lemma {:induction false} RunKeepsTally<V>(p: Progress<V>, actions: seq<Action<V>>, q: Key)
    requires Ready(p) && CanRun(p, actions) && PresentThroughout(p, actions, q)
    requires p.done ==> !Pending(p.s, p.it, q)
    ensures var p' := RunIteration(p, actions);
      Tally(p', q) == Tally(p, q) && (p'.done ==> !Pending(p'.s, p'.it, q))
    decreases |actions|
  {
    if actions != [] {
      ActKeeps(p, actions[0]);
      ActKeepsTally(p, actions[0], q);
      RunKeepsTally(Act(p, actions[0]), actions[1..], q);
    }
  }

  /** A safe iteration that runs until dictNext returns NULL yields every key that is present throughout exactly
      once, whatever is added, replaced, deleted or resized on the way, and whatever other iterators do. */
  lemma SafeIterationOnce<V>(s: State<V>, actions: seq<Action<V>>, q: Key)
    requires Inv(s) && Ready(Progress(s, FRESH, [], false))
    requires var p := Progress(s, FRESH, [], false);
      CanRun(p, actions) && PresentThroughout(p, actions, q) && RunIteration(p, actions).done
    ensures multiset(RunIteration(Progress(s, FRESH, [], false), actions).keys)[q] == 1
  {
    var p := Progress(s, FRESH, [], false);
    FreshPending(s, q);
    RunKeepsTally(p, actions, q);
  }
}
