/** dict.c: a dictionary whose fields (the two bucket arrays, their masks and counters, the rehash
    index) are updated by its operations. A bucket array is the sequence of its chains, a chain the
    sequence of its entries. Every method is proved against its transition in DictModel. */
module DictTable {
  import opened Wrappers
  import opened Words
  import opened DictModel
  import opened ScanCursor
  import opened DictScan

  class Dict<V> {
    var table0: Table<V>
    var table1: Table<V>
    var sizemask0: Word
    var sizemask1: Word
    var used0: nat
    var used1: nat
    var rehashidx: int
    var iterators: nat

    ghost function Abs(): State<V>
      reads this
    {
      State(table0, table1, rehashidx, iterators)
    }

    /** The counters and masks agree with the tables. */
    ghost predicate Layout()
      reads this
    {
      && used0 == Used(table0) && used1 == Used(table1)
      && (table0 != [] ==> sizemask0 == ToWord(|table0| - 1))
      && (table1 != [] ==> sizemask1 == ToWord(|table1| - 1))
    }

    ghost predicate Valid()
      reads this
    {
      Layout() && Inv(Abs())
    }

    predicate IsRehashing()
      reads this
    {
      rehashidx != -1
    }

    constructor ()
      ensures Valid() && Abs() == State([], [], -1, 0)
    {
      table0, table1 := [], [];
      sizemask0, sizemask1 := Zero(), Zero();
      used0, used1 := 0, 0;
      rehashidx, iterators := -1, 0;
    }

    /** Moves a chain, entry by entry, in front of the chains of the new table. */
    method MoveChain(c: Chain<V>)
      requires Layout() && table1 != [] && IsSize(|table1|) && |c| <= used0
      modifies this`used0, this`used1, this`table1
      ensures table1 == Move(c, old(table1))
      ensures used0 == old(used0) - |c| && used1 == old(used1) + |c|
    {
      var de := c;
      while de != []
        invariant |de| <= |c| && |table1| == |old(table1)|
        invariant Move(de, table1) == Move(c, old(table1))
        invariant used0 == old(used0) - |c| + |de| && used1 == old(used1) + |c| - |de|
        decreases de
      {
        var h := ToNat(And(de[0].key.hash, sizemask1));
        table1 := table1[h := [de[0]] + table1[h]];
        used0 := used0 - 1;
        used1 := used1 + 1;
        de := de[1..];
      }
    }

    /** Skips the empty buckets from rehashidx on; with entries left, one is in bounds. */
    method SkipEmpty()
      requires Valid() && IsRehashing() && used0 != 0
      modifies this`rehashidx
      ensures rehashidx == NextBucket(table0, old(rehashidx)) < |table0|
    {
      UsedZero(table0);
      assert |table0| > rehashidx;
      while table0[rehashidx] == []
        invariant old(rehashidx) <= rehashidx < |table0|
        invariant NextBucket(table0, rehashidx) == NextBucket(table0, old(rehashidx))
        invariant forall i :: 0 <= i < rehashidx ==> table0[i] == []
        decreases |table0| - rehashidx
      {
        rehashidx := rehashidx + 1;
      }
    }

    /** Moves the bucket at rehashidx into the new table. */
    method MoveBucket()
      requires Layout() && 0 <= rehashidx < |table0| && table1 != [] && IsSize(|table1|)
      modifies this`table0, this`table1, this`used0, this`used1, this`rehashidx
      ensures Layout()
      ensures var s, j := old(Abs()), old(rehashidx);
        Abs() == State(s.t0[j := []], Move(s.t0[j], s.t1), j + 1, s.iterators)
    {
      hide Used, Move, IsSize, ToNat, And;
      UsedUpdate(table0, rehashidx, []);
      UsedMove(table0[rehashidx], table1);
      MoveChain(table0[rehashidx]);
      table0 := table0[rehashidx := []];
      rehashidx := rehashidx + 1;
    }

    /** The new table takes over. */
    method SwitchTables()
      requires Layout()
      modifies this
      ensures Layout() && Abs() == State(old(table1), [], -1, old(iterators))
    {
      table0, sizemask0, used0 := table1, sizemask1, used1;
      table1, sizemask1, used1 := [], Zero(), 0;
      rehashidx := -1;
    }

    /** What a step comes to in each of its cases. */
    static lemma RehashOneCases(s: State<V>)
      requires Inv(s) && s.Rehashing()
      ensures Inv(DictModel.RehashOne(s)) && 0 <= s.rehashidx && IsSize(|s.t1|) && s.t1 != []
      ensures Used(s.t0) == 0 ==> DictModel.RehashOne(s) == State(s.t1, [], -1, s.iterators)
      ensures Used(s.t0) != 0 ==> var j := NextBucket(s.t0, s.rehashidx);
        j < |s.t0| && DictModel.RehashOne(s) == State(s.t0[j := []], Move(s.t0[j], s.t1), j + 1, s.iterators)
    {
      RehashOneOk(s);
    }

    /** One iteration of dictRehash's loop; `more` is false when the new table took over. */
    method RehashOne() returns (more: bool)
      requires Valid() && IsRehashing()
      modifies this
      ensures Valid() && Abs() == DictModel.RehashOne(old(Abs()))
      ensures more == IsRehashing()
    {
      ghost var s := Abs();
      hide Used, Move, NextBucket, IsSize, Inv, ToNat, And, DictModel.RehashOne;
      RehashOneCases(s);
      more := used0 != 0;
      if more {
        SkipEmpty();
        MoveBucket();
      } else {
        SwitchTables();
      }
    }

    /** dictRehash. */
    method Rehash(n: nat) returns (more: bool)
      requires Valid()
      modifies this
      ensures Valid() && Abs() == DictModel.Rehash(old(Abs()), n)
      ensures more == IsRehashing()
    {
      hide Inv, DictModel.RehashOne, Used;
      more := IsRehashing();
      var i := n;
      while more && i > 0
        invariant Valid() && more == IsRehashing()
        invariant DictModel.Rehash(Abs(), i) == DictModel.Rehash(old(Abs()), n)
      {
        i := i - 1;
        more := RehashOne();
      }
    }

    /** _dictRehashStep. */
    method RehashStep()
      requires Valid()
      modifies this
      ensures Valid() && Abs() == DictModel.RehashStep(old(Abs()))
    {
      if iterators == 0 {
        var more := Rehash(1);
      }
    }

    /** A bucket's chain replaced, in the first table or in the second. */
    method StoreChain(first: bool, idx: nat, c: Chain<V>)
      requires Layout() && idx < if first then |table0| else |table1|
      modifies this`table0, this`table1, this`used0, this`used1
      ensures Layout()
      ensures Abs() ==
        if first then old(Abs()).(t0 := old(table0)[idx := c]) else old(Abs()).(t1 := old(table1)[idx := c])
    {
      if first {
        UsedUpdate(table0, idx, c);
        used0 := used0 + |c| - |table0[idx]|;
        table0 := table0[idx := c];
      } else {
        UsedUpdate(table1, idx, c);
        used1 := used1 + |c| - |table1[idx]|;
        table1 := table1[idx := c];
      }
    }

    /** `hash & sizemask`, a bucket of the first or the second table. */
    method BucketOf(first: bool, k: Key) returns (idx: nat)
      requires Valid() && (if first then table0 else table1) != []
      ensures idx == Idx(k.hash, if first then |table0| else |table1|)
      ensures idx < if first then |table0| else |table1|
      ensures Lookup((if first then table0 else table1)[idx], k) == GetIn(if first then table0 else table1, k)
    {
      idx := ToNat(And(k.hash, if first then sizemask0 else sizemask1));
      assert idx == Idx(k.hash, if first then |table0| else |table1|);
    }

    /** _dictNextPower. */
    static method NextPowerOfTwo(size: nat) returns (i: nat)
      requires size < LONG_MAX
      ensures IsSize(INITIAL_SIZE) && i == NextPower(size, INITIAL_SIZE)
    {
      InitialSize();
      i := INITIAL_SIZE;
      while i < size
        invariant IsSize(i) && NextPower(size, i) == NextPower(size, INITIAL_SIZE)
        decreases size - i
      {
        SizeDoubles(i);
        i := i * 2;
      }
    }

    /** The table of dictExpand installed as the first table, or as the target of a rehashing. */
    method Install(n: Table<V>)
      requires Layout() && n != [] && Used(n) == 0
      modifies this
      ensures Layout()
      ensures var s := old(Abs());
        Abs() == if s.t0 == [] then s.(t0 := n) else s.(t1 := n, rehashidx := 0)
    {
      if table0 == [] {
        table0, sizemask0, used0 := n, ToWord(|n| - 1), 0;
      } else {
        table1, sizemask1, used1 := n, ToWord(|n| - 1), 0;
        rehashidx := 0;
      }
    }

    /** dictExpand; false is DICT_ERR. */
    method Expand(size: nat) returns (ok: bool)
      requires Valid() && size < LONG_MAX
      modifies this
      ensures Valid() && ok == DictModel.Expand(old(Abs()), size).Some?
      ensures Abs() == if ok then DictModel.Expand(old(Abs()), size).value else old(Abs())
      ensures ok ==> Expanded(old(Abs()), Abs(), size)
    {
      ExpandOk(Abs(), size);
      var realsize := NextPowerOfTwo(size);
      ok := !IsRehashing() && used0 <= size;
      if ok {
        EmptyTableOk<V>(realsize);
        Install(EmptyTable(realsize));
      }
    }

    /** dictResize. */
    method Resize(canResize: bool) returns (ok: bool)
      requires Valid() && used0 < LONG_MAX
      modifies this
      ensures Valid() && ok == DictModel.Resize(old(Abs()), canResize).Some?
      ensures Abs() == if ok then DictModel.Resize(old(Abs()), canResize).value else old(Abs())
    {
      if !canResize || IsRehashing() {
        return false;
      }
      var minimal := used0;
      if minimal < INITIAL_SIZE {
        minimal := INITIAL_SIZE;
      }
      ok := Expand(minimal);
    }

    /** _dictExpandIfNeeded; neither of its calls of dictExpand can fail. */
    method ExpandIfNeeded(canResize: bool)
      requires Valid() && 2 * used0 < LONG_MAX
      modifies this
      ensures Valid() && Abs() == DictModel.ExpandIfNeeded(old(Abs()), canResize)
    {
      if IsRehashing() {
        return;
      }
      if table0 == [] {
        var ok := Expand(INITIAL_SIZE);
        return;
      }
      if used0 >= |table0| && (canResize || used0 / |table0| > FORCE_RESIZE_RATIO) {
        var ok := Expand(used0 * 2);
      }
    }

    /** The walk along a chain for a key. */
    static method SearchChain(c: Chain<V>, k: Key) returns (r: Option<V>)
      ensures r == Lookup(c, k)
    {
      var he := c;
      while he != []
        invariant Lookup(he, k) == Lookup(c, k)
        decreases he
      {
        if he[0].key == k {
          return Some(he[0].val);
        }
        he := he[1..];
      }
      return None;
    }

    /** The lookup shared by dictFind and _dictKeyIndex: the entry's value, and the last bucket index
        tried (one of the table that takes new entries when the key is absent). */
    method Search(k: Key) returns (r: Option<V>, idx: nat)
      requires Valid() && table0 != []
      ensures r == Get(Abs(), k)
      ensures r == None ==> idx == Idx(k.hash, if IsRehashing() then |table1| else |table0|)
    {
      idx := BucketOf(true, k);
      r := SearchChain(table0[idx], k);
      if r == None && IsRehashing() {
        idx := BucketOf(false, k);
        r := SearchChain(table1[idx], k);
      }
    }

    /** _dictKeyIndex: the bucket for a new key, -1 if the key exists. */
    method KeyIndex(k: Key, canResize: bool) returns (idx: int)
      requires Valid() && 2 * used0 < LONG_MAX
      modifies this
      ensures Valid() && Abs() == DictModel.ExpandIfNeeded(old(Abs()), canResize)
      ensures table0 != []
      ensures idx == -1 <==> Get(Abs(), k).Some?
      ensures idx != -1 ==> idx == Idx(k.hash, if IsRehashing() then |table1| else |table0|)
    {
      ExpandIfNeededOk(Abs(), canResize);
      ExpandIfNeeded(canResize);
      var he;
      he, idx := Search(k);
      if he.Some? {
        idx := -1;
      }
    }

    /** The new entry in front of its chain. */
    method Insert(index: nat, e: Entry<V>)
      requires Valid() && table0 != []
      requires index == Idx(e.key.hash, if IsRehashing() then |table1| else |table0|)
      modifies this`table0, this`table1, this`used0, this`used1
      ensures Layout() && Abs() == PushNew(old(Abs()), e)
    {
      var ht := if IsRehashing() then table1 else table0;
      StoreChain(!IsRehashing(), index, [e] + ht[index]);
    }

    /** dictAdd: dictAddRaw and dictSetVal; false is DICT_ERR, the key exists. */
    method Add(k: Key, v: V, canResize: bool) returns (ok: bool)
      requires Valid() && 2 * (used0 + used1) < LONG_MAX
      modifies this
      ensures Valid() && Abs() == DictModel.Add(old(Abs()), k, v, canResize)
      ensures ok == (Get(old(Abs()), k) == None)
    {
      ghost var s := Abs();
      RehashStepOk(s);
      AddPrepareOk(s, canResize);
      if IsRehashing() {
        RehashStep();
      }
      var index := KeyIndex(k, canResize);
      assert Abs() == AddPrepare(s, canResize);
      if index == -1 {
        return false;
      }
      PushNewOk(Abs(), Entry(k, v));
      Insert(index, Entry(k, v));
      return true;
    }

    /** dictFind, returning the value of the entry. */
    method Find(k: Key) returns (r: Option<V>)
      requires Valid()
      modifies this
      ensures Valid() && Abs() == DictModel.Find(old(Abs()))
      ensures r == Get(old(Abs()), k)
    {
      if table0 == [] {
        return None;
      }
      RehashStepOk(Abs());
      if IsRehashing() {
        RehashStep();
      }
      var idx;
      r, idx := Search(k);
    }

    /** The entry's position in its chain, or the chain's length. */
    static method Position(c: Chain<V>, k: Key) returns (i: nat)
      ensures i <= |c|
      ensures i == |c| <==> Lookup(c, k) == None
      ensures i < |c| ==> c[i].key == k && WithoutKey(c, k) == c[..i] + c[i + 1..]
      ensures i < |c| ==> forall v :: WithVal(c, k, v) == c[..i] + [Entry(k, v)] + c[i + 1..]
    {
      i := 0;
      while i < |c| && c[i].key != k
        invariant i <= |c|
        invariant Lookup(c, k) == Lookup(c[i..], k)
        invariant WithoutKey(c, k) == c[..i] + WithoutKey(c[i..], k)
        invariant forall v :: WithVal(c, k, v) == c[..i] + WithVal(c[i..], k, v)
      {
        i := i + 1;
      }
    }

    /** dictReplace; true when the key was added from scratch. */
    method Replace(k: Key, v: V, canResize: bool) returns (added: bool)
      requires Valid() && 2 * (used0 + used1) < LONG_MAX
      modifies this
      ensures Valid() && Abs() == DictModel.Replace(old(Abs()), k, v, canResize)
      ensures added == (Get(old(Abs()), k) == None)
    {
      AddOk(Abs(), k, v, canResize);
      added := Add(k, v, canResize);
      if added {
        return;
      }
      FindOk(Abs());
      var entry := Find(k);
      SetValue(k, v);
    }

    /** dictSetVal on the entry that dictFind returned. */
    method SetValue(k: Key, v: V)
      requires Valid() && Get(Abs(), k).Some?
      modifies this`table0, this`table1, this`used0, this`used1
      ensures Valid() && Abs() == DictModel.SetValue(old(Abs()), k, v)
    {
      SetValueOk(Abs(), k, v);
      var idx := BucketOf(true, k);
      var i := Position(table0[idx], k);
      if i < |table0[idx]| {
        StoreChain(true, idx, table0[idx][..i] + [Entry(k, v)] + table0[idx][i + 1..]);
      } else {
        idx := BucketOf(false, k);
        i := Position(table1[idx], k);
        StoreChain(false, idx, table1[idx][..i] + [Entry(k, v)] + table1[idx][i + 1..]);
      }
    }

    /** Unlinks the entry of key k from its chain; false when there is none. */
    method Unlink(k: Key) returns (ok: bool)
      requires Valid() && table0 != []
      modifies this`table0, this`table1, this`used0, this`used1
      ensures Valid() && Abs() == DictModel.Unlink(old(Abs()), k)
      ensures ok == Get(old(Abs()), k).Some?
    {
      UnlinkOk(Abs(), k);
      var idx := BucketOf(true, k);
      var i := Position(table0[idx], k);
      if i < |table0[idx]| {
        StoreChain(true, idx, table0[idx][..i] + table0[idx][i + 1..]);
        return true;
      }
      if !IsRehashing() {
        return false;
      }
      idx := BucketOf(false, k);
      i := Position(table1[idx], k);
      ok := i < |table1[idx]|;
      if ok {
        StoreChain(false, idx, table1[idx][..i] + table1[idx][i + 1..]);
      }
    }

    /** dictGenericDelete; false is DICT_ERR, no such key. */
    method Delete(k: Key) returns (ok: bool)
      requires Valid()
      modifies this
      ensures Valid() && Abs() == DictModel.Delete(old(Abs()), k)
      ensures ok == Get(old(Abs()), k).Some?
    {
      if table0 == [] {
        return false;
      }
      RehashStepOk(Abs());
      if IsRehashing() {
        RehashStep();
      }
      ok := Unlink(k);
    }

    /** The callback applied to the entries of a chain. */
    static method EmitChain(c: Chain<V>, keys: seq<Entry<V>>) returns (out: seq<Entry<V>>)
      ensures out == keys + c
    {
      out := keys;
      var de := c;
      while de != []
        invariant out + de == keys + c
        decreases de
      {
        out := out + [de[0]];
        de := de[1..];
      }
    }

    /** The do-while loop of dictScan over the expansions of cursor v in the larger table. */
    static method EmitExpansions(t1: Table<V>, v: Word, ghost n0: nat, m0: Word, m1: Word, keys: seq<Entry<V>>)
      returns (cursor: Word, out: seq<Entry<V>>)
      requires IsSize(n0) && IsSize(|t1|) && n0 <= |t1| && m0 == SizeMaskOf(n0) && m1 == SizeMaskOf(|t1|)
      ensures out == keys + Expansions(t1, Idx(v, |t1|), n0)
      ensures cursor[..Log(n0)] == v[..Log(n0)]
    {
      assert n0 > 0;
      hide *;
      cursor, out := v, keys;
      ghost var goal := keys + Expansions(t1, Idx(v, |t1|), n0);
      var more := true;
      while more
        invariant cursor[..Log(n0)] == v[..Log(n0)]
        invariant more ==> out + Expansions(t1, Idx(cursor, |t1|), n0) == goal
        invariant !more ==> out == goal
        decreases more, |t1| - Idx(cursor, |t1|)
      {
        ExpansionRound(t1, cursor, n0, out, goal);
        out := EmitChain(t1[ToNat(And(cursor, m1))], out);
        cursor := NextExpansion(cursor, m0);
        more := And(cursor, Xor(m0, m1)) != Zero();
      }
    }

    /** The buckets of the smaller table and of its expansions in the larger one. */
    static method EmitTables(t0: Table<V>, t1: Table<V>, v: Word, m0: Word, m1: Word)
      returns (cursor: Word, out: seq<Entry<V>>)
      requires IsSize(|t0|) && IsSize(|t1|) && |t0| <= |t1| && m0 == SizeMaskOf(|t0|) && m1 == SizeMaskOf(|t1|)
      ensures out == t0[Idx(v, |t0|)] + Expansions(t1, Idx(v, |t1|), |t0|)
      ensures cursor[..Log(|t0|)] == v[..Log(|t0|)]
    {
      assert ToNat(And(v, m0)) == Idx(v, |t0|);
      out := EmitChain(t0[ToNat(And(v, m0))], []);
      cursor, out := EmitExpansions(t1, v, |t0|, m0, m1, out);
    }

    /** dictScan: the next cursor and the entries passed to the callback. */
    method Scan(v: Word) returns (next: Word, out: seq<Entry<V>>)
      requires Valid()
      ensures next == NextOf(Abs(), v) && out == Emitted(Abs(), v)
    {
      if used0 + used1 == 0 {
        return Zero(), [];
      }
      NonEmpty(Abs());
      var cursor, m0 := v, sizemask0;
      if !IsRehashing() {
        assert ToNat(And(v, m0)) == Idx(v, |table0|);
        out := EmitChain(table0[ToNat(And(v, m0))], []);
      } else if |table0| > |table1| {
        m0 := sizemask1;
        cursor, out := EmitTables(table1, table0, v, m0, sizemask0);
      } else {
        cursor, out := EmitTables(table0, table1, v, m0, sizemask1);
      }
      next := Advance(cursor, v, |Small(Abs())|, m0);
    }

    /** The reversed increment that ends dictScan. */
    static method Advance(cursor: Word, ghost v: Word, ghost n0: nat, m0: Word) returns (next: Word)
      requires IsSize(n0) && m0 == SizeMaskOf(n0) && cursor[..Log(n0)] == v[..Log(n0)]
      ensures next == NextCursor(v, m0)
    {
      NextFrom(cursor, v, n0);
      next := Rev(Or(cursor, Not(m0)));
      next := Increment(next);
      next := Rev(next);
    }
  }
}
