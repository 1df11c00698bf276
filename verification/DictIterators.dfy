/** The dictIterator of dict.c, safe flavour. */
module DictIterators {
  import opened Wrappers
  import opened DictModel
  import opened DictTable
  import opened IteratorModel

  class SafeIterator<V> {
    const d: Dict<V>
    var table: nat
    var index: int
    var entry: Option<Key>
    var nextEntry: Option<Key>

    ghost function Abs(): Iter
      reads this
    {
      Iter(table, index, entry, nextEntry)
    }

    predicate Started(): (r: bool)
      reads this
      ensures r == IteratorModel.Started(Abs())
    {
      !(index == -1 && table == 0)
    }

    /** dictGetSafeIterator. */
    constructor (d: Dict<V>)
      ensures this.d == d && Abs() == FRESH
    {
      this.d := d;
      table, index, entry, nextEntry := 0, -1, None, None;
    }

    /** dictNext. The first call counts the iterator among those that pause rehashing. */
    method Next() returns (r: Option<Entry<V>>)
      requires d.Valid() && IterOk(d.Abs(), Abs())
      modifies this`table, this`index, this`entry, this`nextEntry, d`iterators
      ensures d.Valid()
      ensures d.Abs() == old(d.Abs()).(iterators := old(d.iterators) + if old(Started()) then 0 else 1)
      ensures (Abs(), r) == IteratorModel.Next(old(d.Abs()), old(Abs()))
    {
      hide IteratorModel.Next, TableOk, Disjoint, Used;
      ghost var s := d.Abs();
      if !Started() {
        d.iterators := d.iterators + 1;
      }
      r := Advance(s);
    }

    /** The loop of dictNext. */
    method Advance(ghost s: State<V>) returns (r: Option<Entry<V>>)
      requires IterOk(s, Abs()) && s == d.Abs().(iterators := s.iterators)
      modifies this`table, this`index, this`entry, this`nextEntry
      ensures (Abs(), r) == IteratorModel.Next(s, old(Abs()))
    {
      ghost var it0 := Abs();
      assert s.Rehashing() ==> s.t1 != [];
      hide Inv, Lookup, IteratorModel.Next;
      while true
        invariant IterOk(s, Abs())
        invariant IteratorModel.Next(s, Abs()) == IteratorModel.Next(s, it0)
        decreases 1 - table, |TableOf(s, table)| - index, entry.Some?
      {
        var done;
        if entry.Some? {
          done, r := FollowChain(s);
        } else {
          done, r := NextBucket(s);
        }
        if done {
          return;
        }
      }
    }

    /** An iteration of the loop inside a chain; done when there is a next entry. */
    method FollowChain(ghost s: State<V>) returns (done: bool, r: Option<Entry<V>>)
      requires IterOk(s, Abs()) && s == d.Abs().(iterators := s.iterators) && entry.Some?
      modifies this`entry, this`nextEntry
      ensures done ==> (Abs(), r) == IteratorModel.Next(s, old(Abs()))
      ensures !done ==> IterOk(s, Abs()) && entry == None
      ensures !done ==> IteratorModel.Next(s, Abs()) == IteratorModel.Next(s, old(Abs()))
    {
      hide Inv, Lookup;
      var ht: Table<V> := if table == 0 then d.table0 else d.table1;
      entry := nextEntry;
      if entry.Some? {
        PosBound(ht[index], entry.value);
        var i := Locate(ht[index], entry.value);
        nextEntry := KeyAt(ht[index], i + 1);
        return true, Some(ht[index][i]);
      }
      return false, None;
    }

    /** An iteration of the loop between chains; done when the bucket is not empty, or there is none. */
    method NextBucket(ghost s: State<V>) returns (done: bool, r: Option<Entry<V>>)
      requires IterOk(s, Abs()) && s == d.Abs().(iterators := s.iterators) && entry == None
      requires s.Rehashing() ==> s.t1 != []
      modifies this`table, this`index, this`entry, this`nextEntry
      ensures done ==> (Abs(), r) == IteratorModel.Next(s, old(Abs()))
      ensures !done ==> IterOk(s, Abs()) && entry == None
      ensures !done ==> IteratorModel.Next(s, Abs()) == IteratorModel.Next(s, old(Abs()))
      ensures !done ==> table > old(table) || (table == old(table) && old(index) < index < |TableOf(s, table)|)
    {
      hide Inv, Lookup;
      var ht: Table<V> := if table == 0 then d.table0 else d.table1;
      index := index + 1;
      if index >= |ht| {
        if !(d.IsRehashing() && table == 0) {
          return true, None;
        }
        table, index := table + 1, 0;
        ht := d.table1;
      }
      if ht[index] != [] {
        entry := Some(ht[index][0].key);
        nextEntry := KeyAt(ht[index], 1);
        return true, Some(ht[index][0]);
      }
      return false, None;
    }

    /** Follows a pointer to an entry of a chain. */
    static method Locate(c: Chain<V>, k: Key) returns (i: nat)
      requires Lookup(c, k).Some?
      ensures i == Pos(c, k) < |c|
    {
      PosBound(c, k);
      i := 0;
      while c[i].key != k
        invariant i < |c| && Pos(c, k) == i + Pos(c[i..], k)
        decreases |c| - i
      {
        i := i + 1;
      }
    }

    /** dictReleaseIterator. */
    method Release()
      requires d.Valid() && (Started() ==> d.iterators > 0)
      modifies d`iterators
      ensures d.Valid()
      ensures d.Abs() == old(d.Abs()).(iterators := old(d.iterators) - if Started() then 1 else 0)
    {
      if Started() {
        d.iterators := d.iterators - 1;
      }
    }
  }
}
