/** The clients' lists of watched keys and the databases' lists of watching clients, kept as mirror images. */
module WatchIndex {
  import opened Sequences
  import opened WatchHistory

  datatype Command =
    | Writes(effects: seq<Effect>)
    | UnwatchCommand

  /** What a command does to the keys: one is modified and exists afterwards or not, or databases are flushed
      (-1 is all of them). */
  datatype Effect = Modified(key: WKey, stays: bool) | Flushed(db: int)

  /** The parts of a client that MULTI and WATCH use. */
  datatype Client = Client(
    db: nat,
    watched: seq<WKey>,
    multi: bool,
    dirtyCas: bool,
    dirtyExec: bool,
    queue: seq<Command>)

  type Clients = map<nat, Client>
  type Index = map<WKey, seq<nat>>

  ghost predicate Lists(clients: Clients, index: Index, c: nat, k: WKey) {
    (c in clients && k in clients[c].watched) <==> (k in index && c in index[k])
  }

  /** The two directions agree, and neither lists anything twice. */
  ghost predicate Linked(clients: Clients, index: Index) {
    && (forall c :: c in clients ==> Distinct(clients[c].watched))
    && (forall k :: k in index ==> index[k] != [] && Distinct(index[k]))
    && (forall c, k :: Lists(clients, index, c, k))
  }

  function AddWatcher(index: Index, k: WKey, c: nat): Index {
    index[k := (if k in index then index[k] else []) + [c]]
  }

  lemma LinkedAdd(clients: Clients, index: Index, c: nat, k: WKey)
    requires Linked(clients, index) && c in clients && k !in clients[c].watched
    ensures Linked(clients[c := clients[c].(watched := clients[c].watched + [k])], AddWatcher(index, k, c))
  {
    var clients1 := clients[c := clients[c].(watched := clients[c].watched + [k])];
    var index1 := AddWatcher(index, k, c);
    assert Lists(clients, index, c, k);
    forall d, j
      ensures Lists(clients1, index1, d, j)
    {
      assert Lists(clients, index, d, j);
    }
  }

  function Without<T(==)>(s: seq<T>, x: T): seq<T> {
    if s == [] then [] else if s[0] == x then s[1..] else [s[0]] + Without(s[1..], x)
  }

  lemma {:induction false} WithoutIs<T>(s: seq<T>, x: T)
    requires Distinct(s)
    ensures Distinct(Without(s, x)) && forall y :: y in Without(s, x) <==> y in s && y != x
  {
    if s != [] {
      assert forall y :: y in s <==> y == s[0] || y in s[1..];
      assert s[0] !in s[1..];
      if s[0] != x {
        WithoutIs(s[1..], x);
        var t := Without(s[1..], x);
        assert Without(s, x) == [s[0]] + t;
        assert forall y :: y in [s[0]] + t <==> y == s[0] || y in t;
      }
    }
  }

  function DropWatcher(index: Index, k: WKey, c: nat): Index
    requires k in index
  {
    var l := Without(index[k], c);
    if l == [] then index - {k} else index[k := l]
  }

  /** Taking a client's first watched key from both sides. */
  lemma LinkedDrop(clients: Clients, index: Index, c: nat)
    requires Linked(clients, index) && c in clients && clients[c].watched != []
    ensures var k := clients[c].watched[0];
      && k in index && c in index[k]
      && Linked(clients[c := clients[c].(watched := clients[c].watched[1..])], DropWatcher(index, k, c))
  {
    var k := clients[c].watched[0];
    assert Lists(clients, index, c, k);
    var clients1 := clients[c := clients[c].(watched := clients[c].watched[1..])];
    var index1 := DropWatcher(index, k, c);
    WithoutIs(index[k], c);
    assert clients1[c].watched == clients[c].watched[1..];
    assert k !in clients1[c].watched;
    forall d, j
      ensures Lists(clients1, index1, d, j)
    {
      assert Lists(clients, index, d, j);
      assert j in clients[c].watched <==> j == k || j in clients1[c].watched;
      hide Without;
    }
    hide Without;
  }
}
