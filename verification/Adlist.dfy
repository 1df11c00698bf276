/** The doubly linked list. Nodes live in a memory of cells at addresses, NULL being 0, so that updates through any
    pointer are seen through every other; both chains are the same sequence of addresses, whatever operations
    came before. */
module Adlist {
  import opened Wrappers
  import opened Sequences

  datatype Cell<V> = Cell(prev: nat, next: nat, value: V)

  type Memory<V> = map<nat, Cell<V>>

  const NULL: nat := 0

  function At(s: seq<nat>, i: int): nat {
    if 0 <= i < |s| then s[i] else NULL
  }

  ghost predicate ChainedAt<V>(m: Memory<V>, s: seq<nat>, i: int)
    requires 0 <= i < |s|
  {
    s[i] != NULL && s[i] in m && m[s[i]].prev == At(s, i - 1) && m[s[i]].next == At(s, i + 1)
  }

  /** Forwards and backwards the cells follow each other as in the sequence. */
  ghost predicate Chained<V>(m: Memory<V>, s: seq<nat>) {
    Distinct(s) && forall i :: 0 <= i < |s| ==> ChainedAt(m, s, i)
  }

  ghost function ValuesOf<V>(m: Memory<V>, s: seq<nat>): (r: seq<V>)
    requires Chained(m, s)
    ensures |r| == |s|
  {
    AllNodes(m, s);
    seq(|s|, i requires 0 <= i < |s| => m[s[i]].value)
  }

  /** m1 is m with a cell at p linked in between two neighbours. */
  ghost predicate LinkedIn<V>(m: Memory<V>, m1: Memory<V>, before: nat, after: nat, p: nat, v: V) {
    && p in m1 && m1[p] == Cell(before, after, v)
    && (forall q :: q in m ==> q in m1)
    && (before != NULL && before in m ==> m1[before] == m[before].(next := p))
    && (after != NULL && after in m ==> m1[after] == m[after].(prev := p))
    && (forall q :: q in m && q != before && q != after && q != p ==> m1[q] == m[q])
  }

  lemma InsertedAt<V>(m: Memory<V>, m1: Memory<V>, s: seq<nat>, i: nat, p: nat, v: V, j: nat)
    requires Chained(m, s) && i <= |s| && p != NULL && p !in s && j <= |s|
    requires LinkedIn(m, m1, At(s, i - 1), At(s, i), p, v)
    ensures ChainedAt(m1, InsertAt(s, i, p), j)
    ensures m1[InsertAt(s, i, p)[j]].value == InsertAt(ValuesOf(m, s), i, v)[j]
  {
    var t := InsertAt(s, i, p);
    var k := if j < i then j else j - 1;
    if j != i {
      assert ChainedAt(m, s, k) && t[j] == s[k];
      assert At(t, j - 1) == if j - 1 < i then At(s, j - 1) else if j - 1 == i then p else At(s, j - 2);
      assert At(t, j + 1) == if j + 1 < i then At(s, j + 1) else if j + 1 == i then p else At(s, j);
    }
  }

  lemma InsertChained<V>(m: Memory<V>, m1: Memory<V>, s: seq<nat>, i: nat, p: nat, v: V)
    requires Chained(m, s) && i <= |s| && p != NULL && p !in s
    requires LinkedIn(m, m1, At(s, i - 1), At(s, i), p, v)
    ensures Chained(m1, InsertAt(s, i, p))
    ensures ValuesOf(m1, InsertAt(s, i, p)) == InsertAt(ValuesOf(m, s), i, v)
  {
    var t := InsertAt(s, i, p);
    assert Distinct(t);
    hide LinkedIn, ChainedAt;
    forall j | 0 <= j < |t|
      ensures ChainedAt(m1, t, j)
      ensures t[j] in m1 && m1[t[j]].value == InsertAt(ValuesOf(m, s), i, v)[j]
    {
      InsertedAt(m, m1, s, i, p, v, j);
      InMemory(m1, t, j);
    }
  }

  lemma InMemory<V>(m: Memory<V>, s: seq<nat>, i: nat)
    requires i < |s| && ChainedAt(m, s, i)
    ensures s[i] in m
  {
  }

  /** m1 is m with the neighbours of a node linked to each other, and the node gone. */
  ghost predicate LinkedOut<V>(m: Memory<V>, m1: Memory<V>, before: nat, after: nat, p: nat) {
    && (forall q :: q in m && q != p ==> q in m1)
    && (before != NULL && before in m1 && before in m ==> m1[before] == m[before].(next := after))
    && (after != NULL && after in m1 && after in m ==> m1[after] == m[after].(prev := before))
    && (forall q :: q in m && q in m1 && q != before && q != after && q != p ==> m1[q] == m[q])
  }

  /** What becomes of a node that stays. */
  lemma StaysLinked<V>(m: Memory<V>, m1: Memory<V>, s: seq<nat>, i: nat, k: nat)
    requires Chained(m, s) && i < |s| && k < |s| && k != i
    requires LinkedOut(m, m1, At(s, i - 1), At(s, i + 1), s[i])
    ensures s[k] != NULL && s[k] in m && s[k] in m1 && m1[s[k]].value == m[s[k]].value
    ensures m1[s[k]].prev == if k == i + 1 then At(s, i - 1) else At(s, k - 1)
    ensures m1[s[k]].next == if k + 1 == i then At(s, i + 1) else At(s, k + 1)
  {
    assert ChainedAt(m, s, k) && ChainedAt(m, s, i);
    assert s[k] != s[i];
    if i > 0 && k != i - 1 {
      assert s[k] != s[i - 1];
    }
    if i + 1 < |s| && k != i + 1 {
      assert s[k] != s[i + 1];
    }
    if 0 < i && i + 1 < |s| {
      assert s[i - 1] != s[i + 1];
    }
  }

  lemma RemovedAt<V>(m: Memory<V>, m1: Memory<V>, s: seq<nat>, i: nat, j: nat)
    requires Chained(m, s) && i < |s| && LinkedOut(m, m1, At(s, i - 1), At(s, i + 1), s[i]) && j < |s| - 1
    ensures ChainedAt(m1, RemoveAt(s, i), j)
    ensures m1[RemoveAt(s, i)[j]].value == RemoveAt(ValuesOf(m, s), i)[j]
  {
    var t := RemoveAt(s, i);
    var k := if j < i then j else j + 1;
    StaysLinked(m, m1, s, i, k);
    hide Chained, LinkedOut;
    assert t[j] == s[k];
    assert At(t, j - 1) == if j - 1 < i then At(s, j - 1) else At(s, j);
    assert At(t, j + 1) == if j + 1 < i then At(s, j + 1) else At(s, j + 2);
  }

  lemma RemoveChained<V>(m: Memory<V>, m1: Memory<V>, s: seq<nat>, i: nat)
    requires Chained(m, s) && i < |s| && LinkedOut(m, m1, At(s, i - 1), At(s, i + 1), s[i])
    ensures Chained(m1, RemoveAt(s, i))
    ensures ValuesOf(m1, RemoveAt(s, i)) == RemoveAt(ValuesOf(m, s), i)
  {
    var t := RemoveAt(s, i);
    assert Distinct(t);
    hide LinkedOut, ChainedAt;
    forall j | 0 <= j < |t|
      ensures ChainedAt(m1, t, j)
      ensures t[j] in m1 && m1[t[j]].value == RemoveAt(ValuesOf(m, s), i)[j]
    {
      RemovedAt(m, m1, s, i, j);
      InMemory(m1, t, j);
    }
  }

  class List<V> {
    var memory: Memory<V>
    var head: nat
    var tail: nat
    var len: nat
    ghost var nodes: seq<nat>

    ghost predicate Valid()
      reads this
    {
      head == At(nodes, 0) && tail == At(nodes, |nodes| - 1) && len == |nodes| && Chained(memory, nodes)
    }

    ghost function Values(): seq<V>
      requires Chained(memory, nodes)
      reads this
    {
      ValuesOf(memory, nodes)
    }

    constructor ()
      ensures Valid() && nodes == [] && memory == map[]
    {
      memory, head, tail, len, nodes := map[], NULL, NULL, 0, [];
    }

    method SetNext(node: nat, next: nat)
      requires node in memory
      modifies this`memory
      ensures memory == old(memory)[node := old(memory[node]).(next := next)]
    {
      memory := memory[node := memory[node].(next := next)];
    }

    method SetPrev(node: nat, prev: nat)
      requires node in memory
      modifies this`memory
      ensures memory == old(memory)[node := old(memory[node]).(prev := prev)]
    {
      memory := memory[node := memory[node].(prev := prev)];
    }

    /** What zmalloc may return: an address not in use, or NULL. */
    predicate Allocates(node: nat)
      reads this
    {
      node == NULL || node !in memory
    }

    /** listAddNodeHead; false when there is no memory. */
    method AddNodeHead(value: V, node: nat) returns (ok: bool)
      requires Valid() && Allocates(node)
      modifies this
      ensures Valid() && ok == (node != NULL)
      ensures !ok ==> unchanged(this)
      ensures ok ==> nodes == [node] + old(nodes) && Values() == [value] + old(Values())
    {
      if node == NULL {
        return false;
      }
      ghost var m, s := memory, nodes;
      Unused(m, s, node);
      if len == 0 {
        head, tail := node, node;
        memory := memory[node := Cell(NULL, NULL, value)];
      } else {
        assert ChainedAt(m, s, 0);
        memory := memory[node := Cell(NULL, head, value)];
        SetPrev(head, node);
        head := node;
      }
      len := len + 1;
      nodes := InsertAt(nodes, 0, node);
      InsertChained(m, memory, s, 0, node, value);
      InsertFirst(s, node);
      InsertFirst(old(Values()), value);
      return true;
    }

    /** listAddNodeTail. */
    method AddNodeTail(value: V, node: nat) returns (ok: bool)
      requires Valid() && Allocates(node)
      modifies this
      ensures Valid() && ok == (node != NULL)
      ensures !ok ==> unchanged(this)
      ensures ok ==> nodes == old(nodes) + [node] && Values() == old(Values()) + [value]
      ensures ok ==> memory.Keys == old(memory.Keys) + {node}
    {
      if node == NULL {
        return false;
      }
      ghost var m, s := memory, nodes;
      Unused(m, s, node);
      if len == 0 {
        head, tail := node, node;
        memory := memory[node := Cell(NULL, NULL, value)];
      } else {
        assert ChainedAt(m, s, |s| - 1);
        memory := memory[node := Cell(tail, NULL, value)];
        SetNext(tail, node);
        tail := node;
      }
      len := len + 1;
      nodes := InsertAt(nodes, |nodes|, node);
      InsertChained(m, memory, s, |s|, node, value);
      InsertLast(s, node);
      InsertLast(old(Values()), value);
      return true;
    }

    /** listInsertNode, before or after the i-th node. */
    method InsertNode(oldNode: nat, value: V, after: bool, node: nat, ghost i: nat) returns (ok: bool)
      requires Valid() && Allocates(node) && i < |nodes| && nodes[i] == oldNode
      modifies this
      ensures Valid() && ok == (node != NULL)
      ensures !ok ==> unchanged(this)
      ensures ok ==> nodes == InsertAt(old(nodes), if after then i + 1 else i, node)
      ensures ok ==> Values() == InsertAt(old(Values()), if after then i + 1 else i, value)
    {
      if node == NULL {
        return false;
      }
      ghost var m, s := memory, nodes;
      ghost var p := if after then i + 1 else i;
      Unused(m, s, node);
      Neighbours(m, s, i);
      Neighbours(m, s, p);
      var prev, next := NULL, NULL;
      if after {
        prev := oldNode;
        next := memory[oldNode].next;
        if tail == oldNode {
          tail := node;
        }
      } else {
        next := oldNode;
        prev := memory[oldNode].prev;
        if head == oldNode {
          head := node;
        }
      }
      LinkCell(node, prev, next, value);
      len := len + 1;
      nodes := InsertAt(nodes, p, node);
      InsertChained(m, memory, s, p, node, value);
      return true;
    }

    /** The new cell and its neighbours' pointers to it. */
    method LinkCell(node: nat, prev: nat, next: nat, value: V)
      requires node !in memory && node != NULL
      requires (prev == NULL || prev in memory) && (next == NULL || next in memory) && (prev == NULL || prev != next)
      modifies this`memory
      ensures LinkedIn(old(memory), memory, prev, next, node, value)
    {
      memory := memory[node := Cell(prev, next, value)];
      if prev != NULL {
        SetNext(prev, node);
      }
      if next != NULL {
        SetPrev(next, node);
      }
    }

    /** listDelNode; the cell is freed. */
    method DelNode(node: nat, ghost i: nat)
      requires Valid() && i < |nodes| && nodes[i] == node
      modifies this
      ensures Valid() && nodes == RemoveAt(old(nodes), i) && Values() == RemoveAt(old(Values()), i)
      ensures node !in memory
    {
      ghost var m, s := memory, nodes;
      Neighbours(m, s, i);
      Neighbours(m, s, i + 1);
      hide Chained, Distinct, LinkedOut;
      Bypass(node);
      RemoveChained(m, memory, s, i);
      len := len - 1;
      nodes := RemoveAt(nodes, i);
    }

    /** The neighbours' pointers, or the list's, pass the node by; its cell is freed. */
    method Bypass(node: nat)
      requires node in memory && node != NULL
      requires var c := memory[node];
        (c.prev == NULL || c.prev in memory) && (c.next == NULL || c.next in memory)
        && c.prev != node && c.next != node && (c.prev == NULL || c.prev != c.next)
      modifies this`memory, this`head, this`tail
      ensures node !in memory
      ensures var c := old(memory[node]);
        && LinkedOut(old(memory), memory, c.prev, c.next, node)
        && head == (if c.prev == NULL then c.next else old(head))
        && tail == (if c.next == NULL then c.prev else old(tail))
    {
      var cell := memory[node];
      if cell.prev != NULL {
        SetNext(cell.prev, cell.next);
      } else {
        head := cell.next;
      }
      if cell.next != NULL {
        SetPrev(cell.next, cell.prev);
      } else {
        tail := cell.prev;
      }
      memory := memory - {node};
    }

    /** listRotate: the tail becomes the head. */
    method Rotate()
      requires Valid()
      modifies this
      ensures Valid() && nodes == Rotated(old(nodes)) && Values() == Rotated(old(Values()))
      ensures |nodes| == old(|nodes|) && (|nodes| > 0 ==> nodes[0] == old(nodes[|nodes| - 1]))
      ensures forall j :: 0 < j < |nodes| ==> nodes[j] == old(nodes[..])[j - 1]
    {
      var last := tail;
      if len <= 1 {
        return;
      }
      ghost var m, s := memory, nodes;
      Neighbours(m, s, |s|);
      Neighbours(m, s, |s| - 1);
      Neighbours(m, s, 0);
      hide Chained, Distinct, Rotated, TurnedRound;
      tail := memory[last].prev;
      TurnRound(head, last, tail);
      head := last;
      nodes := Rotated(nodes);
      RotatedChained(m, memory, s);
      RotatedEnds(s);
    }

    /** The pointers at both ends. */
    method TurnRound(first: nat, last: nat, before: nat)
      requires first in memory && last in memory && before in memory && first != last && before != last
      modifies this`memory
      ensures TurnedRound(old(memory), memory, first, last, before)
    {
      SetNext(before, NULL);
      SetPrev(first, last);
      SetPrev(last, NULL);
      SetNext(last, first);
    }

    /** listIndex: negative positions count from the tail. */
    method Index(index0: int) returns (n: nat)
      requires Valid()
      ensures n == At(nodes, if index0 < 0 then |nodes| + index0 else index0)
    {
      var index := index0;
      if index < 0 {
        index := -index - 1;
        n := tail;
        ghost var at := |nodes| - 1;
        while index != 0 && n != NULL
          invariant index >= 0 && n == At(nodes, at) && at < |nodes|
          invariant at - index == |nodes| + index0
          decreases index
        {
          assert ChainedAt(memory, nodes, at);
          n := memory[n].prev;
          index, at := index - 1, at - 1;
        }
      } else {
        n := head;
        ghost var at := 0;
        while index != 0 && n != NULL
          invariant index >= 0 && n == At(nodes, at) && at >= 0
          invariant at + index == index0
          decreases index
        {
          assert ChainedAt(memory, nodes, at);
          n := memory[n].next;
          index, at := index - 1, at + 1;
        }
      }
      AllNodes(memory, nodes);
    }

    /** listSearchKey: the first node that matches, NULL if there is none. */
    method SearchKey(matches: V -> bool) returns (r: nat)
      requires Valid()
      ensures r == NULL ==> forall j :: 0 <= j < |nodes| ==> !matches(Values()[j])
      ensures r != NULL ==> exists i :: 0 <= i < |nodes| && FirstMatch(nodes, Values(), r, i, matches)
    {
      AllNodes(memory, nodes);
      var iter := new Iter(head, true);
      ghost var i := 0;
      while iter.next != NULL
        invariant iter.fromHead && fresh(iter) && 0 <= i <= |nodes| && iter.next == At(nodes, i)
        invariant forall j :: 0 <= j < i ==> !matches(Values()[j])
        decreases |nodes| - i
      {
        assert ChainedAt(memory, nodes, i);
        r := iter.Next(memory);
        if matches(memory[r].value) {
          assert FirstMatch(nodes, Values(), r, i, matches);
          return;
        }
        i := i + 1;
      }
      return NULL;
    }

    /** listDup, with the list's dup method; NULL is its failure. There may be no memory for the list (created) or
        for its i-th node (room(i)). The copy has a memory of its own. */
    method Dup(dup: V -> Option<V>, created: bool, room: nat -> bool) returns (copy: List?<V>)
      requires Valid()
      ensures copy == null <==> !created || exists i :: 0 <= i < |nodes| && !Copies(Values(), i, dup, room)
      ensures copy != null ==> fresh(copy) && copy.Valid() && |copy.nodes| == |nodes|
      ensures copy != null ==> forall i :: 0 <= i < |nodes| ==> dup(Values()[i]) == Some(copy.Values()[i])
    {
      if !created {
        return null;
      }
      copy := CopyChain(memory, head, nodes, dup, room);
      assert Values() == ValuesOf(memory, nodes);
    }

    static method CopyChain(m: Memory<V>, head: nat, ghost s: seq<nat>, dup: V -> Option<V>, room: nat -> bool)
      returns (copy: List?<V>)
      requires Chained(m, s) && head == At(s, 0)
      ensures copy == null <==> exists i :: 0 <= i < |s| && !Copies(ValuesOf(m, s), i, dup, room)
      ensures copy != null ==> fresh(copy) && copy.Valid() && |copy.nodes| == |s|
      ensures copy != null ==> forall i :: 0 <= i < |s| ==> dup(ValuesOf(m, s)[i]) == Some(copy.Values()[i])
    {
      AllNodes(m, s);
      Fresh(s);
      ghost var vs, cs: seq<V> := ValuesOf(m, s), [];
      hide Distinct, ValuesOf, ChainedAt, Addresses;
      copy := new List();
      assert copy.Values() == cs;
      var iter := new Iter(head, true);
      var i := 0;
      while iter.next != NULL
        invariant iter.fromHead && fresh(iter) && 0 <= i <= |s| && iter.next == At(s, i)
        invariant forall j :: 0 <= j < i ==> Copies(vs, j, dup, room)
        invariant fresh(copy) && copy.Valid() && |copy.nodes| == i && copy.memory.Keys == Addresses(s[..i])
        invariant copy.Values() == cs && Duped(vs, cs, i, dup)
        decreases |s| - i
      {
        hide Duped, Chained;
        var ok := CopyNext(copy, iter, m, s, i, dup, room(i));
        assert ok <==> Copies(vs, i, dup, room);
        if !ok {
          return null;
        }
        DupedNext(vs, cs, i, dup);
        cs := cs + [dup(vs[i]).value];
        i := i + 1;
      }
      assert s[..i] == s;
    }

    /** One node of the original. */
    static method CopyNext(copy: List<V>, iter: Iter, m: Memory<V>, ghost s: seq<nat>, ghost i: nat,
        dup: V -> Option<V>, room: bool)
      returns (ok: bool)
      requires Chained(m, s) && i < |s| && iter.fromHead && iter.next == s[i]
      requires copy.Valid() && |copy.nodes| == i && copy.memory.Keys == Addresses(s[..i]) && s[i] !in Addresses(s[..i])
      modifies copy, iter
      ensures iter.fromHead && iter.next == At(s, i + 1) && ok == (dup(ValuesOf(m, s)[i]).Some? && room)
      ensures ok ==> copy.Valid() && |copy.nodes| == i + 1 && copy.memory.Keys == Addresses(s[..i + 1])
      ensures ok ==> copy.Values() == old(copy.Values()) + [dup(ValuesOf(m, s)[i]).value]
    {
      Neighbours(m, s, i);
      assert ValuesOf(m, s)[i] == m[s[i]].value;
      AddressesNext(s, i);
      hide Distinct, ValuesOf, Addresses, Chained;
      var node := iter.Next(m);
      var value := dup(m[node].value);
      if value.None? {
        return false;
      }
      ok := copy.AddNodeTail(value.value, if room then node else NULL);
    }

    /** The loop that users of the list write: an iteration in which the current node may be deleted visits every
        value that was in the list, once and in order, and leaves exactly those that were not deleted. */
    method DeleteWhileIterating(fromHead: bool, drop: V -> bool) returns (visited: seq<V>)
      requires Valid()
      modifies this
      ensures visited == if fromHead then old(Values()) else Reversed(old(Values()))
      ensures Valid() && Values() == Keep(old(Values()), drop)
    {
      if fromHead {
        visited := DeleteFromHead(drop);
      } else {
        visited := DeleteFromTail(drop);
      }
    }

    method DeleteFromTail(drop: V -> bool) returns (visited: seq<V>)
      requires Valid()
      modifies this
      ensures Valid() && visited == Reversed(old(Values())) && Values() == Keep(old(Values()), drop)
    {
      visited := [];
      AllNodes(memory, nodes);
      ghost var vs := Values();
      var iter := new Iter(tail, false);
      ghost var i := |vs|;
      NothingVisited(vs, drop);
      hide Keep, Reversed, RemoveAt, Chained, ValuesOf;
      while iter.next != NULL
        invariant fresh(iter) && !iter.fromHead && Valid() && 0 <= i <= |vs| && i <= |nodes|
        invariant iter.next == At(nodes, i - 1) && (iter.next == NULL ==> i == 0)
        invariant visited == Reversed(vs[i..]) && Values() == vs[..i] + Keep(vs[i..], drop)
        decreases i
      {
        KeepBefore(Values(), vs, i, drop);
        var x := VisitBack(iter, i, drop);
        visited := visited + [x];
        i := i - 1;
      }
      assert vs[i..] == vs && vs[..i] + Keep(vs, drop) == Keep(vs, drop);
    }

    /** One turn of the loop, at the node before place i. */
    method VisitBack(iter: Iter, ghost i: nat, drop: V -> bool) returns (x: V)
      requires Valid() && !iter.fromHead && 0 < i <= |nodes| && iter.next == nodes[i - 1]
      modifies this, iter
      ensures Valid() && !iter.fromHead && i - 1 <= |nodes| && iter.next == At(nodes, i - 2)
      ensures iter.next == NULL ==> i == 1
      ensures x == old(Values()[i - 1])
      ensures Values() == if drop(x) then RemoveAt(old(Values()), i - 1) else old(Values())
    {
      Neighbours(memory, nodes, i - 1);
      assert Values()[i - 1] == memory[nodes[i - 1]].value;
      hide Distinct, ValuesOf;
      var node := iter.Next(memory);
      x := memory[node].value;
      if drop(x) {
        DelNode(node, i - 1);
      }
    }

    method DeleteFromHead(drop: V -> bool) returns (visited: seq<V>)
      requires Valid()
      modifies this
      ensures Valid() && visited == old(Values()) && Values() == Keep(visited, drop)
    {
      visited := [];
      AllNodes(memory, nodes);
      ghost var vs := Values();
      var iter := new Iter(head, true);
      ghost var i, k := 0, 0;
      while iter.next != NULL
        invariant fresh(iter) && iter.fromHead && Valid() && 0 <= i <= |vs| && 0 <= k <= |nodes|
        invariant iter.next == At(nodes, k) && i + |nodes| - k == |vs|
        invariant visited == vs[..i] && Values() == Keep(vs[..i], drop) + vs[i..] && k == |Keep(vs[..i], drop)|
        decreases |vs| - i
      {
        assert ChainedAt(memory, nodes, k);
        var node := iter.Next(memory);
        KeepNext(Values(), vs, i, drop);
        assert memory[node].value == Values()[k] == vs[i];
        visited := visited + [memory[node].value];
        if drop(memory[node].value) {
          DelNode(node, k);
        } else {
          k := k + 1;
        }
        i := i + 1;
      }
      AllNodes(memory, nodes);
      assert vs[..i] == vs && vs[i..] == [];
    }
  }

  function Addresses(s: seq<nat>): set<nat> {
    set q | q in s
  }

  lemma AddressesNext(s: seq<nat>, i: nat)
    requires i < |s|
    ensures Addresses(s[..i + 1]) == Addresses(s[..i]) + {s[i]}
  {
    assert s[..i + 1] == s[..i] + [s[i]];
  }

  lemma Fresh(s: seq<nat>)
    requires Distinct(s)
    ensures forall i :: 0 <= i < |s| ==> s[i] !in Addresses(s[..i])
    ensures Addresses(s[..0]) == {}
  {
  }

  /** The first i values have been duplicated. */
  ghost predicate Duped<V>(vs: seq<V>, cs: seq<V>, i: nat, dup: V -> Option<V>) {
    i <= |vs| && |cs| == i && forall j :: 0 <= j < i ==> dup(vs[j]) == Some(cs[j])
  }

  lemma DupedNext<V>(vs: seq<V>, cs: seq<V>, i: nat, dup: V -> Option<V>)
    requires i < |vs| && Duped(vs, cs, i, dup) && dup(vs[i]).Some?
    ensures Duped(vs, cs + [dup(vs[i]).value], i + 1, dup)
  {
  }

  /** The i-th value is duplicated, and there is memory for its node. */
  predicate Copies<V>(vs: seq<V>, i: nat, dup: V -> Option<V>, room: nat -> bool)
    requires i < |vs|
  {
    dup(vs[i]).Some? && room(i)
  }

  function Reversed<T>(s: seq<T>): seq<T> {
    seq(|s|, i requires 0 <= i < |s| => s[|s| - 1 - i])
  }

  /** The i-th node is r, its value matches and no earlier one does. */
  ghost predicate FirstMatch<V>(s: seq<nat>, vs: seq<V>, r: nat, i: nat, matches: V -> bool)
    requires i < |s| == |vs|
  {
    s[i] == r && matches(vs[i]) && forall j :: 0 <= j < i ==> !matches(vs[j])
  }

  function Keep<V>(vs: seq<V>, drop: V -> bool): seq<V> {
    if vs == [] then [] else (if drop(vs[0]) then [] else [vs[0]]) + Keep(vs[1..], drop)
  }

  lemma KeepOne<V>(v: V, drop: V -> bool)
    ensures Keep([v], drop) == if drop(v) then [] else [v]
  {
    assert [v][1..] == [];
  }

  lemma {:induction false} KeepConcat<V>(a: seq<V>, b: seq<V>, drop: V -> bool)
    ensures Keep(a + b, drop) == Keep(a, drop) + Keep(b, drop)
    decreases |a|
  {
    if a == [] {
      assert a + b == b;
    } else {
      assert (a + b)[1..] == a[1..] + b;
      KeepConcat(a[1..], b, drop);
    }
  }

  /** What is left when the i-th value has been visited. */
  lemma KeepNext<V>(now: seq<V>, vs: seq<V>, i: nat, drop: V -> bool)
    requires i < |vs| && now == Keep(vs[..i], drop) + vs[i..]
    ensures var k := |Keep(vs[..i], drop)|;
      && now[k] == vs[i]
      && (drop(vs[i]) ==> RemoveAt(now, k) == Keep(vs[..i + 1], drop) + vs[i + 1..] && |Keep(vs[..i + 1], drop)| == k)
      && (!drop(vs[i]) ==> now == Keep(vs[..i + 1], drop) + vs[i + 1..] && |Keep(vs[..i + 1], drop)| == k + 1)
    ensures vs[..i + 1] == vs[..i] + [vs[i]]
  {
    assert vs[..i + 1] == vs[..i] + [vs[i]];
    KeepConcat(vs[..i], [vs[i]], drop);
    assert [vs[i]][1..] == [];
    assert vs[i..] == [vs[i]] + vs[i + 1..];
  }

  /** What is left when the values from the i-th on, and the one before, have been visited. */
  lemma KeepBefore<V>(now: seq<V>, vs: seq<V>, i: nat, drop: V -> bool)
    requires 0 < i <= |vs| && now == vs[..i] + Keep(vs[i..], drop)
    ensures now[i - 1] == vs[i - 1]
    ensures vs[..i - 1] + Keep(vs[i - 1..], drop) == if drop(vs[i - 1]) then RemoveAt(now, i - 1) else now
    ensures Reversed(vs[i - 1..]) == Reversed(vs[i..]) + [vs[i - 1]]
  {
    var x, kept := vs[i - 1], Keep(vs[i..], drop);
    assert vs[i - 1..][0] == x && vs[i - 1..][1..] == vs[i..];
    assert Keep(vs[i - 1..], drop) == (if drop(x) then [] else [x]) + kept;
    ReversedNext(vs, i);
    hide Keep, Reversed;
    assert vs[..i] == vs[..i - 1] + [x];
    assert vs[..i - 1] + ([x] + kept) == vs[..i - 1] + [x] + kept;
    assert vs[..i - 1] + ([] + kept) == vs[..i - 1] + kept;
  }

  lemma NothingVisited<V>(vs: seq<V>, drop: V -> bool)
    ensures var i := |vs|; vs[..i] + Keep(vs[i..], drop) == vs && Reversed(vs[i..]) == []
  {
    assert vs[|vs|..] == [];
  }

  lemma ReversedNext<T>(s: seq<T>, i: nat)
    requires 0 < i <= |s|
    ensures Reversed(s[i - 1..]) == Reversed(s[i..]) + [s[i - 1]]
  {
  }

  function Rotated<T>(s: seq<T>): seq<T> {
    if |s| <= 1 then s else [s[|s| - 1]] + s[..|s| - 1]
  }

  lemma RotatedEnds(s: seq<nat>)
    requires |s| > 1
    ensures var t := Rotated(s); |t| == |s| && t[0] == s[|s| - 1] && t[|s| - 1] == s[|s| - 2]
    ensures forall j :: 0 < j < |s| ==> Rotated(s)[j] == s[j - 1]
  {
  }

  /** m1 is m with the last node made the first. */
  ghost predicate TurnedRound<V>(m: Memory<V>, m1: Memory<V>, first: nat, last: nat, before: nat) {
    && m.Keys == m1.Keys && last in m && first in m && before in m
    && m1[last] == m[last].(prev := NULL, next := first)
    && (first == before ==> m1[first] == m[first].(prev := last, next := NULL))
    && (first != before ==> m1[first] == m[first].(prev := last) && m1[before] == m[before].(next := NULL))
    && (forall q :: q in m && q != first && q != last && q != before ==> m1[q] == m[q])
  }

  lemma RotatedAt<V>(m: Memory<V>, m1: Memory<V>, s: seq<nat>, j: nat)
    requires Chained(m, s) && |s| > 1 && TurnedRound(m, m1, s[0], s[|s| - 1], s[|s| - 2]) && j < |s|
    ensures ChainedAt(m1, Rotated(s), j) && m1[Rotated(s)[j]].value == Rotated(ValuesOf(m, s))[j]
  {
    var n := |s| - 1;
    var t := Rotated(s);
    var k := if j == 0 then n else j - 1;
    assert ChainedAt(m, s, k) && t[j] == s[k];
    assert ChainedAt(m, s, n);
    assert At(t, j + 1) == if j == n then NULL else s[j];
    assert At(t, j - 1) == if j == 0 then NULL else if j == 1 then s[n] else s[j - 2];
  }

  lemma RotatedChained<V>(m: Memory<V>, m1: Memory<V>, s: seq<nat>)
    requires Chained(m, s) && |s| > 1 && TurnedRound(m, m1, s[0], s[|s| - 1], s[|s| - 2])
    ensures Chained(m1, Rotated(s)) && ValuesOf(m1, Rotated(s)) == Rotated(ValuesOf(m, s))
  {
    var t := Rotated(s);
    assert Distinct(t);
    hide TurnedRound, ChainedAt;
    forall j | 0 <= j < |t|
      ensures ChainedAt(m1, t, j)
      ensures t[j] in m1 && m1[t[j]].value == Rotated(ValuesOf(m, s))[j]
    {
      RotatedAt(m, m1, s, j);
      InMemory(m1, t, j);
    }
  }

  lemma InsertFirst<T>(s: seq<T>, x: T)
    ensures InsertAt(s, 0, x) == [x] + s
  {
  }

  lemma InsertLast<T>(s: seq<T>, x: T)
    ensures InsertAt(s, |s|, x) == s + [x]
  {
  }

  lemma Unused<V>(m: Memory<V>, s: seq<nat>, p: nat)
    requires Chained(m, s) && p !in m
    ensures p !in s
  {
    AllNodes(m, s);
  }

  lemma AllNodes<V>(m: Memory<V>, s: seq<nat>)
    requires Chained(m, s)
    ensures forall i :: 0 <= i < |s| ==> s[i] != NULL && s[i] in m
  {
    forall i | 0 <= i < |s|
      ensures s[i] != NULL && s[i] in m
    {
      assert ChainedAt(m, s, i);
    }
  }

  /** The nodes next to a place are cells, and not the same one. */
  lemma Neighbours<V>(m: Memory<V>, s: seq<nat>, i: nat)
    requires Chained(m, s) && i <= |s|
    ensures i < |s| ==> ChainedAt(m, s, i)
    ensures 0 < i ==> ChainedAt(m, s, i - 1)
    ensures 0 < i < |s| ==> s[i - 1] != s[i]
    ensures 0 < i && i + 1 < |s| ==> s[i - 1] != s[i + 1]
  {
  }

  /** An iterator reads the next node before it hands out the current one. */
  class Iter {
    var next: nat
    var fromHead: bool

    constructor (next: nat, fromHead: bool)
      ensures this.next == next && this.fromHead == fromHead
    {
      this.next, this.fromHead := next, fromHead;
    }

    /** listNext. */
    method Next<V>(memory: Memory<V>) returns (current: nat)
      requires next != NULL ==> next in memory
      modifies this
      ensures current == old(next) && fromHead == old(fromHead)
      ensures current == NULL ==> next == NULL
      ensures current != NULL ==> next == if fromHead then memory[current].next else memory[current].prev
    {
      current := next;
      if current != NULL {
        next := if fromHead then memory[current].next else memory[current].prev;
      }
    }
  }
}
