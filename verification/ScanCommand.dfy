/** The iteration step of scanGenericCommand in db.c: calls of dictScan until the cursor is zero or
    enough elements were collected. */
module ScanCommand {
  import opened Wrappers
  import opened Sequences
  import opened Words
  import opened DictModel
  import opened DictTable
  import opened ScanCursor
  import opened DictScan
  import opened ScanRuns

  /** The reply of a SCAN command on state s with `got` already collected. */
  ghost function Reply<V>(s: State<V>, v: Word, count: nat, got: seq<Entry<V>>): (Word, seq<Entry<V>>)
    requires Inv(s)
    decreases Pow2(WORD_BITS) - RevNat(v)
  {
    var out, n := got + Emitted(s, v), NextOf(s, v);
    if n == Zero() || |out| >= count then (n, out) else
      CursorStep(s, v);
      Reply(s, n, count, out)
  }

  method Iterate<V>(d: Dict<V>, v: Word, count: nat) returns (cursor: Word, keys: seq<Entry<V>>)
    requires d.Valid()
    ensures (cursor, keys) == Reply(d.Abs(), v, count, [])
  {
    cursor, keys := v, [];
    var more := true;
    while more
      invariant (if more then Reply(d.Abs(), cursor, count, keys) else (cursor, keys)) == Reply(d.Abs(), v, count, [])
      decreases more, Pow2(WORD_BITS) - RevNat(cursor)
    {
      ghost var c := cursor;
      var out;
      cursor, out := d.Scan(cursor);
      keys := keys + out;
      more := cursor != Zero() && |keys| < count;
      if more {
        CursorStep(d.Abs(), c);
      }
    }
  }

  /** A command whose first call is aligned returns every present key between its two cursors, and
      its own later calls are aligned. */
  lemma {:induction false} ReplyCovers<V>(s: State<V>, v: Word, count: nat, got: seq<Entry<V>>, k: Key)
    requires Inv(s) && Get(s, k).Some? && Aligned(s, v)
    requires var (n, _) := Reply(s, v, count, got); InBlock(k.hash, v, n)
    ensures var (_, out) := Reply(s, v, count, got); got <= out && Entry(k, Get(s, k).value) in out
    decreases Pow2(WORD_BITS) - RevNat(v)
  {
    var out, n := got + Emitted(s, v), NextOf(s, v);
    SizePositive(s, k);
    if InBlock(k.hash, v, n) {
      CallCovers(s, v, k);
      LookupSome(Emitted(s, v), k);
      assert Entry(k, Get(s, k).value) in out;
      ReplyExtends(s, v, count, got);
    } else {
      CursorStep(s, v);
      HalvingAligns(s, v, s);
      ReplyCovers(s, n, count, out, k);
    }
  }

  lemma {:induction false} ReplyExtends<V>(s: State<V>, v: Word, count: nat, got: seq<Entry<V>>)
    requires Inv(s)
    ensures var (_, out) := Reply(s, v, count, got); got + Emitted(s, v) <= out
    decreases Pow2(WORD_BITS) - RevNat(v)
  {
    var out, n := got + Emitted(s, v), NextOf(s, v);
    if !(n == Zero() || |out| >= count) {
      CursorStep(s, v);
      ReplyExtends(s, n, count, out);
    }
  }

  /** The cursors of the calls of dictScan that a command makes. */
  ghost function Calls<V>(s: State<V>, v: Word, count: nat, got: nat): (vs: seq<Word>)
    requires Inv(s)
    ensures vs != [] && vs[0] == v
    decreases Pow2(WORD_BITS) - RevNat(v)
  {
    var n, out := NextOf(s, v), got + |Emitted(s, v)|;
    if n == Zero() || out >= count then [v] else
      CursorStep(s, v);
      [v] + Calls(s, n, count, out)
  }

  /** Calls with these cursors end at n with this list; before every call but the first the cursor is not zero and
      fewer than count entries are there. */
  ghost predicate Stops<V>(s: State<V>, vs: seq<Word>, count: nat, got: seq<Entry<V>>, n: Word, out: seq<Entry<V>>)
    requires Inv(s) && vs != []
  {
    && (forall i :: 0 <= i < |vs| - 1 ==> vs[i + 1] == NextOf(s, vs[i]))
    && (forall i :: 0 < i < |vs| ==> vs[i] != Zero() && |got| + |Output(s, vs[..i])| < count)
    && n == NextOf(s, vs[|vs| - 1]) && out == got + Output(s, vs)
  }

  lemma ReplyLast<V>(s: State<V>, v: Word, count: nat, got: seq<Entry<V>>)
    requires Inv(s)
    requires NextOf(s, v) == Zero() || |got + Emitted(s, v)| >= count
    ensures Calls(s, v, count, |got|) == [v] && Reply(s, v, count, got) == (NextOf(s, v), got + Emitted(s, v))
    ensures Stops(s, [v], count, got, NextOf(s, v), got + Emitted(s, v))
  {
    hide Emitted, NextOf, Inv;
    OutputCons(s, v, [], got, 0);
    assert [v] + [] == [v] && [v][..1] == [v];
    OutputNone(s, []);
  }

  lemma ReplyNext<V>(s: State<V>, v: Word, count: nat, got: seq<Entry<V>>)
    requires Inv(s)
    requires NextOf(s, v) != Zero() && |got + Emitted(s, v)| < count
    ensures var n, out := NextOf(s, v), got + Emitted(s, v);
      && RevNat(v) < RevNat(n)
      && Calls(s, v, count, |got|) == [v] + Calls(s, n, count, |out|)
      && Reply(s, v, count, got) == Reply(s, n, count, out)
  {
    CursorStep(s, v);
    hide Emitted, NextOf, Inv, RevNat;
  }

  /** A command goes from cursor to cursor and replies all that its calls emit; it goes on while the cursor is not
      zero and fewer than count entries are there, and ends at cursor zero or with at least count. */
  lemma {:induction false} ReplyStops<V>(s: State<V>, v: Word, count: nat, got: seq<Entry<V>>)
    requires Inv(s)
    ensures var (n, out) := Reply(s, v, count, got);
      Stops(s, Calls(s, v, count, |got|), count, got, n, out) && (n == Zero() || |out| >= count)
    decreases Pow2(WORD_BITS) - RevNat(v)
  {
    var n, out := NextOf(s, v), got + Emitted(s, v);
    hide Emitted, NextOf, Inv, Output, Calls, Reply, Stops;
    if n == Zero() || |out| >= count {
      ReplyLast(s, v, count, got);
    } else {
      ReplyNext(s, v, count, got);
      ReplyStops(s, n, count, out);
      var ws := Calls(s, n, count, |out|);
      var (m, all) := Reply(s, n, count, out);
      StopsCons(s, v, ws, count, got, m, all);
    }
  }

  lemma StopsCons<V>(s: State<V>, v: Word, ws: seq<Word>, count: nat, got: seq<Entry<V>>, n: Word,
      out: seq<Entry<V>>)
    requires Inv(s) && ws != [] && ws[0] == NextOf(s, v) && ws[0] != Zero() && |got + Emitted(s, v)| < count
    requires Stops(s, ws, count, got + Emitted(s, v), n, out)
    ensures Stops(s, [v] + ws, count, got, n, out)
  {
    var vs := [v] + ws;
    hide Emitted, NextOf, Inv, Output;
    OutputCons(s, v, ws, got, |ws|);
    OutputNone(s, ws);
    assert vs[..|vs|] == vs && ws[..|ws|] == ws;
    forall i | 0 < i < |vs|
      ensures vs[i] != Zero() && |got| + |Output(s, vs[..i])| < count
    {
      OutputCons(s, v, ws, got, i - 1);
    }
  }

  lemma OutputNone<V>(s: State<V>, ws: seq<Word>)
    requires Inv(s)
    ensures Output(s, ws[..0]) == []
  {
  }

  /** What a call emits before what further calls emit. */
  lemma OutputCons<V>(s: State<V>, v: Word, ws: seq<Word>, got: seq<Entry<V>>, i: nat)
    requires Inv(s) && i <= |ws|
    ensures got + Output(s, ([v] + ws)[..i + 1]) == got + Emitted(s, v) + Output(s, ws[..i])
  {
    var vs := ([v] + ws)[..i + 1];
    assert vs[0] == v && vs[1..] == ws[..i];
    hide Emitted, Inv;
    assert Output(s, vs) == Emitted(s, v) + Output(s, ws[..i]);
    assert got + (Emitted(s, v) + Output(s, ws[..i])) == got + Emitted(s, v) + Output(s, ws[..i]);
  }

  // ---- a run of commands

  /** A command replies a cursor that some call of dictScan on its dictionary returned: zero, or one further on. */
  lemma {:induction false} ReplyCursor<V>(s: State<V>, v: Word, count: nat, got: seq<Entry<V>>) returns (c: Word)
    requires Inv(s)
    ensures Reply(s, v, count, got).0 == NextOf(s, c) && RevNat(v) <= RevNat(c)
    ensures NextOf(s, c) == Zero() || RevNat(v) < RevNat(NextOf(s, c))
    decreases Pow2(WORD_BITS) - RevNat(v)
  {
    var out, n := got + Emitted(s, v), NextOf(s, v);
    if n == Zero() {
      c := v;
    } else if |out| >= count {
      CursorStep(s, v);
      c := v;
    } else {
      CursorStep(s, v);
      c := ReplyCursor(s, n, count, out);
    }
  }

  /** Command i is sent on states[i] with cursors[i] and replies cursors[i + 1]; the client stops at the first zero. */
  ghost predicate IsCommandScan<V>(states: seq<State<V>>, cursors: seq<Word>, counts: seq<nat>) {
    && |states| > 0 && |cursors| == |states| + 1 && |counts| == |states|
    && cursors[0] == Zero() && cursors[|states|] == Zero()
    && (forall i :: 0 <= i < |states| ==>
          Inv(states[i]) && cursors[i + 1] == Reply(states[i], cursors[i], counts[i], []).0)
    && (forall i :: 0 < i < |states| ==> cursors[i] != Zero())
  }

  /** Command i replies key k with its value. */
  ghost predicate Replies<V>(states: seq<State<V>>, cursors: seq<Word>, counts: seq<nat>, k: Key, i: nat)
    requires i < |states| && |cursors| == |states| + 1 && |counts| == |states| && Inv(states[i])
  {
    Get(states[i], k).Some? && Entry(k, Get(states[i], k).value) in Reply(states[i], cursors[i], counts[i], []).1
  }

  /** Between commands that halve at most, every reply leaves an aligned cursor to the next. */
  lemma CommandsAligned<V>(states: seq<State<V>>, cursors: seq<Word>, counts: seq<nat>, k: Key, i: nat)
    requires IsCommandScan(states, cursors, counts) && Present(states, k) && HalvesAtMost(states) && i < |states|
    ensures Aligned(states[i], cursors[i])
  {
    SizePositive(states[i], k);
    if i > 0 {
      SizePositive(states[i - 1], k);
      var c := ReplyCursor(states[i - 1], cursors[i - 1], counts[i - 1], []);
      HalvingAligns(states[i - 1], c, states[i]);
    }
  }

  lemma {:induction false} CommandsCoverFrom<V>(states: seq<State<V>>, cursors: seq<Word>, counts: seq<nat>, k: Key,
      i: nat)
    requires IsCommandScan(states, cursors, counts) && Present(states, k) && HalvesAtMost(states) && i < |states|
    requires RevNat(cursors[i]) <= RevNat(k.hash)
    ensures exists j :: i <= j < |states| && Replies(states, cursors, counts, k, j)
    decreases |states| - i
  {
    if InBlock(k.hash, cursors[i], cursors[i + 1]) {
      CommandsAligned(states, cursors, counts, k, i);
      ReplyCovers(states[i], cursors[i], counts[i], [], k);
      assert Replies(states, cursors, counts, k, i);
    } else {
      CommandsCoverFrom(states, cursors, counts, k, i + 1);
    }
  }

  /** SCAN inherits dictScan's guarantee: whatever counts are asked for, and however the dictionary changes
      between the commands as long as it shrinks at most by half, every key present throughout is replied. */
  lemma CommandsCover<V>(states: seq<State<V>>, cursors: seq<Word>, counts: seq<nat>, k: Key)
    requires IsCommandScan(states, cursors, counts) && Present(states, k) && HalvesAtMost(states)
    ensures exists i :: 0 <= i < |states| && Replies(states, cursors, counts, k, i)
  {
    ToNatClear(Zero());
    CommandsCoverFrom(states, cursors, counts, k, 0);
  }

  // ---- a run of commands on an unchanged dictionary

  lemma {:induction false} ReplyTimes<V>(s: State<V>, v: Word, count: nat, got: seq<Entry<V>>, k: Key)
    requires Inv(s) && Size(s) != 0 && Clear(s, v)
    ensures var (n, out) := Reply(s, v, count, got);
      && Clear(s, n) && (n == Zero() || RevNat(v) < RevNat(n))
      && Times(out, k) == Times(got, k) + if InBlock(k.hash, v, n) && Get(s, k).Some? then 1 else 0
    decreases Pow2(WORD_BITS) - RevNat(v)
  {
    var out, n := got + Emitted(s, v), NextOf(s, v);
    ClearTimes(s, v, k);
    CursorStep(s, v);
    hide Emitted, NextOf, Inv, Get, Size, Clear, RevNat;
    TimesConcat(got, Emitted(s, v), k);
    if !(n == Zero() || |out| >= count) {
      ReplyTimes(s, n, count, out, k);
    }
  }

  /** All that the commands with these cursors and counts reply. */
  ghost function Replied<V>(s: State<V>, cursors: seq<Word>, counts: seq<nat>): seq<Entry<V>>
    requires Inv(s) && |cursors| == |counts|
  {
    if cursors == [] then [] else Reply(s, cursors[0], counts[0], []).1 + Replied(s, cursors[1..], counts[1..])
  }

  lemma {:induction false} RepliedFrom<V>(states: seq<State<V>>, cursors: seq<Word>, counts: seq<nat>, s: State<V>,
      k: Key, i: nat)
    requires IsCommandScan(states, cursors, counts) && Inv(s) && Size(s) != 0 && Unchanged(states, s)
    requires i < |states| && Clear(s, cursors[i])
    ensures Times(Replied(s, cursors[i..|states|], counts[i..]), k)
         == if RevNat(cursors[i]) <= RevNat(k.hash) && Get(s, k).Some? then 1 else 0
    decreases |states| - i
  {
    assert states[i] == s && cursors[i + 1] == Reply(s, cursors[i], counts[i], []).0;
    ReplyTimes(s, cursors[i], counts[i], [], k);
    var rest, restCounts := cursors[i + 1..|states|], counts[i + 1..];
    assert cursors[i..|states|][0] == cursors[i] && cursors[i..|states|][1..] == rest;
    assert counts[i..][0] == counts[i] && counts[i..][1..] == restCounts;
    hide Reply, Inv, Get, Size, Clear, RevNat;
    TimesConcat(Reply(s, cursors[i], counts[i], []).1, Replied(s, rest, restCounts), k);
    if i + 1 < |states| {
      RepliedFrom(states, cursors, counts, s, k, i + 1);
    } else {
      assert rest == [] && restCounts == [];
    }
  }

  /** SCAN commands on an unchanged dictionary, with any counts, reply every key that is in it exactly once, and no
      other. */
  lemma UnchangedCommandsOnce<V>(states: seq<State<V>>, cursors: seq<Word>, counts: seq<nat>, s: State<V>, k: Key)
    requires IsCommandScan(states, cursors, counts) && Inv(s) && Size(s) != 0 && Unchanged(states, s)
    ensures Times(Replied(s, cursors[..|states|], counts), k) == if Get(s, k).Some? then 1 else 0
  {
    NonEmpty(s);
    ToNatClear(Zero());
    assert cursors[0..|states|] == cursors[..|states|] && counts[0..] == counts;
    RepliedFrom(states, cursors, counts, s, k, 0);
  }

  // ---- the filter

  /** What the filter leaves of a flat list of items: keys, or keys each followed by its value. Only keys are
      looked at. */
  function Kept<T>(items: seq<T>, width: nat, drop: T -> bool): seq<T>
    requires width > 0
    decreases |items|
  {
    if |items| < width then items
    else (if drop(items[0]) then [] else items[..width]) + Kept(items[width..], width, drop)
  }

  method Filter<T>(list: seq<T>, paired: bool, drop: T -> bool) returns (keys: seq<T>)
    requires paired ==> |list| % 2 == 0
    ensures keys == Kept(list, if paired then 2 else 1, drop)
  {
    ghost var width := if paired then 2 else 1;
    keys := list;
    var node := 0;
    while node < |keys|
      invariant node <= |keys| && |keys[node..]| % width == 0
      invariant keys[..node] + Kept(keys[node..], width, drop) == Kept(list, width, drop)
      decreases |keys| - node
    {
      KeptNext(keys, node, width, drop);
      ghost var left, rest := keys[..node], keys[node + width..];
      ghost var item := keys[node..node + width];
      var filter := drop(keys[node]);
      if filter {
        keys := RemoveAt(keys, node);
      } else {
        node := node + 1;
      }
      if paired {
        if filter {
          keys := RemoveAt(keys, node);
        } else {
          node := node + 1;
        }
      }
      assert keys[..node] == left + (if filter then [] else item) && keys[node..] == rest;
    }
    assert keys[node..] == [] && keys[..node] == keys;
  }

  lemma KeptNext<T>(list: seq<T>, node: nat, width: nat, drop: T -> bool)
    requires 0 < width && node + width <= |list|
    ensures list[..node] + Kept(list[node..], width, drop)
         == list[..node] + (if drop(list[node]) then [] else list[node..node + width])
            + Kept(list[node + width..], width, drop)
  {
    var items := list[node..];
    assert items[..width] == list[node..node + width] && items[width..] == list[node + width..];
  }

  predicate HasItem<T(==)>(items: seq<T>, width: nat, x: seq<T>)
    requires width > 0
    decreases |items|
  {
    |items| >= width && (items[..width] == x || HasItem(items[width..], width, x))
  }

  /** The filter keeps exactly the items whose key is not to be dropped, with their values. */
  lemma {:induction false} KeptExactly<T>(items: seq<T>, width: nat, drop: T -> bool, x: seq<T>)
    requires |x| == width > 0
    ensures HasItem(Kept(items, width, drop), width, x) <==> HasItem(items, width, x) && !drop(x[0])
    decreases |items|
  {
    if |items| >= width {
      var rest := Kept(items[width..], width, drop);
      KeptExactly(items[width..], width, drop, x);
      var item := items[..width];
      assert (item + rest)[..width] == item && (item + rest)[width..] == rest && [] + rest == rest;
      assert item[0] == items[0];
    }
  }

  /** n elements are a number of items. */
  predicate Whole(n: nat, width: nat)
    requires width > 0
  {
    n == 0 || (n >= width && Whole(n - width, width))
  }

  /** The filter goes through a list from its start, */
  lemma {:induction false} KeptConcat<T>(a: seq<T>, b: seq<T>, width: nat, drop: T -> bool)
    requires width > 0 && Whole(|a|, width)
    ensures Kept(a + b, width, drop) == Kept(a, width, drop) + Kept(b, width, drop)
    decreases |a|
  {
    if |a| < width {
      assert a == [] && a + b == b;
    } else {
      assert |a + b| >= width && (a + b)[0] == a[0];
      assert (a + b)[..width] == a[..width] && (a + b)[width..] == a[width..] + b;
      KeptConcat(a[width..], b, width, drop);
    }
  }

  /** and of each item leaves all or nothing. */
  lemma KeptItem<T>(x: seq<T>, width: nat, drop: T -> bool)
    requires |x| == width > 0
    ensures Kept(x, width, drop) == if drop(x[0]) then [] else x
  {
    assert x[..width] == x && x[width..] == [];
  }

  /** The flat list that the callback makes of entries: SSCAN and SCAN list keys, HSCAN and ZSCAN keys and values. */
  function Listed<V, T>(entries: seq<Entry<V>>, cells: Entry<V> -> seq<T>): seq<T> {
    if entries == [] then [] else cells(entries[0]) + Listed(entries[1..], cells)
  }

  lemma {:induction false} ListedHas<V, T>(entries: seq<Entry<V>>, cells: Entry<V> -> seq<T>, width: nat, e: Entry<V>)
    requires width > 0 && e in entries && forall x :: x in entries ==> |cells(x)| == width
    ensures HasItem(Listed(entries, cells), width, cells(e))
    decreases |entries|
  {
    var rest := Listed(entries[1..], cells);
    var list := cells(entries[0]) + rest;
    assert list[..width] == cells(entries[0]) && list[width..] == rest;
    if e != entries[0] {
      ListedHas(entries[1..], cells, width, e);
    }
  }

  /** With a pattern and expiry: a key present throughout that no command's filter drops is in some reply, with the
      value that follows it in the list. Counts are counts of entries: where values follow, Redis doubles both. */
  lemma FilteredCover<V, T>(states: seq<State<V>>, cursors: seq<Word>, counts: seq<nat>, cells: Entry<V> -> seq<T>,
      width: nat, drops: seq<T -> bool>, k: Key)
    requires IsCommandScan(states, cursors, counts) && Present(states, k) && HalvesAtMost(states)
    requires |drops| == |states| && width > 0 && forall e :: |cells(e)| == width
    requires forall i :: 0 <= i < |states| ==> !drops[i](cells(Entry(k, Get(states[i], k).value))[0])
    ensures exists i ::
      0 <= i < |states|
      && HasItem(Kept(Listed(Reply(states[i], cursors[i], counts[i], []).1, cells), width, drops[i]), width,
           cells(Entry(k, Get(states[i], k).value)))
  {
    CommandsCover(states, cursors, counts, k);
    var i :| 0 <= i < |states| && Replies(states, cursors, counts, k, i);
    FilteredItem(Entry(k, Get(states[i], k).value), Reply(states[i], cursors[i], counts[i], []).1, cells, width,
      drops[i]);
  }

  lemma FilteredItem<V, T>(e: Entry<V>, out: seq<Entry<V>>, cells: Entry<V> -> seq<T>, width: nat, drop: T -> bool)
    requires e in out && width > 0 && (forall x :: |cells(x)| == width) && !drop(cells(e)[0])
    ensures HasItem(Kept(Listed(out, cells), width, drop), width, cells(e))
  {
    ListedHas(out, cells, width, e);
    KeptExactly(Listed(out, cells), width, drop, cells(e));
  }
}
