/** Loading a rewritten log rebuilds the dataset: every unexpired key, its value and its expiry, in every
    database. */
module AofRebuild {
  import opened Wrappers
  import opened Sequences
  import opened AofFormat
  import opened AofCommands
  import opened AofReplay
  import opened AofRewrite

  // ---- pushing in pieces

  lemma {:induction false} PutScoresAppend(m: map<string, string>, a: seq<string>, b: seq<string>)
    requires |a| % 2 == 0
    ensures PutScores(m, a + b) == PutScores(PutScores(m, a), b)
    decreases |a|
  {
    if a == [] {
      assert a + b == b;
    } else {
      assert (a + b)[2..] == a[2..] + b;
      PutScoresAppend(m[a[1] := a[0]], a[2..], b);
    }
  }

  lemma {:induction false} PutFieldsAppend(m: map<string, string>, a: seq<string>, b: seq<string>)
    requires |a| % 2 == 0
    ensures PutFields(m, a + b) == PutFields(PutFields(m, a), b)
    decreases |a|
  {
    if a == [] {
      assert a + b == b;
    } else {
      assert (a + b)[2..] == a[2..] + b;
      PutFieldsAppend(m[a[0] := a[1]], a[2..], b);
    }
  }

  lemma GrowAppend(verb: Verb, v: Option<Value>, a: seq<string>, b: seq<string>)
    requires verb in {ZAdd, HMSet} ==> |a| % 2 == 0
    requires Grow(verb, v, a).Some?
    ensures Grow(verb, Grow(verb, v, a), b) == Grow(verb, v, a + b)
  {
    match verb
    case RPush =>
      if v.Some? {
        assert v.value.items + a + b == v.value.items + (a + b);
      }
    case SAdd =>
      assert (set x | x in a + b) == (set x | x in a) + set x | x in b;
      if v.Some? {
        var m := v.value.members;
        assert m + (set x | x in a) + (set x | x in b) == m + ((set x | x in a) + set x | x in b);
      }
    case ZAdd =>
      PutScoresAppend(if v.Some? then v.value.scores else map[], a, b);
    case HMSet =>
      PutFieldsAppend(if v.Some? then v.value.fields else map[], a, b);
    case _ =>
  }

  // ---- what the items of a collection rebuild

  lemma {:induction false} FlatSingles(xs: seq<string>)
    ensures Flat(Singles(xs)) == xs
    decreases |xs|
  {
    if xs != [] {
      assert Singles(xs)[1..] == Singles(xs[1..]);
      FlatSingles(xs[1..]);
    }
  }

  ghost predicate Overlaid(m: map<string, string>, xs: seq<string>, from: map<string, string>,
      to: map<string, string>)
  {
    && (forall k :: k in to <==> k in m || k in xs)
    && (forall k | k in to && k in xs :: k in from && to[k] == from[k])
    && (forall k | k in to && k !in xs :: to[k] == m[k])
  }

  lemma {:induction false} FlatScores(m: map<string, string>, xs: seq<string>, from: map<string, string>)
    requires forall x :: x in xs ==> x in from
    ensures Overlaid(m, xs, from, PutScores(m, Flat(Pairs(xs, from, true))))
    decreases |xs|
  {
    if xs != [] {
      var x := xs[0];
      var pairs := Pairs(xs, from, true);
      assert pairs[1..] == Pairs(xs[1..], from, true) && pairs[0] == [from[x], x];
      var args := Flat(pairs);
      assert args[0] == from[x] && args[1] == x && args[2..] == Flat(pairs[1..]);
      FlatScores(m[x := from[x]], xs[1..], from);
      assert forall k :: k in xs <==> k == x || k in xs[1..];
    }
  }

  lemma {:induction false} FlatFields(m: map<string, string>, xs: seq<string>, from: map<string, string>)
    requires forall x :: x in xs ==> x in from
    ensures Overlaid(m, xs, from, PutFields(m, Flat(Pairs(xs, from, false))))
    decreases |xs|
  {
    if xs != [] {
      var x := xs[0];
      var pairs := Pairs(xs, from, false);
      assert pairs[1..] == Pairs(xs[1..], from, false) && pairs[0] == [x, from[x]];
      var args := Flat(pairs);
      assert args[0] == x && args[1] == from[x] && args[2..] == Flat(pairs[1..]);
      FlatFields(m[x := from[x]], xs[1..], from);
      assert forall k :: k in xs <==> k == x || k in xs[1..];
    }
  }

  lemma OverlaidAll(xs: seq<string>, from: map<string, string>, to: map<string, string>)
    requires (set x | x in xs) == from.Keys && Overlaid(map[], xs, from, to)
    ensures to == from
  {
    forall k
      ensures k in to <==> k in from
      ensures k in to ==> to[k] == from[k]
    {
      assert k in from.Keys <==> k in xs;
    }
    assert to.Keys == from.Keys;
  }

  function GrowVerb(v: Value): Verb
    requires !v.Str?
  {
    match v
    case ListV(_) => RPush
    case SetV(_) => SAdd
    case ZSetV(_) => ZAdd
    case HashV(_) => HMSet
  }

  /** Pushing all of a collection's items on nothing gives the collection. */
  lemma GroupsRebuild(v: Value, k: string, o: Order)
    requires !v.Str? && MembersOk(v, k, o)
    ensures Grow(GrowVerb(v), None, Flat(Groups(v, k, o))) == Some(v)
  {
    match v
    case ListV(items) => FlatSingles(items);
    case SetV(_) => FlatSingles(o.members[k]);
    case ZSetV(scores) =>
      FlatScores(map[], o.members[k], scores);
      OverlaidAll(o.members[k], scores, PutScores(map[], Flat(Groups(v, k, o))));
    case HashV(fields) =>
      FlatFields(map[], o.members[k], fields);
      OverlaidAll(o.members[k], fields, PutFields(map[], Flat(Groups(v, k, o))));
  }

  // ---- executing the commands of one key

  function Current(db: Db, k: string): Option<Value> {
    if k in db then Some(db[k].val) else None
  }

  function Expiry(db: Db, k: string): int {
    if k in db then db[k].expire else NO_EXPIRE
  }

  /** The session after a value is stored at a key, with the expiry the key had. */
  function Stores(s: Session, k: string, v: Value): (r: Session)
    requires Selected(s)
    ensures Selected(r) && r.sel == s.sel && |r.data| == |s.data|
  {
    var db := s.data[s.sel];
    Session(s.data[s.sel := db[k := Item(v, Expiry(db, k))]], s.sel)
  }

  lemma StoresTwice(s: Session, k: string, v: Value, w: Value)
    requires Selected(s)
    ensures Stores(Stores(s, k, v), k, w) == Stores(s, k, w)
    ensures Current(Stores(s, k, v).data[s.sel], k) == Some(v)
  {
    var db := s.data[s.sel];
    var s1 := Stores(s, k, v);
    assert s1.data[s.sel][k := Item(w, Expiry(db, k))] == db[k := Item(w, Expiry(db, k))];
    assert s1.data[s.sel := db[k := Item(w, Expiry(db, k))]] == s.data[s.sel := db[k := Item(w, Expiry(db, k))]];
  }

  predicate Pushes(verb: Verb, width: nat) {
    (verb in {RPush, SAdd} && width == 1) || (verb in {ZAdd, HMSet} && width == 2)
  }

  lemma ApplyGrow(others: Others, s: Session, name: string, k: string, args: seq<string>, width: nat, v: Value,
      load: nat)
    requires Selected(s) && Pushes(VerbOf(name), width) && args != [] && |args| % width == 0
    requires Grow(VerbOf(name), Current(s.data[s.sel], k), args) == Some(v)
    ensures Apply(others, s, [name, k] + args, load) == Some(Stores(s, k, v))
  {
    var argv := [name, k] + args;
    assert argv[2..] == args;
    hide VerbOf, Grow;
    assert Modelled(argv);
    var e := RunDb(others, s.data[s.sel], argv, load, true);
    assert e.db == s.data[s.sel][k := Item(v, Expiry(s.data[s.sel], k))];
  }

  lemma {:induction false} FlatConcat(a: seq<seq<string>>, b: seq<seq<string>>)
    ensures Flat(a + b) == Flat(a) + Flat(b)
  {
    if a == [] {
      assert a + b == b;
    } else {
      assert (a + b)[1..] == a[1..] + b;
      FlatConcat(a[1..], b);
    }
  }

  lemma GrowTyped(verb: Verb, v: Option<Value>, a: seq<string>, b: seq<string>)
    ensures Grow(verb, v, a).Some? <==> Grow(verb, v, b).Some?
  {
  }

  lemma SplitArgs(groups: seq<seq<string>>, c: nat, width: nat)
    requires Wide(groups, width) && 0 < c <= |groups| && width > 0
    ensures Flat(groups) == Flat(groups[..c]) + Flat(groups[c..])
    ensures Flat(groups[..c]) != [] && |Flat(groups[..c])| == c * width && Wide(groups[c..], width)
  {
    assert groups[..c] + groups[c..] == groups;
    FlatConcat(groups[..c], groups[c..]);
    FlatLength(groups[..c], width);
    assert c * width > 0;
  }

  /** However a collection is cut into commands, executing them in turn stores what one command would. */
  lemma {:induction false} ChunksRebuild(others: Others, s: Session, name: string, k: string,
      groups: seq<seq<string>>, width: nat, v: Value, load: nat)
    requires Selected(s) && groups != [] && Wide(groups, width) && Pushes(VerbOf(name), width)
    requires Grow(VerbOf(name), Current(s.data[s.sel], k), Flat(groups)) == Some(v)
    ensures ApplyAll(others, s, Chunks(name, k, groups), load) == Some(Stores(s, k, v))
    decreases |groups|
  {
    var verb, cur := VerbOf(name), Current(s.data[s.sel], k);
    var c := Min(ITEMS_PER_CMD, |groups|);
    SplitArgs(groups, c, width);
    var args, rest := Flat(groups[..c]), groups[c..];
    GrowTyped(verb, cur, args, Flat(groups));
    assert |args| % width == 0;
    var v1 := Grow(verb, cur, args).value;
    assert Chunks(name, k, groups) == [[name, k] + args] + Chunks(name, k, rest);
    GrowAppend(verb, cur, args, Flat(rest));
    assert rest == [] ==> Flat(rest) == [] && args + Flat(rest) == args && Chunks(name, k, rest) == [];
    StoresTwice(s, k, v1, v);
    hide VerbOf, Grow, Chunks, Flat, Stores, Apply, Wide;
    ApplyGrow(others, s, name, k, args, width, v1, load);
    var s1 := Stores(s, k, v1);
    ApplyFirst(others, s, [name, k] + args, Chunks(name, k, rest), load);
    if rest != [] {
      ChunksRebuild(others, s1, name, k, rest, width, v, load);
    }
  }

  function Puts(s: Session, db: Db): (r: Session)
    requires Selected(s)
    ensures Selected(r) && r.sel == s.sel && |r.data| == |s.data| && r.data[r.sel] == db
  {
    Session(s.data[s.sel := db], s.sel)
  }

  lemma ObjectRebuild(others: Others, s: Session, k: string, v: Value, o: Order, load: nat)
    requires Selected(s) && k !in s.data[s.sel] && MembersOk(v, k, o)
    ensures ApplyAll(others, s, ObjectCommands(k, v, o), load) == Some(Puts(s, s.data[s.sel][k := Item(v, NO_EXPIRE)]))
  {
    if v.Str? {
      hide VerbOf, Apply;
      ApplySet(others, s, k, v.text, load);
    } else {
      GroupsRebuild(v, k, o);
      GroupsShape(v, k, o);
      assert VerbOf(NameFor(v)) == GrowVerb(v) by {
        LoggedVerbs();
      }
      assert Size(v) > 0 by {
        assert v.ListV? || exists x :: x in Members(v);
      }
      hide VerbOf, ApplyAll, Grow, Groups, Flat, Chunks, MembersOk;
      ChunksRebuild(others, s, NameFor(v), k, Groups(v, k, o), Width(v), v, load);
    }
  }

  /** One key's commands give it its value and its expiry, if it is not past it. */
  lemma KeyRebuild(others: Others, s: Session, k: string, item: Item, o: Order, now: nat, load: nat)
    requires Selected(s) && k !in s.data[s.sel] && MembersOk(item.val, k, o) && LongLong(item.expire) && !Past(item, now)
    ensures ApplyAll(others, s, KeyCommands(k, item, o, now), load) == Some(Puts(s, s.data[s.sel][k := item]))
  {
    ObjectRebuild(others, s, k, item.val, o, load);
    var db := s.data[s.sel];
    var s1 := Puts(s, db[k := Item(item.val, NO_EXPIRE)]);
    var obj, expire := ObjectCommands(k, item.val, o), ExpireCommands(k, item.expire);
    hide VerbOf, Apply, ObjectCommands, Past, MembersOk, DecInt;
    ApplyAllAppend(others, s, obj, expire, load);
    if item.expire == NO_EXPIRE {
      assert obj + expire == obj;
    } else {
      ApplyPExpireAt(others, s1, k, item.expire, load);
      assert s1.data[s.sel][k := item] == db[k := item];
      assert s1.data[s.sel := db[k := item]] == s.data[s.sel := db[k := item]];
    }
  }

  /** The keys of a list that are in the database and not past their expiry. */
  function Kept(db: Db, keys: seq<string>, now: nat): Db {
    map k | k in keys && k in db && !Past(db[k], now) :: db[k]
  }

  lemma PutsTwice(s: Session, a: Db, b: Db)
    requires Selected(s)
    ensures Puts(Puts(s, a), b) == Puts(s, b) && Puts(s, s.data[s.sel]) == s
  {
    assert s.data[s.sel := a][s.sel := b] == s.data[s.sel := b];
    assert s.data[s.sel := s.data[s.sel]] == s.data;
  }

  function Kept1(base: Db, k: string, item: Item, now: nat): Db {
    if Past(item, now) then base else base[k := item]
  }

  lemma KeyKept(others: Others, s: Session, k: string, item: Item, o: Order, now: nat, load: nat)
    requires Selected(s) && k !in s.data[s.sel] && MembersOk(item.val, k, o) && LongLong(item.expire)
    ensures ApplyAll(others, s, KeyCommands(k, item, o, now), load)
         == Some(Puts(s, Kept1(s.data[s.sel], k, item, now)))
  {
    if Past(item, now) {
      PutsTwice(s, s.data[s.sel], s.data[s.sel]);
    } else {
      KeyRebuild(others, s, k, item, o, now, load);
    }
  }

  ghost predicate Absent(s: Session, db: Db, keys: seq<string>, o: Order)
    requires Selected(s)
  {
    forall k :: k in keys ==>
      k in db && MembersOk(db[k].val, k, o) && LongLong(db[k].expire) && k !in s.data[s.sel]
  }

  lemma AbsentNext(s: Session, db: Db, keys: seq<string>, o: Order, now: nat)
    requires Selected(s) && keys != [] && Distinct(keys) && Absent(s, db, keys, o)
    ensures Distinct(keys[1..])
    ensures Absent(Puts(s, Kept1(s.data[s.sel], keys[0], db[keys[0]], now)), db, keys[1..], o)
  {
    hide MembersOk, Past;
    assert keys[0] !in keys[1..];
  }

  lemma {:induction false} KeysRebuild(others: Others, s: Session, db: Db, keys: seq<string>, o: Order, now: nat,
      load: nat)
    requires Selected(s) && Distinct(keys) && Absent(s, db, keys, o)
    ensures ApplyAll(others, s, KeysCommands(db, keys, o, now), load) == Some(Puts(s, s.data[s.sel] + Kept(db, keys, now)))
    decreases |keys|
  {
    var base := s.data[s.sel];
    if keys == [] {
      assert base + Kept(db, keys, now) == base;
      PutsTwice(s, base, base);
    } else {
      var k, rest := keys[0], keys[1..];
      assert k in db && MembersOk(db[k].val, k, o) && LongLong(db[k].expire) && k !in base;
      var head, tail := KeyCommands(k, db[k], o, now), KeysCommands(db, rest, o, now);
      assert KeysCommands(db, keys, o, now) == head + tail;
      var base1 := Kept1(base, k, db[k], now);
      var s1 := Puts(s, base1);
      KeptNext(base, db, keys, now);
      AbsentNext(s, db, keys, o, now);
      PutsTwice(s, base1, base1 + Kept(db, rest, now));
      hide *;
      KeyKept(others, s, k, db[k], o, now, load);
      KeysRebuild(others, s1, db, rest, o, now, load);
      ApplyAllAppend(others, s, head, tail, load);
    }
  }

  lemma KeptAt(base: Db, db: Db, keys: seq<string>, now: nat, k: string)
    requires keys != [] && Distinct(keys) && keys[0] in db
    ensures var a, b := base + Kept(db, keys, now), Kept1(base, keys[0], db[keys[0]], now) + Kept(db, keys[1..], now);
      (k in a <==> k in b) && (k in a ==> a[k] == b[k])
  {
    assert k in keys <==> k == keys[0] || k in keys[1..];
    assert keys[0] !in keys[1..];
    hide Past;
  }

  lemma KeptNext(base: Db, db: Db, keys: seq<string>, now: nat)
    requires keys != [] && Distinct(keys) && keys[0] in db
    ensures base + Kept(db, keys, now)
         == Kept1(base, keys[0], db[keys[0]], now) + Kept(db, keys[1..], now)
  {
    hide Kept, Past, Distinct, Kept1;
    var a, b := base + Kept(db, keys, now), Kept1(base, keys[0], db[keys[0]], now) + Kept(db, keys[1..], now);
    forall k
      ensures k in a <==> k in b
      ensures k in a ==> a[k] == b[k]
    {
      KeptAt(base, db, keys, now, k);
    }
    assert a.Keys == b.Keys;
  }

  // ---- databases

  function Unexpired(db: Db, now: nat): Db {
    map k | k in db && !Past(db[k], now) :: db[k]
  }

  function UnexpiredAll(data: seq<Db>, now: nat): (r: seq<Db>)
    ensures |r| == |data|
  {
    seq(|data|, i requires 0 <= i < |data| => Unexpired(data[i], now))
  }

  lemma SelectApplies(others: Others, s: Session, id: nat, load: nat)
    requires Selected(s) && id < |s.data|
    ensures Apply(others, s, ["SELECT", Dec(id)], load) == Some(Session(s.data, id))
  {
    LoggedVerbs();
    AtoiOfDec(id, []);
    assert Dec(id) + [] == Dec(id);
    hide VerbOf, Dec, Atoi;
  }

  predicate InRange(db: Db) {
    forall k :: k in db ==> LongLong(db[k].expire)
  }

  lemma DbRebuild(others: Others, s: Session, id: nat, db: Db, o: Order, now: nat, load: nat)
    requires Selected(s) && id < |s.data| && s.data[id] == map[] && ValidOrder(db, o) && InRange(db)
    ensures ApplyAll(others, s, DbCommands(id, db, o, now), load)
         == Some(Session(s.data[id := Unexpired(db, now)], if db == map[] then s.sel else id))
  {
    if db == map[] {
      assert s.data[id := map[]] == s.data;
    } else {
      OrderKeys(db, o);
      var s1 := Session(s.data, id);
      assert Kept(db, o.keys, now) == Unexpired(db, now) by {
        assert forall k :: k in db.Keys <==> k in o.keys;
      }
      assert map[] + Kept(db, o.keys, now) == Kept(db, o.keys, now);
      KeysRebuild(others, s1, db, o.keys, o, now, load);
      var head, keys := ["SELECT", Dec(id)], KeysCommands(db, o.keys, o, now);
      var log := [head] + keys;
      assert DbCommands(id, db, o, now) == log && log[1..] == keys;
      hide Dec, Apply, KeysCommands, Kept, Unexpired, MembersOk;
      SelectApplies(others, s, id, load);
      assert ApplyAll(others, s, log, load) == ApplyAll(others, s1, keys, load);
    }
  }

  lemma {:induction false} CommandsRebuild(others: Others, s: Session, data: seq<Db>, orders: seq<Order>, id: nat,
      now: nat, load: nat)
    requires ValidOrders(data, orders) && id <= |data| == |s.data| && Selected(s)
    requires forall j :: 0 <= j < |data| ==> InRange(data[j])
    requires forall j :: id <= j < |data| ==> s.data[j] == map[]
    requires forall j :: 0 <= j < id ==> s.data[j] == Unexpired(data[j], now)
    ensures ApplyAll(others, s, RewriteCommands(data, orders, id, now), load).Some?
    ensures ApplyAll(others, s, RewriteCommands(data, orders, id, now), load).value.data == UnexpiredAll(data, now)
    decreases |data| - id
  {
    if id < |data| {
      var head, rest := DbCommands(id, data[id], orders[id], now), RewriteCommands(data, orders, id + 1, now);
      DbRebuild(others, s, id, data[id], orders[id], now, load);
      hide DbCommands, Apply, Unexpired, ValidOrder, ApplyAll;
      ApplyAllAppend(others, s, head, rest, load);
      CommandsRebuild(others, ApplyAll(others, s, head, load).value, data, orders, id + 1, now, load);
    } else {
      hide Unexpired;
      assert s.data == UnexpiredAll(data, now);
    }
  }

  // ---- the text

  ghost predicate ShortValue(v: Value) {
    match v
    case Str(text) => Short(text)
    case ListV(items) => forall x :: x in items ==> Short(x)
    case SetV(members) => forall x :: x in members ==> Short(x)
    case ZSetV(scores) => forall x :: x in scores ==> Short(x) && Short(scores[x])
    case HashV(fields) => forall x :: x in fields ==> Short(x) && Short(fields[x])
  }

  /** Strings no longer than a C long long can say, and times within one. */
  ghost predicate FitsC(data: seq<Db>) {
    |data| <= INT_MAX && forall i, k :: 0 <= i < |data| && k in data[i] ==>
      Short(k) && ShortValue(data[i][k].val) && LongLong(data[i][k].expire)
  }

  ghost predicate AllShort(groups: seq<seq<string>>) {
    forall i, j :: 0 <= i < |groups| && 0 <= j < |groups[i]| ==> Short(groups[i][j])
  }

  lemma {:induction false} FlatShort(groups: seq<seq<string>>)
    requires AllShort(groups)
    ensures forall j :: 0 <= j < |Flat(groups)| ==> Short(Flat(groups)[j])
    decreases |groups|
  {
    if groups != [] {
      assert forall i, j :: 0 <= i < |groups[1..]| && 0 <= j < |groups[1..][i]| ==> groups[1..][i][j] == groups[i + 1][j];
      FlatShort(groups[1..]);
    }
  }

  lemma {:induction false} ChunksPrintable(name: string, k: string, groups: seq<seq<string>>, width: nat)
    requires Wide(groups, width) && width <= 2 && AllShort(groups) && Short(name) && Short(k)
    ensures AllPrintable(Chunks(name, k, groups))
    decreases |groups|
  {
    if groups != [] {
      var c := Min(ITEMS_PER_CMD, |groups|);
      assert Wide(groups[..c], width) && Wide(groups[c..], width);
      FlatLength(groups[..c], width);
      FlatShort(groups[..c]);
      assert |Flat(groups[..c])| <= 128;
      assert Printable([name, k] + Flat(groups[..c]));
      ChunksPrintable(name, k, groups[c..], width);
      hide Printable, Flat;
    }
  }

  lemma PrintableAppend(a: seq<seq<string>>, b: seq<seq<string>>)
    requires AllPrintable(a) && AllPrintable(b)
    ensures AllPrintable(a + b)
  {
    hide Printable;
  }

  lemma DecIntShort(n: int)
    requires LongLong(n)
    ensures Short(DecInt(n))
  {
    Small(if n < 0 then -n else n);
  }

  lemma KeyPrintable(k: string, item: Item, o: Order, now: nat)
    requires MembersOk(item.val, k, o) && Short(k) && ShortValue(item.val) && LongLong(item.expire)
    ensures AllPrintable(KeyCommands(k, item, o, now))
  {
    var v := item.val;
    if !v.Str? {
      GroupsShape(v, k, o);
      assert AllShort(Groups(v, k, o)) by {
        if !v.ListV? {
          assert forall x :: x in o.members[k] ==> x in Members(v) by {
            assert forall x :: x in o.members[k] ==> x in set y | y in o.members[k];
          }
        }
      }
      hide Groups, Chunks, MembersOk;
      ChunksPrintable(NameFor(v), k, Groups(v, k, o), Width(v));
    }
    assert AllPrintable(ObjectCommands(k, v, o));
    DecIntShort(item.expire);
    assert AllPrintable(ExpireCommands(k, item.expire));
    hide AllPrintable, ObjectCommands, ExpireCommands;
    PrintableAppend(ObjectCommands(k, v, o), ExpireCommands(k, item.expire));
    assert AllPrintable([]) by {
      PrintableNone();
    }
  }

  lemma PrintableNone()
    ensures AllPrintable([])
  {
  }

  lemma {:induction false} KeysPrintable(db: Db, keys: seq<string>, o: Order, now: nat)
    requires forall k :: k in keys ==> k in db && MembersOk(db[k].val, k, o)
    requires forall k :: k in db ==>
      Short(k) && ShortValue(db[k].val) && LongLong(db[k].expire)
    ensures AllPrintable(KeysCommands(db, keys, o, now))
    decreases |keys|
  {
    if keys != [] {
      KeyPrintable(keys[0], db[keys[0]], o, now);
      KeysPrintable(db, keys[1..], o, now);
      PrintableAppend(KeyCommands(keys[0], db[keys[0]], o, now), KeysCommands(db, keys[1..], o, now));
      hide *;
    }
  }

  lemma DbPrintable(id: nat, db: Db, o: Order, now: nat)
    requires ValidOrder(db, o) && id <= INT_MAX
    requires forall k :: k in db ==> Short(k) && ShortValue(db[k].val) && LongLong(db[k].expire)
    ensures AllPrintable(DbCommands(id, db, o, now))
  {
    OrderKeys(db, o);
    KeysPrintable(db, o.keys, o, now);
    Small(id);
    hide ValidOrder, KeysCommands, MembersOk, Dec, ShortValue;
    var head: seq<seq<string>> := [["SELECT", Dec(id)]];
    assert AllPrintable(head);
    PrintableAppend(head, KeysCommands(db, o.keys, o, now));
    hide AllPrintable;
    assert AllPrintable([]) by {
      PrintableNone();
    }
  }

  lemma {:induction false} RewritePrintable(data: seq<Db>, orders: seq<Order>, id: nat, now: nat)
    requires ValidOrders(data, orders) && id <= |data| && FitsC(data)
    ensures AllPrintable(RewriteCommands(data, orders, id, now))
    decreases |data| - id
  {
    if id < |data| {
      hide DbCommands, AllPrintable, ValidOrder, ShortValue;
      DbPrintable(id, data[id], orders[id], now);
      RewritePrintable(data, orders, id + 1, now);
      PrintableAppend(DbCommands(id, data[id], orders[id], now), RewriteCommands(data, orders, id + 1, now));
    } else {
      PrintableNone();
    }
  }

  lemma FitsInRange(data: seq<Db>)
    requires FitsC(data)
    ensures forall j :: 0 <= j < |data| ==> InRange(data[j])
  {
    forall j, k | 0 <= j < |data| && k in data[j]
      ensures LongLong(data[j][k].expire)
    {
      assert Short(k);
    }
  }

  /** The rewrite's main law: the rewritten log loads, at any time, to every key that had not passed its expiry
      when it was written, with its value and its absolute expiry, and to nothing else. */
  lemma RewriteRebuilds(others: Others, data: seq<Db>, orders: seq<Order>, now: nat, load: nat)
    requires data != [] && ValidOrders(data, orders) && FitsC(data)
    ensures var r := Replay(others, Empty(|data|), PrintAll(RewriteCommands(data, orders, 0, now)), load);
      r.Some? && r.value.data == UnexpiredAll(data, now)
  {
    RewritePrintable(data, orders, 0, now);
    FitsInRange(data);
    hide RewriteCommands, ApplyAll, InRange, Replay, ValidOrders, AllPrintable, PrintAll, UnexpiredAll, FitsC;
    CommandsRebuild(others, Empty(|data|), data, orders, 0, now, load);
    ReplayPrinted(others, Empty(|data|), RewriteCommands(data, orders, 0, now), load);
  }

  /** Said of keys: the rewritten log loads to exactly those without expiry or with one not before the clock. */
  lemma RewriteKeeps(others: Others, data: seq<Db>, orders: seq<Order>, now: nat, load: nat, i: nat, k: string)
    requires i < |data| && ValidOrders(data, orders) && FitsC(data)
    ensures var r := Replay(others, Empty(|data|), PrintAll(RewriteCommands(data, orders, 0, now)), load);
      && r.Some?
      && (k in r.value.data[i] <==> k in data[i] && (data[i][k].expire == -1 || data[i][k].expire >= now))
      && (k in r.value.data[i] ==> r.value.data[i][k] == data[i][k])
  {
    hide Replay, RewriteCommands, PrintAll, ValidOrders, FitsC;
    RewriteRebuilds(others, data, orders, now, load);
  }

  /** The expiries that have passed by the clock at `read` have passed by the clock at now. */
  ghost predicate InTime(data: seq<Db>, read: nat, now: nat) {
    forall i, k :: 0 <= i < |data| && k in data[i] && Past(data[i][k], read) ==> Past(data[i][k], now)
  }

  /** What a child that reads the clock at `read` rebuilds trails the dataset, by the clock at now, exactly when no
      key passes its expiry between the two. */
  lemma UnexpiredTrails(data: seq<Db>, read: nat, now: nat)
    ensures Trails(UnexpiredAll(data, read), data, now) <==> InTime(data, read, now)
  {
    var copy := UnexpiredAll(data, read);
    if Trails(copy, data, now) {
      forall i, k | 0 <= i < |data| && k in data[i] && Past(data[i][k], read)
        ensures Past(data[i][k], now)
      {
        assert TrailsDb(copy[i], data[i], now);
      }
    }
    if InTime(data, read, now) {
      forall i | 0 <= i < |data|
        ensures TrailsDb(copy[i], data[i], now)
      {
      }
    }
  }
}
