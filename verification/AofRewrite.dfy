/** Rewriting the log: the shortest command stream that rebuilds the dataset, with collections cut into
    commands of at most 64 items. */
module AofRewrite {
  import opened Sequences
  import opened AofFormat
  import opened AofCommands
  import opened AofReplay

  const ITEMS_PER_CMD: nat := 64

  function Min(a: nat, b: nat): nat {
    if a < b then a else b
  }

  lemma Assoc(a: string, b: string, c: string)
    ensures a + (b + c) == a + b + c
  {
  }

  lemma DropNext(groups: seq<seq<string>>, i: nat)
    requires i < |groups|
    ensures groups[i..] != [] && groups[i..][0] == groups[i] && groups[i..][1..] == groups[i + 1..]
  {
  }

  lemma Assoc5(a: string, b: string, c: string, d: string, e: string)
    ensures a + (b + c + d + e) == a + b + c + d + e
  {
    Assoc(a, b + c + d, e);
    Assoc(a, b + c, d);
    Assoc(a, b, c);
  }

  // ---- collections as runs of items

  /** Items are one argument wide in lists and sets, two in sorted sets and hashes. */
  function Flat(groups: seq<seq<string>>): seq<string> {
    if groups == [] then [] else groups[0] + Flat(groups[1..])
  }

  ghost predicate Wide(groups: seq<seq<string>>, width: nat) {
    forall i :: 0 <= i < |groups| ==> |groups[i]| == width
  }

  /** The commands for a collection. */
  function Chunks(name: string, key: string, groups: seq<seq<string>>): seq<seq<string>>
    decreases |groups|
  {
    if groups == [] then [] else
      var c := Min(ITEMS_PER_CMD, |groups|);
      [[name, key] + Flat(groups[..c])] + Chunks(name, key, groups[c..])
  }

  /** The text still to come when count items of the current command are out. */
  function Tail(name: string, key: string, groups: seq<seq<string>>, count: nat): string
    requires count <= ITEMS_PER_CMD
  {
    var c := Min(ITEMS_PER_CMD - count, |groups|);
    Bulks(Flat(groups[..c])) + PrintAll(Chunks(name, key, groups[c..]))
  }

  /** No command has more than 64 items, and all but the last have that many. */
  lemma {:induction false} ChunkSizes(name: string, key: string, groups: seq<seq<string>>, width: nat, i: nat)
    requires Wide(groups, width) && i < |Chunks(name, key, groups)|
    ensures |Chunks(name, key, groups)[i]| <= 2 + 64 * width
    ensures i + 1 < |Chunks(name, key, groups)| ==> |Chunks(name, key, groups)[i]| == 2 + 64 * width
    decreases |groups|
  {
    var c := Min(ITEMS_PER_CMD, |groups|);
    assert Wide(groups[..c], width) && Wide(groups[c..], width);
    FlatLength(groups[..c], width);
    var rest := Chunks(name, key, groups[c..]);
    assert Chunks(name, key, groups) == [[name, key] + Flat(groups[..c])] + rest;
    assert c < 64 ==> groups[c..] == [] && rest == [];
    assert |[name, key] + Flat(groups[..c])| == 2 + c * width && c <= 64;
    hide Chunks, Flat, Wide;
    if i == 0 {
      Product(c, 64, width);
    } else {
      ChunkSizes(name, key, groups[c..], width, i - 1);
    }
  }

  lemma Product(a: nat, b: nat, w: nat)
    requires a <= b
    ensures a * w <= b * w
  {
  }

  lemma {:induction false} FlatLength(groups: seq<seq<string>>, width: nat)
    requires Wide(groups, width)
    ensures |Flat(groups)| == |groups| * width
    decreases |groups|
  {
    if groups != [] {
      assert Wide(groups[1..], width);
      FlatLength(groups[1..], width);
      assert (|groups| - 1) * width + width == |groups| * width;
    }
  }

  lemma ArgsText(name: string, key: string, args: seq<string>)
    ensures Bulks([name, key] + args) == Bulk(name) + Bulk(key) + Bulks(args)
  {
    var argv := [name, key] + args;
    assert argv[1..] == [key] + args && argv[1..][1..] == args;
    hide Bulk;
    assert Bulks(argv) == Bulk(name) + Bulks(argv[1..]);
    assert Bulks(argv[1..]) == Bulk(key) + Bulks(args);
  }

  /** A command opens with the count of the arguments that follow it. */
  lemma OpenCommand(name: string, key: string, groups: seq<seq<string>>, width: nat)
    requires groups != [] && Wide(groups, width)
    ensures PrintAll(Chunks(name, key, groups))
         == Header('*', 2 + Min(ITEMS_PER_CMD, |groups|) * width) + Bulk(name) + Bulk(key) + Tail(name, key, groups, 0)
  {
    var c := Min(ITEMS_PER_CMD, |groups|);
    var args := Flat(groups[..c]);
    var argv := [name, key] + args;
    var rest := Chunks(name, key, groups[c..]);
    FlatLength(groups[..c], width);
    assert Chunks(name, key, groups) == [argv] + rest;
    var n := 2 + c * width;
    assert |argv| == n;
    assert Tail(name, key, groups, 0) == Bulks(args) + PrintAll(rest);
    hide *;
    ArgsText(name, key, args);
    OpenPrint(argv, rest, n, Bulk(name), Bulk(key), Bulks(args));
  }

  lemma OpenPrint(argv: seq<string>, rest: seq<seq<string>>, n: nat, a: string, b: string, c: string)
    requires |argv| == n && Bulks(argv) == a + b + c
    ensures PrintAll([argv] + rest) == Header('*', n) + a + b + (c + PrintAll(rest))
  {
    assert ([argv] + rest)[1..] == rest;
    hide Header, Bulks;
    var h := Header('*', n);
    assert h + (a + b + c) + PrintAll(rest) == h + a + b + (c + PrintAll(rest));
  }

  /** Each item adds its arguments. */
  lemma NextItem(name: string, key: string, groups: seq<seq<string>>, count: nat)
    requires groups != [] && count < ITEMS_PER_CMD
    ensures Tail(name, key, groups, count) == Bulks(groups[0]) + Tail(name, key, groups[1..], count + 1)
  {
    var c := Min(ITEMS_PER_CMD - count, |groups|);
    assert groups[..c][1..] == groups[1..][..c - 1] && groups[c..] == groups[1..][c - 1..];
    var args := Flat(groups[1..][..c - 1]);
    assert Flat(groups[..c]) == groups[0] + args;
    var rest := PrintAll(Chunks(name, key, groups[c..]));
    assert Tail(name, key, groups, count) == Bulks(groups[0] + args) + rest;
    assert Tail(name, key, groups[1..], count + 1) == Bulks(args) + rest;
    hide *;
    BulksConcat(groups[0], args);
    Assoc(Bulks(groups[0]), Bulks(args), rest);
  }

  lemma CommandFull(name: string, key: string, groups: seq<seq<string>>)
    ensures Tail(name, key, groups, ITEMS_PER_CMD) == PrintAll(Chunks(name, key, groups))
  {
    assert groups[..0] == [] && groups[0..] == groups;
  }

  method WriteBulks(out0: string, args: seq<string>) returns (out: string)
    ensures out == out0 + Bulks(args)
  {
    out := out0;
    for i := 0 to |args|
      invariant out == out0 + Bulks(args[..i])
    {
      BulksNext(out0, args, i);
      out := CatBulk(out, args[i]);
    }
    assert args[..|args|] == args;
  }

  /** rioWriteBulkCount. */
  function HeaderText(prefix: char, count: nat): (s: string)
    ensures s == Header(prefix, count)
  {
    [prefix] + Dec(count) + "\r\n"
  }

  /** What the loop has still to write. */
  ghost function Left(name: string, key: string, groups: seq<seq<string>>, count: nat): string
    requires count < ITEMS_PER_CMD
  {
    if count == 0 then PrintAll(Chunks(name, key, groups)) else Tail(name, key, groups, count)
  }

  method BeginCommand(out0: string, name: string, key: string, width: nat, ghost groups: seq<seq<string>>, items: nat)
    returns (out: string)
    requires groups != [] && Wide(groups, width) && items == |groups|
    ensures out0 + Left(name, key, groups, 0) == out + Tail(name, key, groups, 0)
  {
    OpenCommand(name, key, groups, width);
    var cmdItems := if items > ITEMS_PER_CMD then ITEMS_PER_CMD else items;
    assert cmdItems == Min(ITEMS_PER_CMD, |groups|);
    assert Left(name, key, groups, 0) == PrintAll(Chunks(name, key, groups));
    ghost var tail := Tail(name, key, groups, 0);
    hide *;
    var n := 2 + cmdItems * width;
    out := out0 + HeaderText('*', n);
    out := CatBulk(out, name);
    out := CatBulk(out, key);
    Assoc5(out0, Header('*', n), Bulk(name), Bulk(key), tail);
  }

  /** One item is written; a command that has 64 of them is complete. */
  lemma LeftNext(name: string, key: string, groups: seq<seq<string>>, count: nat)
    requires groups != [] && count < ITEMS_PER_CMD
    ensures Tail(name, key, groups, count)
         == Bulks(groups[0]) + Left(name, key, groups[1..], if count + 1 == ITEMS_PER_CMD then 0 else count + 1)
  {
    NextItem(name, key, groups, count);
    CommandFull(name, key, groups[1..]);
    hide Tail, Bulks, Chunks, PrintAll;
  }

  lemma LeftDone(name: string, key: string, count: nat)
    requires count < ITEMS_PER_CMD
    ensures Left(name, key, [], count) == []
  {
  }

  lemma WideDrop(groups: seq<seq<string>>, width: nat)
    requires Wide(groups, width)
    ensures forall j | 0 <= j <= |groups| :: Wide(groups[j..], width)
  {
  }

  /** The shape of rewriteListObject, rewriteSetObject, rewriteSortedSetObject and rewriteHashObject: a count of
      the items in the current command, and of the items left. */
  method RewriteItems(out0: string, name: string, key: string, width: nat, groups: seq<seq<string>>, size: nat)
    returns (out: string)
    requires Wide(groups, width) && size == |groups|
    ensures out == out0 + PrintAll(Chunks(name, key, groups))
  {
    WideDrop(groups, width);
    ghost var total := out0 + PrintAll(Chunks(name, key, groups));
    assert groups[0..] == groups && total == out0 + Left(name, key, groups[0..], 0);
    hide *;
    out := out0;
    var count: nat, items: nat, i: nat := 0, size, 0;
    while i < |groups|
      invariant i <= |groups| && items == |groups| - i && count < ITEMS_PER_CMD
      invariant total == out + Left(name, key, groups[i..], count)
    {
      DropNext(groups, i);
      out, count := WriteItem(out, name, key, width, groups[i], groups[i..], count, items);
      i, items := i + 1, items - 1;
    }
    assert groups[i..] == [];
    LeftDone(name, key, count);
    assert total == out;
  }

  /** One turn of the loop. */
  method WriteItem(out0: string, name: string, key: string, width: nat, item: seq<string>,
      ghost groups: seq<seq<string>>, count0: nat, items: nat)
    returns (out: string, count: nat)
    requires groups != [] && groups[0] == item && Wide(groups, width) && items == |groups| && count0 < ITEMS_PER_CMD
    ensures count < ITEMS_PER_CMD
    ensures out0 + Left(name, key, groups, count0) == out + Left(name, key, groups[1..], count)
  {
    assert count0 != 0 ==> Left(name, key, groups, count0) == Tail(name, key, groups, count0);
    hide *;
    out, count := out0, count0;
    if count == 0 {
      out := BeginCommand(out, name, key, width, groups, items);
    }
    ghost var tail := Tail(name, key, groups, count);
    LeftNext(name, key, groups, count);
    ghost var left := Left(name, key, groups[1..], if count + 1 == ITEMS_PER_CMD then 0 else count + 1);
    Assoc(out, Bulks(item), left);
    out := WriteBulks(out, item);
    count := count + 1;
    if count == ITEMS_PER_CMD {
      count := 0;
    }
  }

  // ---- objects, databases and the whole dataset

  /** The orders in which the iterators yield a database's keys and its collections' members. */
  datatype Order = Order(keys: seq<string>, members: map<string, seq<string>>)

  /** An iteration yields each element once. */
  ghost predicate Lists(xs: seq<string>, s: set<string>) {
    Distinct(xs) && (set x | x in xs) == s
  }

  function Members(v: Value): set<string> {
    match v
    case SetV(members) => members
    case ZSetV(scores) => scores.Keys
    case HashV(fields) => fields.Keys
    case _ => {}
  }

  /** Redis removes a key whose collection becomes empty. */
  predicate Stored(v: Value) {
    match v
    case Str(_) => true
    case ListV(items) => items != []
    case _ => Members(v) != {}
  }

  /** The order tells how the iterator of a collection yields its members. */
  ghost predicate Listed(v: Value, k: string, o: Order) {
    v.Str? || v.ListV? || (k in o.members && Lists(o.members[k], Members(v)))
  }

  ghost predicate MembersOk(v: Value, k: string, o: Order) {
    Stored(v) && Listed(v, k, o)
  }

  ghost predicate ValidOrder(db: Db, o: Order) {
    Lists(o.keys, db.Keys) && forall k :: k in db ==> MembersOk(db[k].val, k, o)
  }

  function NameFor(v: Value): string
    requires !v.Str?
  {
    match v
    case ListV(_) => "RPUSH"
    case SetV(_) => "SADD"
    case ZSetV(_) => "ZADD"
    case HashV(_) => "HMSET"
  }

  function Width(v: Value): nat {
    if v.ZSetV? || v.HashV? then 2 else 1
  }

  /** listTypeLength, setTypeSize, zsetLength and hashTypeLength. */
  function Size(v: Value): nat {
    if v.ListV? then |v.items| else |Members(v)|
  }

  /** The arguments that stand for each item. */
  function Groups(v: Value, k: string, o: Order): seq<seq<string>>
    requires !v.Str? && MembersOk(v, k, o)
  {
    match v
    case ListV(items) => Singles(items)
    case SetV(_) => Singles(o.members[k])
    case ZSetV(scores) => Pairs(o.members[k], scores, true)
    case HashV(fields) => Pairs(o.members[k], fields, false)
  }

  function Singles(xs: seq<string>): seq<seq<string>> {
    seq(|xs|, i requires 0 <= i < |xs| => [xs[i]])
  }

  function Pairs(xs: seq<string>, m: map<string, string>, valueFirst: bool): seq<seq<string>>
    requires forall x :: x in xs ==> x in m
  {
    seq(|xs|, i requires 0 <= i < |xs| => if valueFirst then [m[xs[i]], xs[i]] else [xs[i], m[xs[i]]])
  }

  function ObjectCommands(k: string, v: Value, o: Order): seq<seq<string>>
    requires MembersOk(v, k, o)
  {
    if v.Str? then [["SET", k, v.text]] else Chunks(NameFor(v), k, Groups(v, k, o))
  }

  function ExpireCommands(k: string, t: int): seq<seq<string>> {
    if t == NO_EXPIRE then [] else [["PEXPIREAT", k, DecInt(t)]]
  }

  function KeyCommands(k: string, item: Item, o: Order, now: nat): seq<seq<string>>
    requires MembersOk(item.val, k, o)
  {
    if Past(item, now) then [] else ObjectCommands(k, item.val, o) + ExpireCommands(k, item.expire)
  }

  function KeysCommands(db: Db, keys: seq<string>, o: Order, now: nat): seq<seq<string>>
    requires forall k :: k in keys ==> k in db && MembersOk(db[k].val, k, o)
  {
    if keys == [] then [] else KeyCommands(keys[0], db[keys[0]], o, now) + KeysCommands(db, keys[1..], o, now)
  }

  function DbCommands(id: nat, db: Db, o: Order, now: nat): seq<seq<string>>
    requires ValidOrder(db, o)
  {
    if db == map[] then [] else [["SELECT", Dec(id)]] + KeysCommands(db, o.keys, o, now)
  }

  ghost predicate ValidOrders(data: seq<Db>, orders: seq<Order>) {
    |orders| == |data| && forall i :: 0 <= i < |data| ==> ValidOrder(data[i], orders[i])
  }

  /** The rewritten log, from database id on. */
  function RewriteCommands(data: seq<Db>, orders: seq<Order>, id: nat, now: nat): seq<seq<string>>
    requires ValidOrders(data, orders) && id <= |data|
    decreases |data| - id
  {
    if id == |data| then [] else
      DbCommands(id, data[id], orders[id], now) + RewriteCommands(data, orders, id + 1, now)
  }

  lemma {:induction false} DistinctCount(xs: seq<string>)
    requires Distinct(xs)
    ensures |set x | x in xs| == |xs|
    decreases |xs|
  {
    if xs != [] {
      DistinctCount(xs[1..]);
      assert (set x | x in xs) == {xs[0]} + set x | x in xs[1..];
    }
  }

  lemma GroupsShape(v: Value, k: string, o: Order)
    requires !v.Str? && MembersOk(v, k, o)
    ensures Wide(Groups(v, k, o), Width(v)) && |Groups(v, k, o)| == Size(v)
  {
    if !v.ListV? {
      DistinctCount(o.members[k]);
    }
  }

  method RewriteObject(out0: string, k: string, v: Value, o: Order) returns (out: string)
    requires MembersOk(v, k, o)
    ensures out == out0 + PrintAll(ObjectCommands(k, v, o))
  {
    if v.Str? {
      hide Bulk, Dec;
      LiteralHeaders();
      out := out0 + "*3\r\n$3\r\nSET\r\n";
      out := WriteBulks(out, [k, v.text]);
      PrintLiteral("SET", [k, v.text], "*3\r\n$3\r\nSET\r\n");
      Assoc(out0, "*3\r\n$3\r\nSET\r\n", Bulks([k, v.text]));
    } else {
      GroupsShape(v, k, o);
      hide *;
      out := RewriteItems(out0, NameFor(v), k, Width(v), Groups(v, k, o), Size(v));
    }
  }

  lemma LiteralHeaders()
    ensures Header('*', 3) + Bulk("SET") == "*3\r\n$3\r\nSET\r\n"
    ensures Header('*', 3) + Bulk("PEXPIREAT") == "*3\r\n$9\r\nPEXPIREAT\r\n"
    ensures Header('*', 2) + Bulk("SELECT") == "*2\r\n$6\r\nSELECT\r\n"
  {
  }

  /** A command whose first two lines are a literal. */
  lemma PrintLiteral(name: string, args: seq<string>, head: string)
    requires head == Header('*', |args| + 1) + Bulk(name)
    ensures PrintAll([[name] + args]) == head + Bulks(args)
  {
    var argv := [name] + args;
    assert argv[1..] == args;
    var none: seq<seq<string>> := [];
    assert [argv][1..] == none;
    hide Header, Bulk;
    var n := |args| + 1;
    assert Bulks(argv) == Bulk(name) + Bulks(args);
    assert PrintAll([argv]) == Print(argv) + [];
    assert Print(argv) == Header('*', n) + Bulks(argv);
    Assoc(Header('*', n), Bulk(name), Bulks(args));
  }

  method WriteCommand(out0: string, ghost name: string, head: string, args: seq<string>) returns (out: string)
    requires head == Header('*', |args| + 1) + Bulk(name)
    ensures out == out0 + PrintAll([[name] + args])
  {
    PrintLiteral(name, args, head);
    hide *;
    Assoc(out0, head, Bulks(args));
    out := WriteBulks(out0 + head, args);
  }

  method RewriteKey(out0: string, k: string, item: Item, o: Order, now: nat) returns (out: string)
    requires MembersOk(item.val, k, o)
    ensures out == out0 + PrintAll(KeyCommands(k, item, o, now))
  {
    out := out0;
    if item.expire != NO_EXPIRE && item.expire < now {
      return;
    }
    ghost var obj, expire := ObjectCommands(k, item.val, o), ExpireCommands(k, item.expire);
    assert KeyCommands(k, item, o, now) == obj + expire;
    assert expire == if item.expire == NO_EXPIRE then [] else [["PEXPIREAT", k, DecInt(item.expire)]];
    PrintAllAppend(obj, expire);
    assert PrintAll([]) == [];
    LiteralHeaders();
    hide *;
    out := RewriteObject(out, k, item.val, o);
    Assoc(out0, PrintAll(obj), PrintAll(expire));
    if item.expire != NO_EXPIRE {
      assert ["PEXPIREAT"] + [k, DecInt(item.expire)] == ["PEXPIREAT", k, DecInt(item.expire)];
      out := WriteCommand(out, "PEXPIREAT", "*3\r\n$9\r\nPEXPIREAT\r\n", [k, DecInt(item.expire)]);
    }
  }

  ghost predicate KeysOk(db: Db, o: Order) {
    forall k :: k in o.keys ==> k in db && MembersOk(db[k].val, k, o)
  }

  lemma OrderKeys(db: Db, o: Order)
    requires ValidOrder(db, o)
    ensures KeysOk(db, o)
  {
    forall k | k in o.keys
      ensures k in db && MembersOk(db[k].val, k, o)
    {
      assert k in set x | x in o.keys;
    }
  }

  /** The text for the keys from the i-th on. */
  ghost function KeysText(db: Db, o: Order, i: nat, now: nat): string
    requires KeysOk(db, o) && i <= |o.keys|
  {
    PrintAll(KeysCommands(db, o.keys[i..], o, now))
  }

  lemma KeysNext(out0: string, db: Db, o: Order, i: nat, now: nat)
    requires KeysOk(db, o) && i < |o.keys|
    ensures o.keys[i] in db && MembersOk(db[o.keys[i]].val, o.keys[i], o)
    ensures out0 + KeysText(db, o, i, now)
         == out0 + PrintAll(KeyCommands(o.keys[i], db[o.keys[i]], o, now)) + KeysText(db, o, i + 1, now)
  {
    assert o.keys[i..][1..] == o.keys[i + 1..];
    var a, b := KeyCommands(o.keys[i], db[o.keys[i]], o, now), KeysCommands(db, o.keys[i + 1..], o, now);
    assert KeysCommands(db, o.keys[i..], o, now) == a + b;
    assert KeysText(db, o, i, now) == PrintAll(a + b) && KeysText(db, o, i + 1, now) == PrintAll(b);
    hide *;
    PrintAllAppend(a, b);
    Assoc(out0, PrintAll(a), PrintAll(b));
  }

  /** The keys of one database, in the iterator's order. */
  method RewriteKeys(out0: string, db: Db, o: Order, now: nat) returns (out: string)
    requires KeysOk(db, o)
    ensures out == out0 + PrintAll(KeysCommands(db, o.keys, o, now))
  {
    ghost var total := out0 + PrintAll(KeysCommands(db, o.keys, o, now));
    assert o.keys[0..] == o.keys;
    assert total == out0 + KeysText(db, o, 0, now);
    assert KeysText(db, o, |o.keys|, now) == [];
    hide *;
    out := out0;
    for i := 0 to |o.keys|
      invariant total == out + KeysText(db, o, i, now)
    {
      KeysNext(out, db, o, i, now);
      out := RewriteKey(out, o.keys[i], db[o.keys[i]], o, now);
    }
    assert total == out;
  }

  method RewriteDb(out0: string, id: nat, db: Db, o: Order, now: nat) returns (out: string)
    requires ValidOrder(db, o)
    ensures out == out0 + PrintAll(DbCommands(id, db, o, now))
  {
    out := out0;
    if db == map[] {
      return;
    }
    OrderKeys(db, o);
    ghost var keys := KeysCommands(db, o.keys, o, now);
    ghost var select := ["SELECT"] + [Dec(id)];
    assert select == ["SELECT", Dec(id)];
    assert DbCommands(id, db, o, now) == [select] + keys;
    LiteralHeaders();
    hide *;
    PrintAllAppend([select], keys);
    out := WriteCommand(out, "SELECT", "*2\r\n$6\r\nSELECT\r\n", [Dec(id)]);
    Assoc(out0, PrintAll([select]), PrintAll(keys));
    out := RewriteKeys(out, db, o, now);
  }

  /** rewriteAppendOnlyFile, as far as the text goes. */
  method RewriteAppendOnlyFile(data: seq<Db>, orders: seq<Order>, now: nat) returns (out: string)
    requires ValidOrders(data, orders)
    ensures out == PrintAll(RewriteCommands(data, orders, 0, now))
  {
    out := [];
    ghost var total := PrintAll(RewriteCommands(data, orders, 0, now));
    for j := 0 to |data|
      invariant total == out + PrintAll(RewriteCommands(data, orders, j, now))
    {
      ghost var a, b := DbCommands(j, data[j], orders[j], now), RewriteCommands(data, orders, j + 1, now);
      assert RewriteCommands(data, orders, j, now) == a + b;
      PrintAllAppend(a, b);
      Assoc(out, PrintAll(a), PrintAll(b));
      out := RewriteDb(out, j, data[j], orders[j], now);
    }
  }
}
