/** What a running server's dataset is always like, so that a rewrite can print it: strings and times that C can
    hold, no empty collections, no expiries before 1970. */
module AofDataset {
  import opened Wrappers
  import opened AofFormat
  import opened AofCommands
  import opened AofReplay
  import opened AofRewrite
  import opened AofRebuild
  import opened AofFeed

  ghost predicate SaneValue(v: Value) {
    ShortValue(v) && Stored(v)
  }

  predicate SaneExpire(t: int) {
    LongLong(t) && t >= NO_EXPIRE
  }

  ghost predicate SaneDb(db: Db) {
    forall k :: k in db ==> Short(k) && SaneValue(db[k].val) && SaneExpire(db[k].expire)
  }

  ghost predicate Sane(data: seq<Db>) {
    forall i :: 0 <= i < |data| ==> SaneDb(data[i])
  }

  lemma SaneFits(data: seq<Db>)
    requires Sane(data) && |data| <= INT_MAX
    ensures FitsC(data)
  {
  }

  // ---- what commands store

  ghost predicate ShortFields(m: map<string, string>) {
    forall x :: x in m ==> Short(x) && Short(m[x])
  }

  ghost predicate ShortArgs(args: seq<string>) {
    forall i :: 0 <= i < |args| ==> Short(args[i])
  }

  lemma {:induction false} PutScoresShort(m: map<string, string>, args: seq<string>)
    requires ShortFields(m) && ShortArgs(args)
    ensures ShortFields(PutScores(m, args)) && (m != map[] || |args| >= 2 ==> PutScores(m, args).Keys != {})
    decreases |args|
  {
    if |args| >= 2 {
      var m1 := m[args[1] := args[0]];
      assert args[1] in m1;
      assert ShortArgs(args[2..]);
      PutScoresShort(m1, args[2..]);
    }
  }

  lemma {:induction false} PutFieldsShort(m: map<string, string>, args: seq<string>)
    requires ShortFields(m) && ShortArgs(args)
    ensures ShortFields(PutFields(m, args)) && (m != map[] || |args| >= 2 ==> PutFields(m, args).Keys != {})
    decreases |args|
  {
    if |args| >= 2 {
      var m1 := m[args[0] := args[1]];
      assert args[0] in m1;
      assert ShortArgs(args[2..]);
      PutFieldsShort(m1, args[2..]);
    }
  }

  lemma GrowSane(verb: Verb, v: Option<Value>, args: seq<string>)
    requires v.Some? ==> SaneValue(v.value)
    requires ShortArgs(args) && args != [] && (verb in {ZAdd, HMSet} ==> |args| >= 2)
    ensures Grow(verb, v, args).Some? ==> SaneValue(Grow(verb, v, args).value)
  {
    match verb
    case ZAdd => PutScoresShort(if v.Some? && v.value.ZSetV? then v.value.scores else map[], args);
    case HMSet => PutFieldsShort(if v.Some? && v.value.HashV? then v.value.fields else map[], args);
    case SAdd =>
      if v == None || v.value.SetV? {
        assert args[0] in Members(Grow(verb, v, args).value);
      }
    case _ =>
  }

  lemma SetSane(db: Db, o: SetOptions, k: string, text: string, now: nat, argv: seq<string>)
    requires SaneDb(db) && Short(k) && Short(text)
    requires o.SetOptions? && o.ttl.Some? ==> LongLong(Atoi(o.ttl.value) * o.unit + now)
    ensures SaneDb(DoSet(db, o, k, text, now, argv).db)
  {
    hide Atoi, IsNumber;
  }

  lemma ExpireSane(db: Db, verb: Verb, k: string, s: string, now: nat, argv: seq<string>)
    requires SaneDb(db) && LongLong(When(verb, s, now))
    ensures SaneDb(DoExpire(db, verb, k, s, now, false, argv).db)
  {
    hide When, IsNumber, SaneValue;
  }

  lemma PushSane(db: Db, verb: Verb, k: string, args: seq<string>, argv: seq<string>)
    requires SaneDb(db) && Short(k) && ShortArgs(args) && args != [] && (verb in {ZAdd, HMSet} ==> |args| >= 2)
    ensures SaneDb(DoGrow(db, verb, k, args, argv).db)
  {
    GrowSane(verb, if k in db then Some(db[k].val) else None, args);
    hide Grow, SaneValue;
  }

  /** A payload holds a value as a server stores it. */
  ghost predicate SanePayload(others: Others, argv: seq<string>) {
    |argv| == 4 && VerbOf(argv[0]) == Restore && others.payload(argv[3]).Some? ==>
      SaneValue(others.payload(argv[3]).value)
  }

  lemma RestoreSane(others: Others, db: Db, k: string, ttl: string, payload: string, now: nat, argv: seq<string>)
    requires SaneDb(db) && Short(k) && (others.payload(payload).Some? ==> SaneValue(others.payload(payload).value))
    requires Atoi(ttl) != 0 ==> LongLong(Atoi(ttl) + now)
    ensures SaneDb(DoRestore(others, db, k, ttl, payload, now, argv).db)
  {
    hide Atoi, IsNumber, SaneValue;
  }

  lemma IncrByFloatSane(others: Others, db: Db, k: string, increment: string)
    requires SaneDb(db) && Short(k)
    ensures SaneDb(DoIncrByFloat(others, db, k, increment).db)
  {
  }

  lemma RunDbSane(others: Others, db: Db, argv: seq<string>, now: nat)
    requires Modelled(argv) && Printable(argv) && TimeFits(argv, now) && SaneDb(db) && SanePayload(others, argv)
    ensures SaneDb(RunDb(others, db, argv, now, false).db)
  {
    var verb, k := VerbOf(argv[0]), argv[1];
    assert ShortArgs(argv[2..]);
    hide VerbOf, SaneDb, SaneValue, DoSet, DoExpire, DoGrow, DoRestore, DoIncrByFloat, ParseOptions, Atoi, When;
    match verb
    case Set => SetSane(db, ParseOptions(argv, 3, NO_OPTIONS), k, argv[2], now, argv);
    case SetEx =>
      WhenIs(verb, argv[2], now);
      SetSane(db, SetOptions(false, false, Some(argv[2]), 1000), k, argv[3], now, argv);
    case PSetEx =>
      WhenIs(verb, argv[2], now);
      SetSane(db, SetOptions(false, false, Some(argv[2]), 1), k, argv[3], now, argv);
    case Del => Fewer(db, set x | x in argv[1..]);
    case RPush => PushSane(db, verb, k, argv[2..], argv);
    case SAdd => PushSane(db, verb, k, argv[2..], argv);
    case ZAdd => PushSane(db, verb, k, argv[2..], argv);
    case HMSet => PushSane(db, verb, k, argv[2..], argv);
    case Restore => RestoreSane(others, db, k, argv[2], argv[3], now, argv);
    case IncrByFloat => IncrByFloatSane(others, db, k, argv[2]);
    case Expire => ExpireSane(db, verb, k, argv[2], now, argv);
    case PExpire => ExpireSane(db, verb, k, argv[2], now, argv);
    case ExpireAt => ExpireSane(db, verb, k, argv[2], now, argv);
    case PExpireAt => ExpireSane(db, verb, k, argv[2], now, argv);
    case _ =>
  }

  lemma WhenIs(verb: Verb, s: string, now: nat)
    requires verb in {SetEx, PSetEx}
    ensures When(verb, s, now) == Atoi(s) * (if verb == SetEx then 1000 else 1) + now
  {
    hide Atoi;
  }

  lemma Fewer(db: Db, ks: set<string>)
    requires SaneDb(db)
    ensures SaneDb(db - ks)
  {
  }

  /** What the modelled commands of a master leave is sane, if what they restore is. */
  lemma RunSane(others: Others, s: Session, argv: seq<string>, now: nat)
    requires Selected(s) && Modelled(argv) && Printable(argv) && TimeFits(argv, now) && Sane(s.data)
    requires SanePayload(others, argv)
    ensures Sane(Run(others, s, argv, now, false).value.data)
  {
    RunDbSane(others, s.data[s.sel], argv, now);
    hide RunDb, SaneDb, VerbOf, SanePayload;
  }

  // ---- the orders of iteration

  /** The iterators yield every key of a database, and every member of a collection, once. */
  ghost predicate Iterated(data: seq<Db>, orders: seq<Order>) {
    |orders| == |data| && forall i :: 0 <= i < |data| ==> IteratedDb(data[i], orders[i])
  }

  ghost predicate IteratedDb(db: Db, o: Order) {
    Lists(o.keys, db.Keys) && forall k :: k in db ==> Listed(db[k].val, k, o)
  }

  lemma IteratedValid(data: seq<Db>, orders: seq<Order>)
    requires Sane(data) && Iterated(data, orders)
    ensures ValidOrders(data, orders)
  {
    forall i | 0 <= i < |data|
      ensures ValidOrder(data[i], orders[i])
    {
      assert SaneDb(data[i]) && IteratedDb(data[i], orders[i]);
      hide Lists, Listed, Stored;
    }
  }

  lemma {:induction false} SetListed(s: set<string>) returns (xs: seq<string>)
    ensures Lists(xs, s)
    decreases s
  {
    if s == {} {
      xs := [];
    } else {
      var x :| x in s;
      var rest := SetListed(s - {x});
      xs := [x] + rest;
      assert (set y | y in xs) == {x} + set y | y in rest;
      assert x !in rest by {
        assert x !in set y | y in rest;
      }
    }
  }

  ghost function Listing(s: set<string>): (xs: seq<string>)
    ensures Lists(xs, s)
  {
    assert exists xs :: Lists(xs, s) by {
      var xs := SetListed(s);
    }
    var xs :| Lists(xs, s);
    xs
  }

  /** There is always an order, so every sane dataset can be rewritten. */
  lemma OrdersExist(data: seq<Db>) returns (orders: seq<Order>)
    ensures Iterated(data, orders)
  {
    orders := seq(|data|, i requires 0 <= i < |data| =>
      Order(Listing(data[i].Keys), map k | k in data[i] :: Listing(Members(data[i][k].val))));
    hide Lists;
  }
}
