/** Where the append-only file does not keep the dataset: one input for each condition the protocol's laws
    carry. */
module AofLimits {
  import opened Wrappers
  import opened AofFormat
  import opened AofCommands
  import opened AofReplay
  import opened AofRewrite
  import opened AofRebuild
  import opened AofFeed

  lemma Applied(others: Others, s: Session, a: seq<string>, b: seq<string>, load: nat)
    requires Selected(s) && Apply(others, s, a, load).Some?
    ensures ApplyAll(others, s, [a, b], load) == Apply(others, Apply(others, s, a, load).value, b, load)
    ensures ApplyAll(others, s, [a], load) == Apply(others, s, a, load)
  {
    hide Apply;
    assert [a, b] == [a] + [b];
    ApplyFirst(others, s, a, [b], load);
    var s1 := Apply(others, s, a, load).value;
    assert ApplyAll(others, s1, [b], load) == Apply(others, s1, b, load);
  }

  /** After a failed fstat the recorded size can be 0; a short write then truncates the whole log away, and a key
      that was logged is gone. */
  lemma StaleSizeLosesLog(others: Others, load: nat)
    ensures var file, buf := PrintAll([["SET", "k", "v"]]), PrintAll([["SET", "a", "b"]]);
      var d := Flushed(Disk(file, buf, 0), 1, true);
      var before, after := Replay(others, Empty(1), file + buf, load), Replay(others, Empty(1), d.file + d.buf, load);
      before.Some? && after.Some? && "k" in before.value.data[0] && "k" !in after.value.data[0]
  {
    var a, b := ["SET", "k", "v"], ["SET", "a", "b"];
    var file, buf := PrintAll([a]), PrintAll([b]);
    var s := Empty(1);
    BufLong(b);
    assert [a] + [b] == [a, b];
    PrintAllAppend([a], [b]);
    assert [] + buf == buf;
    assert AllPrintable([a, b]) && AllPrintable([b]);
    assert Flushed(Disk(file, buf, 0), 1, true) == Disk([], buf, 0);
    hide PrintAll, Replay, VerbOf, Apply, AllPrintable, Flushed;
    ReplayPrinted(others, s, [a, b], load);
    ReplayPrinted(others, s, [b], load);
    ApplySet(others, s, "k", "v", load);
    var s1 := Apply(others, s, a, load).value;
    ApplySet(others, s1, "a", "b", load);
    ApplySet(others, s, "a", "b", load);
    Applied(others, s, a, b, load);
    Applied(others, s, b, b, load);
  }

  lemma BufLong(argv: seq<string>)
    requires argv != []
    ensures |PrintAll([argv])| > 1
  {
    hide Dec;
  }

  /** The child reads the clock after the fork. If by then a key has passed its expiry, but the parent has given it
      a later one in the meantime, the new log has the later expiry and not the key. AofFeed.RewriteLoads says when
      exactly the child's log is good. */
  lemma LateChildLosesKey(others: Others, load: nat)
    ensures var data := [map["k" := Item(Str("v"), 100)]];
      var orders := [Order(["k"], map[])];
      var argv := ["PEXPIREAT", "k", DecInt(1000)];
      var log := RewriteCommands(data, orders, 0, 101) + FeedCommands(NO_DB, 0, argv, 99);
      && ValidOrders(data, orders)
      && Run(others, Session(data, 0), argv, 99, false) == Some(Outcome([map["k" := Item(Str("v"), 1000)]], argv))
      && ApplyAll(others, Empty(1), log, load) == Some(Session([map[]], 0))
  {
    var db: Db := map["k" := Item(Str("v"), 100)];
    var o := Order(["k"], map[]);
    assert ValidOrder(db, o) by {
      assert (set x | x in o.keys) == db.Keys;
    }
    LateCommand(others, db);
    LateRewrite(db, o);
    LateLog(others, load);
  }

  lemma LateCommand(others: Others, db: Db)
    requires db == map["k" := Item(Str("v"), 100)]
    ensures var argv := ["PEXPIREAT", "k", DecInt(1000)];
      Run(others, Session([db], 0), argv, 99, false) == Some(Outcome([map["k" := Item(Str("v"), 1000)]], argv))
  {
    var argv := ["PEXPIREAT", "k", DecInt(1000)];
    assert VerbOf(argv[0]) == PExpireAt by {
      LoggedVerbs();
    }
    DecIntIsNumber(1000);
    AtoiOfDecInt(1000);
    hide VerbOf, DecInt, Dec, Atoi, IsNumber;
    assert Modelled(argv);
    var e := RunDb(others, db, argv, 99, false);
    var db1: Db := map["k" := Item(Str("v"), 1000)];
    assert e == Effect(db["k" := Item(Str("v"), 1000)], argv);
    assert db["k" := Item(Str("v"), 1000)] == db1;
    assert [db][0 := db1] == [db1];
  }

  lemma LateLog(others: Others, load: nat)
    ensures var argv := ["PEXPIREAT", "k", DecInt(1000)];
      ApplyAll(others, Empty(1), [["SELECT", Dec(0)]] + FeedCommands(NO_DB, 0, argv, 99), load)
        == Some(Session([map[]], 0))
  {
    var argv, select := ["PEXPIREAT", "k", DecInt(1000)], ["SELECT", Dec(0)];
    var s := Empty(1);
    assert s.data == [map[]] && s.data[0 := s.data[0]] == s.data;
    assert VerbOf(argv[0]) == PExpireAt by {
      LoggedVerbs();
    }
    assert FeedCommands(NO_DB, 0, argv, 99) == [select, argv] by {
      hide VerbOf, DecInt, Dec;
    }
    var tail := [select, argv];
    var log := [select] + tail;
    assert log[1..] == tail;
    SelectApplies(others, s, 0, load);
    ApplyPExpireAt(others, s, "k", 1000, load);
    hide Apply, VerbOf, DecInt, Dec, FeedCommands;
    Applied(others, s, select, argv, load);
    assert ApplyAll(others, s, log, load) == ApplyAll(others, s, tail, load);
  }

  lemma LateRewrite(db: Db, o: Order)
    requires db == map["k" := Item(Str("v"), 100)] && o == Order(["k"], map[]) && ValidOrders([db], [o])
    ensures RewriteCommands([db], [o], 0, 101) == [["SELECT", Dec(0)]]
  {
    assert "k" in o.keys && o.keys[1..] == [];
    assert KeyCommands("k", db["k"], o, 101) == [];
    assert RewriteCommands([db], [o], 1, 101) == [];
    hide Dec;
    assert KeysCommands(db, o.keys, o, 101) == [];
  }

  /** SET k v EX 10 at time 0 expires at 10000; loaded from the log at time 5000 it expires at 15000. */
  lemma SetExMovesExpiry(others: Others)
    ensures var argv := ["SET", "k", "v", "EX", DecInt(10)];
      var live := Run(others, Empty(1), argv, 0, false);
      && live.Some? && Relative(argv)
      && "k" in live.value.data[0] && live.value.data[0]["k"].expire == 10000
      && live.value.sent == argv
      && ApplyAll(others, Empty(1), Logged(argv, 0), 5000).Some?
      && "k" in ApplyAll(others, Empty(1), Logged(argv, 0), 5000).value.data[0]
      && ApplyAll(others, Empty(1), Logged(argv, 0), 5000).value.data[0]["k"].expire == 15000
  {
    var argv := ["SET", "k", "v", "EX", DecInt(10)];
    assert VerbOf(argv[0]) == Set by {
      LoggedVerbs();
    }
    DecIntIsNumber(10);
    AtoiOfDecInt(10);
    UpperFixed("EX");
    hide VerbOf, DecInt, Dec, Atoi, IsNumber, Upper;
    var o := SetOptions(false, false, Some(argv[4]), 1000);
    assert Flag(argv[3], 'E') && !Flag(argv[3], 'N') && !Flag(argv[3], 'X');
    assert ParseOptions(argv, 5, o) == o;
    assert ParseOptions(argv, 3, NO_OPTIONS) == o;
    assert Logged(argv, 0) == [argv];
    assert RunDb(others, map[], argv, 0, false).db["k"].expire == 10000;
    assert RunDb(others, map[], argv, 5000, true).db["k"].expire == 15000;
  }

  /** A command on a server with one database. */
  lemma OneDb(others: Others, db: Db, argv: seq<string>, now: nat, e: Effect)
    requires Modelled(argv) && VerbOf(argv[0]) != Select
    ensures var s := Session([db], 0);
      && (RunDb(others, db, argv, now, false) == e ==> Run(others, s, argv, now, false) == Some(Outcome([e.db], e.sent)))
      && (RunDb(others, db, argv, now, true) == e ==> ApplyAll(others, s, [argv], now) == Some(Session([e.db], 0)))
  {
    hide RunDb, VerbOf;
    var s := Session([db], 0);
    assert s.data[0 := e.db] == [e.db] && [argv][1..] == [];
  }

  lemma MoreVerbs()
    ensures VerbOf("RESTORE") == Restore && VerbOf("INCRBYFLOAT") == IncrByFloat
  {
    UpperFixed("RESTORE");
    UpperFixed("INCRBYFLOAT");
  }

  lemma RestoreRuns(others: Others, v: Value, name: string, ttl: string, now: nat, loading: bool)
    requires VerbOf(name) == Restore && others.payload("p") == Some(v) && IsNumber(ttl) && Atoi(ttl) > 0
    ensures var argv := [name, "k", ttl, "p"];
      && Modelled(argv) && Relative(argv) && Logged(argv, now) == [argv]
      && RunDb(others, map[], argv, now, loading) == Effect(map["k" := Item(v, Atoi(ttl) + now)], argv)
  {
    hide VerbOf, Atoi, IsNumber;
    var none: Db := map[];
    assert none["k" := Item(v, Atoi(ttl) + now)] == map["k" := Item(v, Atoi(ttl) + now)];
  }

  /** RESTORE k 10000 p at time 0 expires at 10000; loaded from the log at time 5000 it expires at 15000. */
  lemma RestoreMovesExpiry(others: Others, v: Value)
    requires others.payload("p") == Some(v)
    ensures var argv := ["RESTORE", "k", DecInt(10000), "p"];
      && Run(others, Session([map[]], 0), argv, 0, false) == Some(Outcome([map["k" := Item(v, 10000)]], argv))
      && Relative(argv)
      && ApplyAll(others, Session([map[]], 0), Logged(argv, 0), 5000) == Some(Session([map["k" := Item(v, 15000)]], 0))
  {
    var ttl := DecInt(10000);
    var argv := ["RESTORE", "k", ttl, "p"];
    DecIntIsNumber(10000);
    AtoiOfDecInt(10000);
    MoreVerbs();
    RestoreRuns(others, v, "RESTORE", ttl, 0, false);
    RestoreRuns(others, v, "RESTORE", ttl, 5000, true);
    hide *;
    OneDb(others, map[], argv, 0, Effect(map["k" := Item(v, 10000)], argv));
    OneDb(others, map[], argv, 5000, Effect(map["k" := Item(v, 15000)], argv));
  }

  lemma IncrByFloatRuns(others: Others, name: string, db: Db, sum: ShortString)
    requires VerbOf(name) == IncrByFloat && others.sum(Some("1"), "1") == Some(sum)
    requires db == map["k" := Item(Str("1"), 10000)]
    ensures var argv := [name, "k", "1"];
      && Modelled(argv) && DropsExpiry(db, argv)
      && RunDb(others, db, argv, 0, false) == Effect(map["k" := Item(Str(sum), 10000)], ["SET", "k", sum])
  {
    hide VerbOf;
    assert db["k" := Item(Str(sum), 10000)] == map["k" := Item(Str(sum), 10000)];
  }

  lemma SetLoads(others: Others, db: Db, text: string, load: nat)
    ensures ApplyAll(others, Session([db], 0), Logged(["SET", "k", text], 0), load)
         == Some(Session([db["k" := Item(Str(text), NO_EXPIRE)]], 0))
  {
    var s, entry := Session([db], 0), ["SET", "k", text];
    LoggedVerbs();
    hide VerbOf, Apply;
    assert Logged(entry, 0) == [entry];
    ApplySet(others, s, "k", text, load);
    assert s.data[0 := SetKey(db, "k", Str(text))] == [SetKey(db, "k", Str(text))];
    Applied(others, s, entry, entry, load);
  }

  /** INCRBYFLOAT on a key that expires at 10000 is logged as a SET; loaded at any time, the key never expires. */
  lemma IncrByFloatDropsExpiry(others: Others, sum: ShortString, load: nat)
    requires others.sum(Some("1"), "1") == Some(sum)
    ensures var db: Db := map["k" := Item(Str("1"), 10000)];
      var argv, entry := ["INCRBYFLOAT", "k", "1"], ["SET", "k", sum];
      && Run(others, Session([db], 0), argv, 0, false)
           == Some(Outcome([map["k" := Item(Str(sum), 10000)]], entry))
      && DropsExpiry(db, argv)
      && ApplyAll(others, Session([db], 0), Logged(entry, 0), load)
           == Some(Session([map["k" := Item(Str(sum), NO_EXPIRE)]], 0))
  {
    var db: Db := map["k" := Item(Str("1"), 10000)];
    assert db["k" := Item(Str(sum), NO_EXPIRE)] == map["k" := Item(Str(sum), NO_EXPIRE)];
    MoreVerbs();
    hide *;
    IncrByFloatRuns(others, "INCRBYFLOAT", db, sum);
    OneDb(others, db, ["INCRBYFLOAT", "k", "1"], 0, Effect(map["k" := Item(Str(sum), 10000)], ["SET", "k", sum]));
    SetLoads(others, db, sum, load);
  }
}
