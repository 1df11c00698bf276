/** Logs whose times are absolute: they load to the same dataset at any time. What a rewrite prints is such a log, and
    so is what commands feed, but for SET with EX or PX and RESTORE with a time to live. */
module AofAbsolute {
  import opened Wrappers
  import opened AofFormat
  import opened AofCommands
  import opened AofReplay
  import opened AofRewrite
  import opened AofRebuild

  /** Commands that the log should not hold: their times count from the clock at loading. */
  predicate CountsFromLoading(argv: seq<string>) {
    Modelled(argv) && (VerbOf(argv[0]) in {SetEx, PSetEx, Expire, PExpire} || Relative(argv))
  }

  /** All commands of a log give absolute times. */
  predicate Absolute(log: string)
    decreases |log|
  {
    log != [] && Parse(log).Some? ==>
      (ParseShrinks(log); !CountsFromLoading(Parse(log).value.0) && Absolute(Parse(log).value.1))
  }

  lemma ApplyAbsolute(others: Others, s: Session, argv: seq<string>, a: nat, b: nat)
    requires Selected(s) && !CountsFromLoading(argv)
    ensures Apply(others, s, argv, a) == Apply(others, s, argv, b)
  {
    if Modelled(argv) && VerbOf(argv[0]) in {Set, Del, RPush, SAdd, ZAdd, HMSet, Restore} {
      RunTimeless(others, s.data[s.sel], argv, 0, a);
      RunTimeless(others, s.data[s.sel], argv, 0, b);
    }
    hide VerbOf, Atoi, IsNumber, ParseOptions, Relative, DoSet, DoGrow, DoRestore, DoIncrByFloat;
  }

  /** Such a log loads to the same dataset at any time. */
  lemma {:induction false} AbsoluteTimeless(others: Others, s: Session, log: string, a: nat, b: nat)
    requires Selected(s) && Absolute(log)
    ensures Replay(others, s, log, a) == Replay(others, s, log, b)
    decreases |log|
  {
    if log != [] && Parse(log).Some? {
      ParseShrinks(log);
      var (argv, rest) := Parse(log).value;
      ApplyAbsolute(others, s, argv, a, b);
      hide Parse, Apply, CountsFromLoading;
      if Apply(others, s, argv, a).Some? {
        AbsoluteTimeless(others, Apply(others, s, argv, a).value, rest, a, b);
      }
    }
  }

  // ---- printed logs

  predicate NoneCounts(log: seq<seq<string>>) {
    forall i :: 0 <= i < |log| ==> !CountsFromLoading(log[i])
  }

  lemma {:induction false} PrintedAbsolute(log: seq<seq<string>>)
    requires AllPrintable(log) && NoneCounts(log)
    ensures Absolute(PrintAll(log))
    decreases |log|
  {
    if log != [] {
      assert AllPrintable(log[1..]) && NoneCounts(log[1..]);
      ParsePrinted(log[0], PrintAll(log[1..]));
      PrintedAbsolute(log[1..]);
      hide Parse, Print, Printable, CountsFromLoading;
    }
  }

  /** A log that is read completely may be continued. */
  lemma {:induction false} AbsoluteAppend(others: Others, s: Session, a: string, b: string, load: nat)
    requires Selected(s) && Replay(others, s, a, load).Some? && Absolute(a) && Absolute(b)
    ensures Absolute(a + b)
    decreases |a|
  {
    if a == [] {
      assert a + b == b;
    } else {
      ParseAppend(a, []);
      ParseAppend(a, b);
      var (argv, rest) := Parse(a).value;
      hide Parse, Apply, CountsFromLoading;
      AbsoluteAppend(others, Apply(others, s, argv, load).value, rest, b, load);
    }
  }

  /** A plain SET has no expiry, and SELECT and PEXPIREAT do not count from loading either. */
  lemma NamesAbsolute(name: string, argv: seq<string>)
    requires argv != [] && argv[0] == name
    requires VerbOf(name) in {Select, PExpireAt, Del, RPush, SAdd, ZAdd, HMSet} || (VerbOf(name) == Set && |argv| == 3)
    ensures !CountsFromLoading(argv)
  {
    hide VerbOf;
    if |argv| == 3 {
      assert ParseOptions(argv, 3, NO_OPTIONS) == NO_OPTIONS;
    }
  }

  lemma SentIs(others: Others, s: Session, argv: seq<string>, now: nat)
    requires Selected(s) && Run(others, s, argv, now, false).Some?
    ensures var sent := Run(others, s, argv, now, false).value.sent;
      sent == [] || sent == argv || (|sent| == 2 && sent[0] == "DEL") || (|sent| == 3 && sent[0] == "SET")
  {
    hide VerbOf, ParseOptions, Grow, Atoi, IsNumber, When, SetKey, SetExpire;
  }

  /** What a dirty command logs. */
  lemma LoggedAbsolute(others: Others, s: Session, argv: seq<string>, now: nat)
    requires Selected(s) && argv != [] && Run(others, s, argv, now, false).Some? && !Relative(argv)
    ensures NoneCounts(Logged(Run(others, s, argv, now, false).value.sent, now))
  {
    var sent := Run(others, s, argv, now, false).value.sent;
    SentIs(others, s, argv, now);
    LoggedVerbs();
    hide VerbOf, Run, RunDb, DecInt, When, Relative;
    if sent != [] {
      var log, verb := Logged(sent, now), VerbOf(sent[0]);
      if sent[0] == "DEL" {
        NamesAbsolute("DEL", sent);
      }
      if |sent| == 3 && sent[0] == "SET" {
        NamesAbsolute("SET", sent);
      }
      if |log| == 1 && log[0] != sent {
        NamesAbsolute("PEXPIREAT", log[0]);
      } else if |log| == 2 {
        NamesAbsolute("SET", log[0]);
        NamesAbsolute("PEXPIREAT", log[1]);
      }
    }
  }

  // ---- rewritten logs

  lemma NoneCountsAppend(a: seq<seq<string>>, b: seq<seq<string>>)
    requires NoneCounts(a) && NoneCounts(b)
    ensures NoneCounts(a + b)
  {
    hide CountsFromLoading;
  }

  lemma {:induction false} ChunksAbsolute(name: string, k: string, groups: seq<seq<string>>)
    requires VerbOf(name) in {RPush, SAdd, ZAdd, HMSet}
    ensures NoneCounts(Chunks(name, k, groups))
    decreases |groups|
  {
    if groups != [] {
      var c := Min(ITEMS_PER_CMD, |groups|);
      var argv := [name, k] + Flat(groups[..c]);
      NamesAbsolute(name, argv);
      ChunksAbsolute(name, k, groups[c..]);
      hide CountsFromLoading;
      NoneCountsAppend([argv], Chunks(name, k, groups[c..]));
    }
  }

  lemma KeyAbsolute(k: string, item: Item, o: Order, now: nat)
    requires MembersOk(item.val, k, o)
    ensures NoneCounts(KeyCommands(k, item, o, now))
  {
    LoggedVerbs();
    hide VerbOf, CountsFromLoading, MembersOk, Past, DecInt;
    var v := item.val;
    if v.Str? {
      NamesAbsolute("SET", ["SET", k, v.text]);
    } else {
      hide Chunks, Groups;
      ChunksAbsolute(NameFor(v), k, Groups(v, k, o));
    }
    NamesAbsolute("PEXPIREAT", ["PEXPIREAT", k, DecInt(item.expire)]);
    NoneCountsAppend(ObjectCommands(k, v, o), ExpireCommands(k, item.expire));
  }

  lemma {:induction false} KeysAbsolute(db: Db, keys: seq<string>, o: Order, now: nat)
    requires forall k :: k in keys ==> k in db && MembersOk(db[k].val, k, o)
    ensures NoneCounts(KeysCommands(db, keys, o, now))
    decreases |keys|
  {
    if keys != [] {
      KeyAbsolute(keys[0], db[keys[0]], o, now);
      KeysAbsolute(db, keys[1..], o, now);
      NoneCountsAppend(KeyCommands(keys[0], db[keys[0]], o, now), KeysCommands(db, keys[1..], o, now));
      hide *;
    }
  }

  lemma {:induction false} RewriteAbsolute(data: seq<Db>, orders: seq<Order>, id: nat, now: nat)
    requires ValidOrders(data, orders) && id <= |data|
    ensures NoneCounts(RewriteCommands(data, orders, id, now))
    decreases |data| - id
  {
    if id < |data| {
      var db, o := data[id], orders[id];
      OrderKeys(db, o);
      KeysAbsolute(db, o.keys, o, now);
      LoggedVerbs();
      hide VerbOf, KeysCommands, Dec, CountsFromLoading;
      NamesAbsolute("SELECT", ["SELECT", Dec(id)]);
      NoneCountsAppend([["SELECT", Dec(id)]], KeysCommands(db, o.keys, o, now));
      RewriteAbsolute(data, orders, id + 1, now);
      hide *;
      NoneCountsAppend(DbCommands(id, db, o, now), RewriteCommands(data, orders, id + 1, now));
    }
  }
}
