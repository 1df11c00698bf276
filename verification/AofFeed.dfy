/** What feedAppendOnlyFile appends, why a log so extended still loads to the dataset, and what a flush leaves
    in the file. */
module AofFeed {
  import opened Wrappers
  import opened AofFormat
  import opened AofCommands
  import opened AofReplay
  import opened AofRewrite
  import opened AofRebuild
  import opened AofAbsolute

  const NO_DB: int := -1

  /** A log is good for a dataset when its times are absolute and, loaded at any time, it gives the dataset but for
      keys past their expiry, and leaves the database selected that the server believes is selected. */
  ghost predicate Loads(others: Others, log: string, data: seq<Db>, selected: int, now: nat)
    requires data != []
  {
    Absolute(log) && forall load: nat :: LoadsAt(others, log, data, selected, now, load)
  }

  ghost predicate LoadsAt(others: Others, log: string, data: seq<Db>, selected: int, now: nat, load: nat)
    requires data != []
  {
    var r := Replay(others, Empty(|data|), log, load);
    r.Some? && Trails(r.value.data, data, now) && (selected != NO_DB ==> r.value.sel == selected)
  }

  function FeedCommands(selected: int, id: nat, argv: seq<string>, now: nat): seq<seq<string>> {
    (if id != selected then [["SELECT", Dec(id)]] else []) + Logged(argv, now)
  }

  lemma LoggedPrintable(argv: seq<string>, now: nat)
    requires Printable(argv) && TimeFits(argv, now)
    ensures AllPrintable(Logged(argv, now))
  {
    hide VerbOf, DecInt, When;
    if |argv| >= 3 && LongLong(When(VerbOf(argv[0]), argv[2], now)) {
      DecIntShort(When(VerbOf(argv[0]), argv[2], now));
    }
  }

  lemma FeedPrintable(selected: int, id: nat, argv: seq<string>, now: nat)
    requires Printable(argv) && TimeFits(argv, now) && id <= INT_MAX
    ensures AllPrintable(FeedCommands(selected, id, argv, now))
  {
    LoggedPrintable(argv, now);
    Small(id);
    hide Dec, Logged;
    var select: seq<seq<string>> := [["SELECT", Dec(id)]];
    assert AllPrintable(select);
    PrintableAppend(select, Logged(argv, now));
    assert [] + Logged(argv, now) == Logged(argv, now);
  }

  /** Wherever the log's last command was, a fed command runs in its own database. */
  lemma FeedApplies(others: Others, s: Session, selected: int, id: nat, argv: seq<string>, now: nat, load: nat)
    requires Selected(s) && id < |s.data| && (selected != NO_DB ==> s.sel == selected)
    ensures ApplyAll(others, s, FeedCommands(selected, id, argv, now), load)
         == ApplyAll(others, Session(s.data, id), Logged(argv, now), load)
  {
    var log := Logged(argv, now);
    hide Logged, Dec, Apply;
    if id != selected {
      SelectApplies(others, s, id, load);
      assert ([["SELECT", Dec(id)]] + log)[1..] == log;
    } else {
      assert [] + log == log;
    }
  }

  ghost predicate Callable(others: Others, s: Session, argv: seq<string>, now: nat)
    requires Selected(s)
  {
    Printable(argv) && VerbOf(argv[0]) != Select && Run(others, s, argv, now, false).Some?
  }

  /** A command sees no key that is past its expiry at `horizon`, so that it does the same without such keys. */
  ghost predicate Blind(others: Others, s: Session, argv: seq<string>, now: nat, horizon: nat)
    requires Selected(s)
  {
    Fresh(s, argv, horizon) && OthersTrail(others, s, argv, now, horizon)
  }

  /** The log entry of a command does what the command did, whenever it is loaded. The commands for which it does not
      are SET with EX or PX, RESTORE with a time to live, and INCRBYFLOAT on a key with an expiry. */
  predicate Reproducible(db: Db, argv: seq<string>) {
    !Relative(argv) && !DropsExpiry(db, argv)
  }

  lemma SentKind(others: Others, s: Session, argv: seq<string>, now: nat)
    requires Selected(s) && Callable(others, s, argv, now) && TimeFits(argv, now)
    ensures var sent := Run(others, s, argv, now, false).value.sent;
      sent != [] ==> Printable(sent) && TimeFits(sent, now)
  {
    var sent := Run(others, s, argv, now, false).value.sent;
    SentIs(others, s, argv, now);
    SentShort(others, s, argv, now);
    LoggedVerbs();
    hide VerbOf, When, Run;
    if |sent| == 3 && sent[0] == "SET" {
      assert ParseOptions(sent, 3, NO_OPTIONS) == NO_OPTIONS;
    }
  }

  lemma SentShort(others: Others, s: Session, argv: seq<string>, now: nat)
    requires Selected(s) && Callable(others, s, argv, now)
    ensures forall i :: 0 <= i < |Run(others, s, argv, now, false).value.sent| ==>
      Short(Run(others, s, argv, now, false).value.sent[i])
  {
    var sent := Run(others, s, argv, now, false).value.sent;
    hide VerbOf, ParseOptions, Grow, Atoi, IsNumber, When, SetKey, SetExpire;
    if Modelled(argv) {
      assert Short(argv[1]) && Short("DEL") && Short("SET");
    }
  }

  /** A log that is good for the dataset is good, with what is fed to it, for the dataset that a dirty command makes,
      if and only if the command's log entry reproduces it. */
  lemma FeedLoads(others: Others, log: string, s: Session, selected: int, argv: seq<string>, now: nat, horizon: nat)
    requires s.data != [] && |s.data| <= INT_MAX && Selected(s) && Loads(others, log, s.data, selected, horizon)
    requires Callable(others, s, argv, now) && Blind(others, s, argv, now, horizon) && TimeFits(argv, now)
    ensures var o := Run(others, s, argv, now, false).value;
      && |o.data| == |s.data|
      && (o.sent == [] ==> o.data == s.data)
      && (o.sent != [] ==>
           (Loads(others, log + PrintAll(FeedCommands(selected, s.sel, o.sent, now)), o.data, s.sel, horizon)
            <==> Reproducible(s.data[s.sel], argv)))
  {
    var o := Run(others, s, argv, now, false).value;
    assert |o.data| == |s.data|;
    SentKind(others, s, argv, now);
    if o.sent == [] {
      assert LoadsAt(others, log, s.data, selected, horizon, 0);
      LogTrails(others, s, Replay(others, Empty(|s.data|), log, 0).value.data, argv, now, horizon, 0);
    } else {
      var text := PrintAll(FeedCommands(selected, s.sel, o.sent, now));
      FeedPrintable(selected, s.sel, o.sent, now);
      assert argv != [];
      hide VerbOf, Run, Fresh, Printable, TimeFits, Relative, DropsExpiry, OthersTrail, PrintAll, FeedCommands;
      var kept := !DropsExpiry(s.data[s.sel], argv);
      forall load: nat
        ensures LoadsAt(others, log + text, o.data, s.sel, horizon, load)
           <==> (Relative(argv) ==> load == now) && kept
      {
        FeedLoadsAt(others, log, s, selected, argv, now, horizon, load);
      }
      if !Relative(argv) {
        FeedAbsolute(others, log, s, selected, argv, now);
      }
      assert LoadsAt(others, log + text, o.data, s.sel, horizon, now + 1) <==> !Relative(argv) && kept;
    }
  }

  lemma FeedAbsolute(others: Others, log: string, s: Session, selected: int, argv: seq<string>, now: nat)
    requires s.data != [] && Selected(s) && Absolute(log) && Replay(others, Empty(|s.data|), log, 0).Some?
    requires argv != [] && Run(others, s, argv, now, false).Some? && !Relative(argv)
    requires AllPrintable(FeedCommands(selected, s.sel, Run(others, s, argv, now, false).value.sent, now))
    ensures Absolute(log + PrintAll(FeedCommands(selected, s.sel, Run(others, s, argv, now, false).value.sent, now)))
  {
    var sent := Run(others, s, argv, now, false).value.sent;
    var cmds := FeedCommands(selected, s.sel, sent, now);
    LoggedAbsolute(others, s, argv, now);
    LoggedVerbs();
    hide VerbOf, Run, Relative, Logged, CountsFromLoading, Dec, Absolute, Replay, PrintAll, AllPrintable;
    var select: seq<seq<string>> := [["SELECT", Dec(s.sel)]];
    NamesAbsolute("SELECT", select[0]);
    NoneCountsAppend(select, Logged(sent, now));
    NoneCountsAppend([], Logged(sent, now));
    PrintedAbsolute(cmds);
    AbsoluteAppend(others, Empty(|s.data|), log, PrintAll(cmds), 0);
  }

  /** The same for a log in two parts, if there is such a log and the command is blind. */
  lemma FeedKeeps(others: Others, there: bool, head: string, tail: string, s: Session, selected: int,
      argv: seq<string>, now: nat, horizon: nat)
    requires s.data != [] && |s.data| <= INT_MAX && Selected(s)
    requires there ==> Loads(others, head + tail, s.data, selected, horizon) && Blind(others, s, argv, now, horizon)
    requires Callable(others, s, argv, now) && TimeFits(argv, now)
    ensures var o := Run(others, s, argv, now, false).value;
      && |o.data| == |s.data|
      && (there && o.sent == [] ==> o.data == s.data)
      && (there && o.sent != [] ==>
           (Loads(others, head + (tail + PrintAll(FeedCommands(selected, s.sel, o.sent, now))), o.data, s.sel, horizon)
            <==> Reproducible(s.data[s.sel], argv)))
  {
    var o := Run(others, s, argv, now, false).value;
    assert |o.data| == |s.data|;
    var text := PrintAll(FeedCommands(selected, s.sel, o.sent, now));
    hide *;
    if there {
      FeedLoads(others, head + tail, s, selected, argv, now, horizon);
      Assoc(head, tail, text);
    }
  }

  lemma FeedLoadsAt(others: Others, log: string, s: Session, selected: int, argv: seq<string>, now: nat, horizon: nat,
      load: nat)
    requires s.data != [] && Selected(s) && LoadsAt(others, log, s.data, selected, horizon, load)
    requires argv != [] && VerbOf(argv[0]) != Select && TimeFits(argv, now)
    requires Run(others, s, argv, now, false).Some? && Blind(others, s, argv, now, horizon)
    requires Run(others, s, argv, now, false).value.sent != []
    requires AllPrintable(FeedCommands(selected, s.sel, Run(others, s, argv, now, false).value.sent, now))
    ensures var o := Run(others, s, argv, now, false).value;
      |o.data| == |s.data|
      && (LoadsAt(others, log + PrintAll(FeedCommands(selected, s.sel, o.sent, now)), o.data, s.sel, horizon, load)
          <==> (Relative(argv) ==> load == now) && !DropsExpiry(s.data[s.sel], argv))
  {
    var o := Run(others, s, argv, now, false).value;
    assert |o.data| == |s.data|;
    var cmds := FeedCommands(selected, s.sel, o.sent, now);
    var r := Replay(others, Empty(|s.data|), log, load).value;
    hide VerbOf, Run, Fresh, Relative, DropsExpiry, OthersTrail, PrintAll, FeedCommands, Replay, Logged, ApplyAll,
      Trails, AllPrintable, TimeFits;
    ReplayAppend(others, Empty(|s.data|), log, PrintAll(cmds), load);
    ReplayPrinted(others, r, cmds, load);
    FeedApplies(others, r, selected, s.sel, o.sent, now, load);
    LogTrails(others, s, r.data, argv, now, horizon, load);
  }

  lemma LoadsLater(others: Others, log: string, data: seq<Db>, selected: int, now: nat, later: nat)
    requires data != [] && Loads(others, log, data, selected, now) && now <= later
    ensures Loads(others, log, data, selected, later) && Loads(others, log, data, NO_DB, later)
  {
    hide Replay, Trails;
    forall load: nat
      ensures LoadsAt(others, log, data, selected, later, load) && LoadsAt(others, log, data, NO_DB, later, load)
    {
      assert LoadsAt(others, log, data, selected, now, load);
      TrailsLater(Replay(others, Empty(|data|), log, load).value.data, data, now, later);
    }
  }

  /** The log that a child leaves is good for the dataset it was forked with, by the parent's clock, if and only if
      no key passes its expiry between that clock and the child's reading of its own. */
  lemma RewriteLoads(others: Others, data: seq<Db>, orders: seq<Order>, read: nat, now: nat)
    requires data != [] && ValidOrders(data, orders) && FitsC(data)
    ensures Loads(others, PrintAll(RewriteCommands(data, orders, 0, read)), data, NO_DB, now) <==> InTime(data, read, now)
  {
    var log := PrintAll(RewriteCommands(data, orders, 0, read));
    RewritePrintable(data, orders, 0, read);
    RewriteAbsolute(data, orders, 0, read);
    hide Replay, Trails, RewriteCommands, ValidOrders, FitsC, UnexpiredAll, InTime, NoneCounts, AllPrintable, Absolute;
    PrintedAbsolute(RewriteCommands(data, orders, 0, read));
    UnexpiredTrails(data, read, now);
    forall load: nat
      ensures LoadsAt(others, log, data, NO_DB, now, load) <==> InTime(data, read, now)
    {
      RewriteRebuilds(others, data, orders, read, load);
    }
    assert LoadsAt(others, log, data, NO_DB, now, 0) <==> InTime(data, read, now);
  }

  /** Once the parent's clock has reached the child's reading it is. */
  lemma InTimeLater(data: seq<Db>, read: nat, now: nat)
    requires read <= now
    ensures InTime(data, read, now)
  {
  }

  /** What a log entry leaves of the keys that had not expired when a child read the clock. */
  ghost predicate SurvivesRewrite(others: Others, s: Session, read: nat, argv: seq<string>, now: nat, horizon: nat,
      load: nat)
    requires Selected(s) && Run(others, s, argv, now, false).Some?
  {
    var o := Run(others, s, argv, now, false).value;
    var q := ApplyAll(others, Session(UnexpiredAll(s.data, read), s.sel), Logged(o.sent, now), load);
    q.Some? && q.value.sel == s.sel && Trails(q.value.data, o.data, horizon)
  }

  /** The first command after a fork, executed before the child has read the clock: what the child writes stays good
      if and only if the command's log entry, executed without the keys that will have expired, leaves what the
      command leaves, but for keys past their expiry at that time. */
  lemma FirstCommandLoads(others: Others, s: Session, orders: seq<Order>, read: nat, argv: seq<string>, now: nat,
      horizon: nat)
    requires Selected(s) && ValidOrders(s.data, orders) && FitsC(s.data)
    requires Callable(others, s, argv, now) && TimeFits(argv, now) && !Relative(argv)
    requires Run(others, s, argv, now, false).value.sent != []
    ensures var o := Run(others, s, argv, now, false).value;
      var log := PrintAll(RewriteCommands(s.data, orders, 0, read));
      |o.data| == |s.data|
      && (Loads(others, log + PrintAll(FeedCommands(NO_DB, s.sel, o.sent, now)), o.data, s.sel, horizon)
          <==> forall load: nat :: SurvivesRewrite(others, s, read, argv, now, horizon, load))
  {
    var o := Run(others, s, argv, now, false).value;
    assert |o.data| == |s.data|;
    var log := PrintAll(RewriteCommands(s.data, orders, 0, read));
    var cmds := FeedCommands(NO_DB, s.sel, o.sent, now);
    RewritePrintable(s.data, orders, 0, read);
    RewriteAbsolute(s.data, orders, 0, read);
    SentKind(others, s, argv, now);
    FeedPrintable(NO_DB, s.sel, o.sent, now);
    assert argv != [];
    hide VerbOf, Run, Relative, PrintAll, FeedCommands, Replay, Logged, ApplyAll, Trails, AllPrintable, TimeFits,
      RewriteCommands, ValidOrders, FitsC, UnexpiredAll, Absolute, NoneCounts, Printable;
    PrintedAbsolute(RewriteCommands(s.data, orders, 0, read));
    RewriteRebuilds(others, s.data, orders, read, 0);
    FeedAbsolute(others, log, s, NO_DB, argv, now);
    forall load: nat
      ensures LoadsAt(others, log + PrintAll(cmds), o.data, s.sel, horizon, load)
         <==> SurvivesRewrite(others, s, read, argv, now, horizon, load)
    {
      RewriteRebuilds(others, s.data, orders, read, load);
      var r := Replay(others, Empty(|s.data|), log, load).value;
      ReplayAppend(others, Empty(|s.data|), log, PrintAll(cmds), load);
      ReplayPrinted(others, r, cmds, load);
      FeedApplies(others, r, NO_DB, s.sel, o.sent, now, load);
    }
  }

  /** A server that starts from a log that was good loads a dataset that the log is good for. */
  lemma RestartLoads(others: Others, log: string, data: seq<Db>, selected: int, now: nat, later: nat)
    requires data != [] && Loads(others, log, data, selected, now)
    ensures var r := Replay(others, Empty(|data|), log, later);
      r.Some? && Trails(r.value.data, data, now) && Loads(others, log, r.value.data, NO_DB, later)
  {
    hide Replay, Trails, Absolute;
    assert LoadsAt(others, log, data, selected, now, later);
    var d := Replay(others, Empty(|data|), log, later).value.data;
    TrailsItself(d, later);
    forall load: nat
      ensures LoadsAt(others, log, d, NO_DB, later, load)
    {
      AbsoluteTimeless(others, Empty(|data|), log, load, later);
    }
  }

  lemma TrailsItself(data: seq<Db>, now: nat)
    ensures Trails(data, data, now)
  {
  }

  // ---- flushing

  /** ftruncate. */
  function Resize(file: string, size: nat): (r: string)
    ensures |r| == size
  {
    if size <= |file| then file[..size] else file + seq(size - |file|, i => 0 as char)
  }

  /** The file, the buffer and the recorded size. */
  datatype Disk = Disk(file: string, buf: string, size: int)

  /** A write of the buffer that returns n, followed on a short write by an ftruncate that may succeed. */
  function Flushed(d: Disk, n: int, truncated: bool): Disk
    requires -1 <= n <= |d.buf|
  {
    if n == |d.buf| then Disk(d.file + d.buf, [], d.size + n)
    else if n == -1 then d
    else if truncated && d.size >= 0 then d.(file := Resize(d.file + d.buf[..n], d.size))
    else if n > 0 then Disk(d.file + d.buf[..n], d.buf[n..], d.size + n)
    else d
  }

  /** Whatever the write and the truncation do, file and buffer together stay the same log if and only if the
      truncation, when it comes to one, goes by the file's true size. */
  lemma FlushKeepsLog(d: Disk, n: int, truncated: bool)
    requires -1 <= n <= |d.buf| && d.size >= 0
    ensures var d1 := Flushed(d, n, truncated);
      && (d1.file + d1.buf == d.file + d.buf <==> (0 <= n < |d.buf| && truncated ==> d.size == |d.file|))
      && (d.size == |d.file| ==> d1.size == |d1.file|)
    ensures var d1 := Flushed(d, n, truncated);
      && (n == |d.buf| ==> d1.file == d.file + d.buf && d1.buf == [])
      && (n == -1 ==> n == |d.buf| || d1 == d)
      && (0 <= n < |d.buf| && !truncated ==> d1.file == d.file + d.buf[..n] && d1.buf == d.buf[n..])
      && (0 <= n < |d.buf| && truncated && d.size == |d.file| ==> d1 == d)
  {
    var d1 := Flushed(d, n, truncated);
    if n == |d.buf| {
      assert d1.file + d1.buf == d.file + d.buf;
    } else if 0 <= n && truncated {
      assert |d1.file + d1.buf| == d.size + |d.buf|;
      if d.size == |d.file| {
        assert (d.file + d.buf[..n])[..d.size] == d.file;
      }
    } else if n > 0 {
      assert d.file + d.buf[..n] + d.buf[n..] == d.file + d.buf;
    }
  }
}
