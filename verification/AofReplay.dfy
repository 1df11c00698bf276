/** Replaying a log: loadAppendOnlyFile on text, and how a copy that lacks expired keys keeps up with the
    dataset. */
module AofReplay {
  import opened Wrappers
  import opened AofFormat
  import opened AofCommands

  // ---- loading

  /** loadAppendOnlyFile's loop: None when it stops at a format error or an unknown command. */
  function Replay(others: Others, s: Session, log: string, load: nat): (r: Option<Session>)
    requires Selected(s)
    ensures r.Some? ==> Selected(r.value) && |r.value.data| == |s.data|
    decreases |log|
  {
    if log == [] then Some(s) else
      match Parse(log)
      case None => None
      case Some((argv, rest)) =>
        ParseAppend(log, []);
        match Apply(others, s, argv, load)
        case None => None
        case Some(s1) => Replay(others, s1, rest, load)
  }

  function Empty(dbnum: nat): (s: Session)
    requires dbnum > 0
    ensures Selected(s) && |s.data| == dbnum
  {
    Session(seq(dbnum, i => map[]), 0)
  }

  method Load(others: Others, log: string, dbnum: nat, load: nat) returns (r: Option<Session>)
    requires dbnum > 0
    ensures r == Replay(others, Empty(dbnum), log, load)
  {
    var s, left := Empty(dbnum), log;
    while left != []
      invariant Selected(s)
      invariant Replay(others, s, left, load) == Replay(others, Empty(dbnum), log, load)
      decreases |left|
    {
      ParseShrinks(left);
      var cmd := Parse(left);
      if cmd.None? {
        return None;
      }
      var next := Apply(others, s, cmd.value.0, load);
      if next.None? {
        return None;
      }
      s, left := next.value, cmd.value.1;
    }
    r := Some(s);
  }

  lemma ParseShrinks(s: string)
    requires s != []
    ensures Parse(s).Some? ==> |Parse(s).value.1| < |s|
  {
    if Parse(s).Some? {
      ParseAppend(s, []);
    }
  }

  /** A log that loads is a state the rest of a longer log starts from. */
  lemma {:induction false} ReplayAppend(others: Others, s: Session, a: string, b: string, load: nat)
    requires Selected(s) && Replay(others, s, a, load).Some?
    ensures Replay(others, s, a + b, load) == Replay(others, Replay(others, s, a, load).value, b, load)
    decreases |a|
  {
    if a == [] {
      assert a + b == b;
    } else {
      ParseAppend(a, []);
      ParseAppend(a, b);
      var (argv, rest) := Parse(a).value;
      ReplayAppend(others, Apply(others, s, argv, load).value, rest, b, load);
    }
  }

  function PrintAll(log: seq<seq<string>>): string {
    if log == [] then [] else Print(log[0]) + PrintAll(log[1..])
  }

  lemma {:induction false} PrintAllAppend(a: seq<seq<string>>, b: seq<seq<string>>)
    ensures PrintAll(a + b) == PrintAll(a) + PrintAll(b)
  {
    if a == [] {
      assert a + b == b;
    } else {
      assert (a + b)[1..] == a[1..] + b;
      PrintAllAppend(a[1..], b);
    }
  }

  ghost predicate AllPrintable(log: seq<seq<string>>) {
    forall i :: 0 <= i < |log| ==> Printable(log[i])
  }

  /** Printed commands are executed as they were printed. */
  lemma {:induction false} ReplayPrinted(others: Others, s: Session, log: seq<seq<string>>, load: nat)
    requires Selected(s) && AllPrintable(log)
    ensures Replay(others, s, PrintAll(log), load) == ApplyAll(others, s, log, load)
    decreases |log|
  {
    if log != [] {
      ParsePrinted(log[0], PrintAll(log[1..]));
      hide Parse, Print, Printable, Apply;
      var s1 := Apply(others, s, log[0], load);
      if s1.Some? {
        ReplayPrinted(others, s1.value, log[1..], load);
      }
    }
  }

  lemma {:induction false} ApplyAllAppend(others: Others, s: Session, a: seq<seq<string>>, b: seq<seq<string>>,
      now: nat)
    requires Selected(s) && ApplyAll(others, s, a, now).Some?
    ensures ApplyAll(others, s, a + b, now) == ApplyAll(others, ApplyAll(others, s, a, now).value, b, now)
    decreases |a|
  {
    if a == [] {
      assert a + b == b;
    } else {
      assert (a + b)[1..] == a[1..] + b && (a + b)[0] == a[0];
      ApplyAllAppend(others, Apply(others, s, a[0], now).value, a[1..], b, now);
    }
  }

  // ---- copies without expired keys

  /** copy is db, except that keys past their expiry may be missing. */
  ghost predicate TrailsDb(copy: Db, db: Db, now: nat) {
    && (forall k :: k in copy ==> k in db && copy[k] == db[k])
    && (forall k :: k in db ==> k in copy || Past(db[k], now))
  }

  ghost predicate Trails(copy: seq<Db>, data: seq<Db>, now: nat) {
    |copy| == |data| && forall i :: 0 <= i < |data| ==> TrailsDb(copy[i], data[i], now)
  }

  ghost predicate NonePast(data: seq<Db>, now: nat) {
    forall i, k :: 0 <= i < |data| && k in data[i] ==> !Past(data[i][k], now)
  }

  /** When no key is past its expiry, a trailing copy is the dataset itself. */
  lemma TrailsExact(copy: seq<Db>, data: seq<Db>, now: nat)
    requires NonePast(data, now)
    ensures Trails(copy, data, now) <==> copy == data
  {
    if Trails(copy, data, now) {
      forall i | 0 <= i < |data|
        ensures copy[i] == data[i]
      {
        assert TrailsDb(copy[i], data[i], now);
        assert forall k :: k in data[i] ==> !Past(data[i][k], now);
        assert copy[i].Keys == data[i].Keys;
      }
    }
  }

  lemma TrailsLater(copy: seq<Db>, data: seq<Db>, now: nat, later: nat)
    requires Trails(copy, data, now) && now <= later
    ensures Trails(copy, data, later)
  {
    forall i | 0 <= i < |data|
      ensures TrailsDb(copy[i], data[i], later)
    {
      assert TrailsDb(copy[i], data[i], now);
    }
  }

  /** The key a command looks up, which expireIfNeeded deletes first when it is past its expiry. */
  predicate LooksUp(argv: seq<string>) {
    Modelled(argv) && VerbOf(argv[0]) != Del
  }

  ghost predicate Fresh(s: Session, argv: seq<string>, now: nat)
    requires Selected(s)
  {
    LooksUp(argv) ==> argv[1] in s.data[s.sel] ==> !Past(s.data[s.sel][argv[1]], now)
  }

  predicate SameAt(a: Db, b: Db, k: string) {
    (k in a <==> k in b) && (k in a ==> a[k] == b[k])
  }

  /** What two runs of a command share when they agree on its key. */
  ghost predicate Parallel(a: Db, b: Db, ea: Effect, eb: Effect, k: string) {
    && ea.sent == eb.sent
    && SameAt(ea.db, eb.db, k)
    && (forall j | j != k :: SameAt(ea.db, a, j))
    && (forall j | j != k :: SameAt(eb.db, b, j))
  }

  lemma SetLocal(a: Db, b: Db, o: SetOptions, k: string, text: string, now: nat, argv: seq<string>)
    requires SameAt(a, b, k)
    ensures Parallel(a, b, DoSet(a, o, k, text, now, argv), DoSet(b, o, k, text, now, argv), k)
  {
    hide Atoi, IsNumber;
  }

  lemma ExpireLocal(a: Db, b: Db, verb: Verb, k: string, s: string, now: nat, argv: seq<string>)
    requires SameAt(a, b, k)
    ensures Parallel(a, b, DoExpire(a, verb, k, s, now, false, argv), DoExpire(b, verb, k, s, now, false, argv), k)
  {
    hide Atoi, IsNumber, When;
  }

  lemma GrowLocal(a: Db, b: Db, verb: Verb, k: string, args: seq<string>, argv: seq<string>)
    requires SameAt(a, b, k)
    ensures Parallel(a, b, DoGrow(a, verb, k, args, argv), DoGrow(b, verb, k, args, argv), k)
  {
    hide Grow, AddsNothing;
  }

  lemma RestoreLocal(others: Others, a: Db, b: Db, k: string, ttl: string, payload: string, now: nat,
      argv: seq<string>)
    requires SameAt(a, b, k)
    ensures Parallel(a, b, DoRestore(others, a, k, ttl, payload, now, argv),
      DoRestore(others, b, k, ttl, payload, now, argv), k)
  {
    hide Atoi, IsNumber;
  }

  lemma IncrByFloatLocal(others: Others, a: Db, b: Db, k: string, increment: string)
    requires SameAt(a, b, k)
    ensures Parallel(a, b, DoIncrByFloat(others, a, k, increment), DoIncrByFloat(others, b, k, increment), k)
  {
  }

  /** A command that looks up a key depends on no other key, and changes no other. */
  lemma RunLocal(others: Others, a: Db, b: Db, argv: seq<string>, now: nat)
    requires LooksUp(argv) && SameAt(a, b, argv[1])
    ensures Parallel(a, b, RunDb(others, a, argv, now, false), RunDb(others, b, argv, now, false), argv[1])
  {
    var verb, k := VerbOf(argv[0]), argv[1];
    hide VerbOf, Parallel, SameAt, DoSet, DoExpire, DoGrow, DoRestore, DoIncrByFloat;
    if verb == Set {
      SetLocal(a, b, ParseOptions(argv, 3, NO_OPTIONS), k, argv[2], now, argv);
    } else if verb in {SetEx, PSetEx} {
      SetLocal(a, b, SetOptions(false, false, Some(argv[2]), if verb == SetEx then 1000 else 1), k, argv[3], now,
        argv);
    } else if verb in {RPush, SAdd, ZAdd, HMSet} {
      GrowLocal(a, b, verb, k, argv[2..], argv);
    } else if verb == Restore {
      RestoreLocal(others, a, b, k, argv[2], argv[3], now, argv);
    } else if verb == IncrByFloat {
      IncrByFloatLocal(others, a, b, k, argv[2]);
    } else {
      ExpireLocal(a, b, verb, k, argv[2], now, argv);
    }
  }

  /** expireIfNeeded makes every command blind to keys past their expiry; for a command whose body is not
      modelled that is its hypothesis. Keys may be missing that are past their expiry at `horizon`. */
  ghost predicate OthersTrail(others: Others, s: Session, argv: seq<string>, now: nat, horizon: nat)
    requires Selected(s)
  {
    !Modelled(argv) ==>
      forall copy: seq<Db> | Trails(copy, s.data, horizon) && Run(others, s, argv, now, false).Some? ::
        && Run(others, Session(copy, s.sel), argv, now, false).Some?
        && Trails(Run(others, Session(copy, s.sel), argv, now, false).value.data,
                  Run(others, s, argv, now, false).value.data, horizon)
  }

  lemma TrailsPut(copy: seq<Db>, data: seq<Db>, sel: nat, a: Db, b: Db, now: nat)
    requires Trails(copy, data, now) && sel < |data|
    ensures Trails(copy[sel := a], data[sel := b], now) <==> TrailsDb(a, b, now)
  {
    hide TrailsDb;
    assert copy[sel := a][sel] == a;
  }

  lemma ParallelTrails(a: Db, b: Db, ea: Effect, eb: Effect, k: string, now: nat)
    requires Parallel(a, b, ea, eb, k) && TrailsDb(a, b, now)
    ensures TrailsDb(ea.db, eb.db, now)
  {
    hide Past;
    forall j
      ensures j in ea.db ==> j in eb.db && ea.db[j] == eb.db[j]
      ensures j in eb.db ==> j in ea.db || Past(eb.db[j], now)
    {
      assert j != k ==> SameAt(ea.db, a, j) && SameAt(eb.db, b, j);
    }
  }

  lemma LookupTrails(others: Others, s: Session, copy: seq<Db>, argv: seq<string>, now: nat, horizon: nat)
    requires Selected(s) && Trails(copy, s.data, horizon) && LooksUp(argv) && Fresh(s, argv, horizon)
    ensures var o := Run(others, s, argv, now, false).value; var q := Run(others, Session(copy, s.sel), argv, now, false);
      q.value.sent == o.sent && Trails(q.value.data, o.data, horizon)
  {
    var a, b := copy[s.sel], s.data[s.sel];
    assert TrailsDb(a, b, horizon);
    assert SameAt(a, b, argv[1]);
    RunLocal(others, a, b, argv, now);
    var ea, eb := RunDb(others, a, argv, now, false), RunDb(others, b, argv, now, false);
    assert Run(others, s, argv, now, false).value.data == s.data[s.sel := eb.db];
    hide RunDb, SameAt, Past, VerbOf, TrailsDb, Parallel;
    ParallelTrails(a, b, ea, eb, argv[1], horizon);
    TrailsPut(copy, s.data, s.sel, ea.db, eb.db, horizon);
  }

  lemma DelTrails(others: Others, s: Session, copy: seq<Db>, argv: seq<string>, now: nat, horizon: nat,
      load: nat)
    requires Selected(s) && Trails(copy, s.data, horizon) && Modelled(argv) && VerbOf(argv[0]) == Del
    ensures var o := Run(others, s, argv, now, false).value;
      var q := ApplyAll(others, Session(copy, s.sel), [argv], load);
      && (o.sent == [] ==> o.data == s.data) && o.sent in {[], argv}
      && q.Some? && q.value.sel == s.sel && Trails(q.value.data, o.data, horizon)
  {
    var a, b := copy[s.sel], s.data[s.sel];
    assert TrailsDb(a, b, horizon);
    var ks := set x | x in argv[1..];
    hide VerbOf, Past;
    assert TrailsDb(a - ks, b - ks, horizon);
    TrailsPut(copy, s.data, s.sel, a - ks, b - ks, horizon);
    assert ApplyAll(others, Session(copy, s.sel), [argv], load) == Some(Session(copy[s.sel := a - ks], s.sel));
  }

  /** A command not modelled leaves what its log entry, executed on the copy, leaves there. */
  lemma OthersTrails(others: Others, s: Session, copy: seq<Db>, argv: seq<string>, now: nat, horizon: nat,
      load: nat)
    requires Selected(s) && Trails(copy, s.data, horizon) && argv != [] && VerbOf(argv[0]) != Select && !Modelled(argv)
    requires Run(others, s, argv, now, false).Some? && OthersTrail(others, s, argv, now, horizon)
    ensures var o := Run(others, s, argv, now, false).value;
      var q := ApplyAll(others, Session(copy, s.sel), [argv], load);
      && o.sent in {[], argv} && (o.sent == [] ==> o.data == s.data) && Logged(argv, now) == [argv]
      && q.Some? && q.value.sel == s.sel && Trails(q.value.data, o.data, horizon)
  {
    assert |copy| == |s.data|;
    var c := Session(copy, s.sel);
    assert Run(others, c, argv, now, false).Some?;
    hide Run, Trails, ApplyAll, Logged, VerbOf;
    OthersLogged(others, s, argv, now, load);
    OthersLogged(others, c, argv, now, load);
  }

  lemma PutApart(a: Db, b: Db, k: string, x: Item, y: Item, now: nat)
    requires TrailsDb(a, b, now)
    ensures TrailsDb(a[k := x], b[k := y], now) <==> x == y
  {
    hide Past;
    if TrailsDb(a[k := x], b[k := y], now) {
      assert k in a[k := x] && a[k := x][k] == x && b[k := y][k] == y;
    }
  }

  /** An item put into the copy makes it trail the dataset with another exactly when the two are the same. */
  lemma PutTrails(s: Session, copy: seq<Db>, k: string, x: Item, y: Item, horizon: nat)
    requires Selected(s) && Trails(copy, s.data, horizon)
    ensures Trails(copy[s.sel := copy[s.sel][k := x]], s.data[s.sel := s.data[s.sel][k := y]], horizon) <==> x == y
  {
    assert TrailsDb(copy[s.sel], s.data[s.sel], horizon);
    hide TrailsDb;
    TrailsPut(copy, s.data, s.sel, copy[s.sel][k := x], s.data[s.sel][k := y], horizon);
    PutApart(copy[s.sel], s.data[s.sel], k, x, y, horizon);
  }

  /** Loaded at another time, a relative expiry differs on the copy too. */
  lemma RelativeTrails(others: Others, s: Session, copy: seq<Db>, argv: seq<string>, now: nat, horizon: nat,
      load: nat)
    requires Selected(s) && Trails(copy, s.data, horizon) && Relative(argv) && Fresh(s, argv, horizon)
    requires Run(others, s, argv, now, false).value.sent != []
    ensures var o := Run(others, s, argv, now, false).value;
      var q := ApplyAll(others, Session(copy, s.sel), [argv], load);
      && o.sent == argv && q.Some? && q.value.sel == s.sel
      && (Trails(q.value.data, o.data, horizon) <==> load == now)
  {
    var a, b := copy[s.sel], s.data[s.sel];
    var k, x, y := argv[1], RelativeItem(others, argv, load), RelativeItem(others, argv, now);
    assert TrailsDb(a, b, horizon);
    assert SameAt(a, b, k);
    RunLocal(others, a, b, argv, now);
    RelativeRuns(others, b, argv, now, load);
    RelativeRuns(others, a, argv, now, load);
    assert x == y <==> load == now;
    hide VerbOf, RelativeItem, RunDb, TrailsDb, Past, IsNumber, ParseOptions, TimeToLive, Atoi;
    assert ApplyAll(others, Session(copy, s.sel), [argv], load) == Some(Session(copy[s.sel := a[k := x]], s.sel));
    PutTrails(s, copy, k, x, y, horizon);
  }

  /** The SET that is logged for INCRBYFLOAT takes the copy's expiry away, too. */
  lemma IncrByFloatTrails(others: Others, s: Session, copy: seq<Db>, argv: seq<string>, now: nat, horizon: nat,
      load: nat)
    requires Selected(s) && Trails(copy, s.data, horizon) && Modelled(argv) && VerbOf(argv[0]) == IncrByFloat
    requires Run(others, s, argv, now, false).value.sent != []
    ensures var o := Run(others, s, argv, now, false).value;
      var q := ApplyAll(others, Session(copy, s.sel), Logged(o.sent, now), load);
      q.Some? && q.value.sel == s.sel
      && (Trails(q.value.data, o.data, horizon) <==> !DropsExpiry(s.data[s.sel], argv))
  {
    var b, k := s.data[s.sel], argv[1];
    var e := RunDb(others, b, argv, now, false);
    var n := e.sent[2];
    assert VerbOf("SET") == Set by {
      LoggedVerbs();
    }
    var x, y := Item(Str(n), NO_EXPIRE), e.db[k];
    assert e.sent == ["SET", k, n] && e.db == b[k := y];
    assert x == y <==> !DropsExpiry(b, argv);
    hide VerbOf, RunDb, Apply, TrailsDb;
    assert Logged(e.sent, now) == [e.sent];
    ApplySet(others, Session(copy, s.sel), k, n, load);
    PutTrails(s, copy, k, x, y, horizon);
  }

  /** The heart of the protocol: what a command logs takes a trailing copy, loaded at any time, to a trailing copy of
      the dataset the command made. With a relative time it does if loaded at the time of its execution; what
      INCRBYFLOAT logs for a key with an expiry never does. The key a command looks up may not be one that the copy
      may lack. */
  lemma LogTrails(others: Others, s: Session, copy: seq<Db>, argv: seq<string>, now: nat, horizon: nat, load: nat)
    requires Selected(s) && Trails(copy, s.data, horizon) && argv != [] && VerbOf(argv[0]) != Select
    requires TimeFits(argv, now) && Run(others, s, argv, now, false).Some?
    requires Fresh(s, argv, horizon) && OthersTrail(others, s, argv, now, horizon)
    ensures var o := Run(others, s, argv, now, false).value;
      var q := ApplyAll(others, Session(copy, s.sel), Logged(o.sent, now), load);
      if o.sent == [] then o.data == s.data
      else
        && q.Some? && q.value.sel == s.sel
        && (Trails(q.value.data, o.data, horizon)
            <==> (Relative(argv) ==> load == now) && !DropsExpiry(s.data[s.sel], argv))
  {
    assert |copy| == |s.data|;
    hide RunDb, Trails, Apply, Relative, DropsExpiry;
    GuardsModelled(s.data[s.sel], argv);
    if !Modelled(argv) {
      OthersTrails(others, s, copy, argv, now, horizon, load);
    } else if VerbOf(argv[0]) == Del {
      DelTrails(others, s, copy, argv, now, horizon, load);
      assert Logged(argv, now) == [argv];
    } else {
      LiveIsLogged(others, s, argv, now, load);
      if Run(others, s, argv, now, false).value.sent != [] {
        if Relative(argv) {
          RelativeTrails(others, s, copy, argv, now, horizon, load);
          assert Logged(argv, now) == [argv];
        } else if VerbOf(argv[0]) == IncrByFloat {
          IncrByFloatTrails(others, s, copy, argv, now, horizon, load);
        } else {
          var c := Session(copy, s.sel);
          GuardsModelled(copy[s.sel], argv);
          LookupTrails(others, s, copy, argv, now, horizon);
          LiveIsLogged(others, c, argv, now, load);
        }
      }
    }
  }

  lemma GuardsModelled(db: Db, argv: seq<string>)
    ensures Relative(argv) ==> Modelled(argv) && VerbOf(argv[0]) in {Set, Restore}
    ensures DropsExpiry(db, argv) ==> Modelled(argv) && VerbOf(argv[0]) == IncrByFloat
  {
  }
}
