/** What each modelled command does, by its name and arguments: the database it leaves, and what it propagates. */
module AofEffects {
  import opened Wrappers
  import opened AofFormat
  import opened AofCommands

  /** The outcome of a command that stores an item at a key, or removes the key. */
  function Stored(s: Session, k: string, item: Item, sent: seq<string>): Option<Outcome>
    requires Selected(s)
  {
    Some(Outcome(s.data[s.sel := s.data[s.sel][k := item]], sent))
  }

  function Removed(s: Session, k: string, sent: seq<string>): Option<Outcome>
    requires Selected(s)
  {
    Some(Outcome(s.data[s.sel := s.data[s.sel] - {k}], sent))
  }

  /** The outcome of a command that does nothing. */
  function Nothing(s: Session): Option<Outcome> {
    Some(Outcome(s.data, []))
  }

  lemma Unchanged(s: Session)
    requires Selected(s)
    ensures s.data[s.sel := s.data[s.sel]] == s.data
  {
  }

  // ---- SET

  /** An option of SET as it is spelled, and its argument if it is EX or PX. */
  datatype Opt = Opt(name: string, arg: string)

  predicate Timed(o: Opt) {
    Upper(o.name) == "EX" || Upper(o.name) == "PX"
  }

  predicate IsOpt(o: Opt) {
    Upper(o.name) == "NX" || Upper(o.name) == "XX" || Timed(o)
  }

  predicate AllOpts(opts: seq<Opt>) {
    forall i :: 0 <= i < |opts| ==> IsOpt(opts[i])
  }

  function OptArgs(opts: seq<Opt>): seq<string> {
    if opts == [] then [] else
      (if Timed(opts[0]) then [opts[0].name, opts[0].arg] else [opts[0].name]) + OptArgs(opts[1..])
  }

  predicate Given(opts: seq<Opt>, name: string) {
    exists i :: 0 <= i < |opts| && Upper(opts[i].name) == name
  }

  /** The time option that counts is the last. */
  function LastTimed(opts: seq<Opt>): Option<Opt> {
    if opts == [] then None
    else if LastTimed(opts[1..]).Some? then LastTimed(opts[1..])
    else if Timed(opts[0]) then Some(opts[0]) else None
  }

  function WithOpts(o: SetOptions, opts: seq<Opt>): SetOptions
    requires o.SetOptions?
  {
    var t := LastTimed(opts);
    SetOptions(o.nx || Given(opts, "NX"), o.xx || Given(opts, "XX"), if t.Some? then Some(t.value.arg) else o.ttl,
      if t == None then o.unit else if Upper(t.value.name) == "EX" then 1000 else 1)
  }

  lemma GivenNext(opts: seq<Opt>, name: string)
    requires opts != []
    ensures Given(opts, name) <==> Upper(opts[0].name) == name || Given(opts[1..], name)
  {
    hide Upper;
    if Given(opts, name) && Upper(opts[0].name) != name {
      var i :| 0 <= i < |opts| && Upper(opts[i].name) == name;
      assert opts[1..][i - 1] == opts[i];
    }
    if Given(opts[1..], name) {
      var i :| 0 <= i < |opts[1..]| && Upper(opts[1..][i].name) == name;
      assert opts[i + 1] == opts[1..][i];
    }
  }

  lemma {:induction false} ParseGiven(argv: seq<string>, j: nat, o: SetOptions, opts: seq<Opt>)
    requires AllOpts(opts) && o.SetOptions? && j <= |argv| && argv[j..] == OptArgs(opts)
    ensures ParseOptions(argv, j, o) == WithOpts(o, opts)
    decreases |opts|
  {
    hide Upper;
    if opts != [] {
      var x, rest := opts[0], opts[1..];
      assert argv[j] == argv[j..][0] == x.name;
      GivenNext(opts, "NX");
      GivenNext(opts, "XX");
      assert ['N', 'X'] == "NX" && ['X', 'X'] == "XX" && ['E', 'X'] == "EX" && ['P', 'X'] == "PX";
      if Timed(x) {
        assert argv[j + 1] == argv[j..][1] == x.arg && argv[j + 2..] == argv[j..][2..] == OptArgs(rest);
        ParseGiven(argv, j + 2, o.(ttl := Some(x.arg), unit := if Upper(x.name) == "EX" then 1000 else 1), rest);
      } else {
        assert argv[j + 1..] == argv[j..][1..] == OptArgs(rest);
        ParseGiven(argv, j + 1, if Upper(x.name) == "NX" then o.(nx := true) else o.(xx := true), rest);
      }
    }
  }

  /** What is not refused as a syntax error is a list of options. */
  lemma {:induction false} ParsedGiven(argv: seq<string>, j: nat, o: SetOptions) returns (opts: seq<Opt>)
    requires o.SetOptions? && j <= |argv| && ParseOptions(argv, j, o).SetOptions?
    ensures AllOpts(opts) && argv[j..] == OptArgs(opts)
    decreases |argv| - j
  {
    hide Upper;
    assert ['N', 'X'] == "NX" && ['X', 'X'] == "XX" && ['E', 'X'] == "EX" && ['P', 'X'] == "PX";
    if j == |argv| {
      opts := [];
    } else if Flag(argv[j], 'N') || Flag(argv[j], 'X') {
      var o1 := if Flag(argv[j], 'N') then o.(nx := true) else o.(xx := true);
      opts := ParsedGiven(argv, j + 1, o1);
      opts := [Opt(argv[j], "")] + opts;
      assert argv[j..] == [argv[j]] + argv[j + 1..];
    } else {
      var o1 := o.(ttl := Some(argv[j + 1]), unit := if Flag(argv[j], 'E') then 1000 else 1);
      opts := ParsedGiven(argv, j + 2, o1);
      opts := [Opt(argv[j], argv[j + 1])] + opts;
      assert argv[j..] == [argv[j], argv[j + 1]] + argv[j + 2..];
    }
  }

  /** The absolute time in milliseconds that EX or PX gives. */
  function Expiry(o: Option<Opt>, now: nat): int {
    match o
    case None => -1
    case Some(t) => Atoi(t.arg) * (if Upper(t.name) == "EX" then 1000 else 1) + now
  }

  /** SET stores exactly the value given, with the expiry given or none, if and only if the time is a positive number,
      NX finds no key and XX finds one; otherwise nothing changes. */
  lemma SetEffect(others: Others, s: Session, name: string, k: string, v: string, opts: seq<Opt>, now: nat,
      loading: bool)
    requires Selected(s) && Upper(name) == "SET" && AllOpts(opts)
    ensures var argv := [name, k, v] + OptArgs(opts);
      var t, db := LastTimed(opts), s.data[s.sel];
      var valid := t.Some? ==> IsNumber(t.value.arg) && Atoi(t.value.arg) > 0;
      var wanted := (Given(opts, "NX") ==> k !in db) && (Given(opts, "XX") ==> k in db);
      Run(others, s, argv, now, loading)
        == if valid && wanted then Stored(s, k, Item(Str(v), Expiry(t, now)), argv) else Nothing(s)
  {
    var argv := [name, k, v] + OptArgs(opts);
    Unchanged(s);
    assert argv[3..] == OptArgs(opts);
    ParseGiven(argv, 3, NO_OPTIONS, opts);
    assert VerbOf(argv[0]) == Set;
    PutTwice(s.data[s.sel], k, Item(Str(v), NO_EXPIRE), Item(Str(v), Expiry(LastTimed(opts), now)));
    hide Upper, VerbOf, IsNumber, Atoi, ParseOptions, OptArgs, Given, LastTimed;
  }

  lemma PutTwice(db: Db, k: string, x: Item, y: Item)
    ensures db[k := x][k := y] == db[k := y]
  {
  }

  /** SET with anything else for options is a syntax error. */
  lemma SetRefused(others: Others, s: Session, name: string, argv: seq<string>, now: nat, loading: bool)
    requires Selected(s) && Upper(name) == "SET" && |argv| >= 3 && argv[0] == name
    requires forall opts :: AllOpts(opts) ==> argv[3..] != OptArgs(opts)
    ensures Run(others, s, argv, now, loading) == Nothing(s)
  {
    Unchanged(s);
    if ParseOptions(argv, 3, NO_OPTIONS).SetOptions? {
      var opts := ParsedGiven(argv, 3, NO_OPTIONS);
      assert false;
    }
    assert VerbOf(argv[0]) == Set;
    hide Upper, VerbOf, IsNumber, Atoi, ParseOptions, OptArgs;
  }

  /** SETEX and PSETEX: seconds and milliseconds from now, if positive. */
  lemma SetExEffect(others: Others, s: Session, name: string, k: string, t: string, v: string, now: nat, loading: bool)
    requires Selected(s) && Upper(name) in {"SETEX", "PSETEX"}
    ensures var argv := [name, k, t, v];
      Run(others, s, argv, now, loading)
        == if IsNumber(t) && Atoi(t) > 0
           then Stored(s, k, Item(Str(v), Atoi(t) * (if Upper(name) == "SETEX" then 1000 else 1) + now), argv)
           else Nothing(s)
  {
    Unchanged(s);
    assert VerbOf(name) == if Upper(name) == "SETEX" then SetEx else PSetEx;
    var unit := if Upper(name) == "SETEX" then 1000 else 1;
    PutTwice(s.data[s.sel], k, Item(Str(v), NO_EXPIRE), Item(Str(v), Atoi(t) * unit + now));
    hide Upper, VerbOf, IsNumber, Atoi;
  }

  // ---- expiries

  /** EXPIRE and EXPIREAT count seconds, PEXPIRE and PEXPIREAT milliseconds; EXPIRE and PEXPIRE from now on. A key that
      is there gets the expiry; except while loading it is deleted, and DEL propagated, exactly for a time not after
      now. */
  lemma ExpireEffect(others: Others, s: Session, name: string, k: string, t: string, now: nat, loading: bool)
    requires Selected(s) && Upper(name) in {"EXPIRE", "PEXPIRE", "EXPIREAT", "PEXPIREAT"}
    ensures var argv, db := [name, k, t], s.data[s.sel];
      var when := Atoi(t) * (if Upper(name) in {"EXPIRE", "EXPIREAT"} then 1000 else 1)
        + (if Upper(name) in {"EXPIRE", "PEXPIRE"} then now else 0);
      Run(others, s, argv, now, loading)
        == if !IsNumber(t) || k !in db then Nothing(s)
           else if when <= now && !loading then Removed(s, k, ["DEL", k])
           else Stored(s, k, Item(db[k].val, when), argv)
  {
    Unchanged(s);
    assert VerbOf(name) == match Upper(name)
                           case "EXPIRE" => Expire
                           case "PEXPIRE" => PExpire
                           case "EXPIREAT" => ExpireAt
                           case _ => PExpireAt;
    hide Upper, VerbOf, IsNumber, Atoi;
  }

  /** DEL removes all its keys, and no other; it is propagated if one was there. */
  lemma DelEffect(others: Others, s: Session, name: string, argv: seq<string>, now: nat, loading: bool)
    requires Selected(s) && Upper(name) == "DEL" && |argv| >= 2 && argv[0] == name
    ensures var db := s.data[s.sel];
      var o := Run(others, s, argv, now, loading).value;
      var db1 := o.data[s.sel];
      && o.data == s.data[s.sel := db1]
      && (forall k :: k in db1 <==> k in db && k !in argv[1..])
      && (forall k :: k in db1 ==> db1[k] == db[k])
      && o.sent == if exists k :: k in argv[1..] && k in db then argv else []
  {
    assert VerbOf(argv[0]) == Del;
    hide Upper, VerbOf;
    var db := s.data[s.sel];
    var db1 := db - set x | x in argv[1..];
    if exists k :: k in argv[1..] && k in db {
      assert db1 != db;
    } else {
      assert forall k :: k in db ==> k in db1 && db1[k] == db[k];
      assert db1 == db;
    }
  }

  // ---- collections

  /** The expiry of a key, -1 for none. */
  function ExpiryOf(db: Db, k: string): int {
    if k in db then db[k].expire else -1
  }

  function Current(db: Db, k: string): Option<Value> {
    if k in db then Some(db[k].val) else None
  }

  /** A command that grows a collection stores what it grows to, unless it adds nothing. */
  lemma GrowEffect(others: Others, s: Session, name: string, k: string, args: seq<string>, now: nat, loading: bool)
    requires Selected(s) && VerbOf(name) in {RPush, SAdd, ZAdd, HMSet} && Modelled([name, k] + args)
    ensures var argv, db := [name, k] + args, s.data[s.sel];
      var v := Grow(VerbOf(name), Current(db, k), args);
      Run(others, s, argv, now, loading)
        == if v == None || AddsNothing(VerbOf(name), Current(db, k), args) then Nothing(s)
           else Stored(s, k, Item(v.value, ExpiryOf(db, k)), argv)
  {
    Unchanged(s);
    var argv, db := [name, k] + args, s.data[s.sel];
    var v := Grow(VerbOf(name), Current(db, k), args);
    assert argv[2..] == args && argv[0] == name && argv[1] == k;
    if AddsNothing(VerbOf(name), Current(db, k), args) {
      AddsNothingGrows(VerbOf(name), Current(db, k), args);
      assert db[k := db[k]] == db;
    }
    hide VerbOf, Grow, AddsNothing;
  }

  /** RPUSH puts its arguments at the end of the list, in their order, and keeps the expiry. */
  lemma RPushEffect(others: Others, s: Session, name: string, k: string, args: seq<string>, now: nat, loading: bool)
    requires Selected(s) && Upper(name) == "RPUSH" && args != []
    ensures var argv, db := [name, k] + args, s.data[s.sel];
      Run(others, s, argv, now, loading)
        == if k in db && !db[k].val.ListV? then Nothing(s)
           else Stored(s, k, Item(ListV((if k in db then db[k].val.items else []) + args), ExpiryOf(db, k)), argv)
  {
    assert VerbOf(name) == RPush && [] + args == args;
    hide Upper, VerbOf, Run;
    GrowEffect(others, s, name, k, args, now, loading);
  }

  /** SADD adds its arguments to the set and keeps the expiry; it is propagated if one was new. */
  lemma SAddEffect(others: Others, s: Session, name: string, k: string, args: seq<string>, now: nat, loading: bool)
    requires Selected(s) && Upper(name) == "SADD" && args != []
    ensures var argv, db := [name, k] + args, s.data[s.sel];
      var members := if k in db && db[k].val.SetV? then db[k].val.members else {};
      Run(others, s, argv, now, loading)
        == if k in db && (!db[k].val.SetV? || forall x :: x in args ==> x in members) then Nothing(s)
           else Stored(s, k, Item(SetV(members + set x | x in args), ExpiryOf(db, k)), argv)
  {
    var db := s.data[s.sel];
    assert VerbOf(name) == SAdd;
    SAddGrows(db, k, args);
    hide Upper, VerbOf, Run, Grow, AddsNothing, Current;
    GrowEffect(others, s, name, k, args, now, loading);
  }

  lemma SAddGrows(db: Db, k: string, args: seq<string>)
    ensures var members := if k in db && db[k].val.SetV? then db[k].val.members else {};
      && Grow(SAdd, Current(db, k), args)
           == (if k in db && !db[k].val.SetV? then None else Some(SetV(members + set x | x in args)))
      && (AddsNothing(SAdd, Current(db, k), args)
          <==> k in db && db[k].val.SetV? && forall x :: x in args ==> x in members)
  {
    assert {} + (set x | x in args) == set x | x in args;
  }

  /** The pairs of an argument list give x to m: the last pair for m does. */
  predicate Gives(args: seq<string>, m: string, x: string, first: bool)
    requires |args| % 2 == 0
  {
    exists i :: 0 <= i < |args| / 2 && MemberAt(args, i, first) == m && ScoreAt(args, i, first) == x
      && forall j :: i < j < |args| / 2 ==> MemberAt(args, j, first) != m
  }

  predicate Names(args: seq<string>, m: string, first: bool)
    requires |args| % 2 == 0
  {
    exists i :: 0 <= i < |args| / 2 && MemberAt(args, i, first) == m
  }

  /** In a pair, HMSET takes the field first, ZADD the member second. */
  function MemberAt(args: seq<string>, i: nat, first: bool): string
    requires i < |args| / 2
  {
    args[2 * i + if first then 0 else 1]
  }

  function ScoreAt(args: seq<string>, i: nat, first: bool): string
    requires i < |args| / 2
  {
    args[2 * i + if first then 1 else 0]
  }

  /** to is from with the pairs put in, the last one counting where one names a member twice. */
  ghost predicate PutIn(from: map<string, string>, args: seq<string>, to: map<string, string>, first: bool)
    requires |args| % 2 == 0
  {
    && (forall m :: m in to <==> m in from || Names(args, m, first))
    && (forall m :: m in to ==> if Names(args, m, first) then Gives(args, m, to[m], first) else to[m] == from[m])
  }

  lemma PairsNext(args: seq<string>, m: string, x: string, first: bool)
    requires |args| % 2 == 0 && args != []
    ensures var rest := args[2..];
      && (Names(args, m, first) <==> MemberAt(args, 0, first) == m || Names(rest, m, first))
      && (Gives(rest, m, x, first) ==> Gives(args, m, x, first))
      && (MemberAt(args, 0, first) == m && ScoreAt(args, 0, first) == x && !Names(rest, m, first)
          ==> Gives(args, m, x, first))
  {
    var rest := args[2..];
    assert forall i :: 0 <= i < |rest| / 2 ==>
      MemberAt(args, i + 1, first) == MemberAt(rest, i, first) && ScoreAt(args, i + 1, first) == ScoreAt(rest, i, first);
    if Names(args, m, first) && MemberAt(args, 0, first) != m {
      var i :| 0 <= i < |args| / 2 && MemberAt(args, i, first) == m;
      assert MemberAt(rest, i - 1, first) == m;
    }
    if Gives(rest, m, x, first) {
      var i :| 0 <= i < |rest| / 2 && MemberAt(rest, i, first) == m && ScoreAt(rest, i, first) == x
        && forall j :: i < j < |rest| / 2 ==> MemberAt(rest, j, first) != m;
      LaterPairs(args, m, first, i + 1);
    }
    if MemberAt(args, 0, first) == m && ScoreAt(args, 0, first) == x && !Names(rest, m, first) {
      LaterPairs(args, m, first, 0);
    }
  }

  lemma LaterPairs(args: seq<string>, m: string, first: bool, i: nat)
    requires |args| % 2 == 0 && i < |args| / 2
    requires forall j :: i <= j < |args[2..]| / 2 ==> MemberAt(args[2..], j, first) != m
    ensures forall j :: i < j < |args| / 2 ==> MemberAt(args, j, first) != m
  {
    forall j | i < j < |args| / 2
      ensures MemberAt(args, j, first) != m
    {
      assert MemberAt(args[2..], j - 1, first) == MemberAt(args, j, first);
    }
  }

  lemma PutInNext(from: map<string, string>, args: seq<string>, to: map<string, string>, first: bool)
    requires |args| % 2 == 0 && args != []
    requires PutIn(from[MemberAt(args, 0, first) := ScoreAt(args, 0, first)], args[2..], to, first)
    ensures PutIn(from, args, to, first)
  {
    hide Names, Gives, MemberAt, ScoreAt;
    forall m
      ensures m in to <==> m in from || Names(args, m, first)
      ensures m in to ==> if Names(args, m, first) then Gives(args, m, to[m], first) else to[m] == from[m]
    {
      PairsNext(args, m, if m in to then to[m] else "", first);
    }
  }

  lemma NoPairs(from: map<string, string>, first: bool)
    ensures PutIn(from, [], from, first)
  {
  }

  lemma {:induction false} ScoresPut(from: map<string, string>, args: seq<string>)
    requires |args| % 2 == 0
    ensures PutIn(from, args, PutScores(from, args), false)
    decreases |args|
  {
    if args == [] {
      NoPairs(from, false);
    } else {
      ScoresPut(from[args[1] := args[0]], args[2..]);
      PutInNext(from, args, PutScores(from, args), false);
    }
  }

  lemma {:induction false} FieldsPut(from: map<string, string>, args: seq<string>)
    requires |args| % 2 == 0
    ensures PutIn(from, args, PutFields(from, args), true)
    decreases |args|
  {
    if args == [] {
      NoPairs(from, true);
    } else {
      FieldsPut(from[args[0] := args[1]], args[2..]);
      PutInNext(from, args, PutFields(from, args), true);
    }
  }

  /** All the pairs of an argument list are in m. */
  predicate Holds(m: map<string, string>, args: seq<string>, first: bool)
    requires |args| % 2 == 0
  {
    forall i :: 0 <= i < |args| / 2 ==> MemberAt(args, i, first) in m && m[MemberAt(args, i, first)] == ScoreAt(args, i, first)
  }

  lemma {:induction false} HoldsPairs(scores: map<string, string>, args: seq<string>)
    requires |args| % 2 == 0
    ensures HasPairs(scores, args) <==> Holds(scores, args, false)
    decreases |args|
  {
    if args != [] {
      var rest := args[2..];
      HoldsPairs(scores, rest);
      assert forall i :: 0 <= i < |rest| / 2 ==>
        MemberAt(args, i + 1, false) == MemberAt(rest, i, false) && ScoreAt(args, i + 1, false) == ScoreAt(rest, i, false);
      if Holds(scores, rest, false) && args[1] in scores && scores[args[1]] == args[0] {
        forall i | 0 <= i < |args| / 2
          ensures MemberAt(args, i, false) in scores && scores[MemberAt(args, i, false)] == ScoreAt(args, i, false)
        {
          if i > 0 {
            assert MemberAt(rest, i - 1, false) in scores;
          }
        }
      }
      if Holds(scores, args, false) {
        assert MemberAt(args, 0, false) in scores;
        forall i | 0 <= i < |rest| / 2
          ensures MemberAt(rest, i, false) in scores && scores[MemberAt(rest, i, false)] == ScoreAt(rest, i, false)
        {
          assert MemberAt(args, i + 1, false) in scores;
        }
      }
    }
  }

  /** ZADD gives each member the last score named for it and keeps the expiry; it is clean if all members have the scores
      named already. */
  lemma ZAddEffect(others: Others, s: Session, name: string, k: string, args: seq<string>, now: nat, loading: bool)
    returns (scores: map<string, string>)
    requires Selected(s) && Upper(name) == "ZADD" && |args| >= 2 && |args| % 2 == 0
    ensures var argv, db := [name, k] + args, s.data[s.sel];
      var before := if k in db && db[k].val.ZSetV? then db[k].val.scores else map[];
      && PutIn(before, args, scores, false)
      && Run(others, s, argv, now, loading)
           == if k in db && (!db[k].val.ZSetV? || Holds(before, args, false)) then Nothing(s)
              else Stored(s, k, Item(ZSetV(scores), ExpiryOf(db, k)), argv)
  {
    var db := s.data[s.sel];
    assert VerbOf(name) == ZAdd;
    var before := if k in db && db[k].val.ZSetV? then db[k].val.scores else map[];
    scores := PutScores(before, args);
    ScoresPut(before, args);
    HoldsPairs(before, args);
    ZAddGrows(db, k, args, before);
    assert Modelled([name, k] + args) by {
      hide VerbOf;
    }
    hide Upper, VerbOf, PutScores, PutIn, Run, Holds, HasPairs, Grow, AddsNothing, Current, Modelled;
    GrowEffect(others, s, name, k, args, now, loading);
  }

  lemma ZAddGrows(db: Db, k: string, args: seq<string>, before: map<string, string>)
    requires before == if k in db && db[k].val.ZSetV? then db[k].val.scores else map[]
    ensures Grow(ZAdd, Current(db, k), args)
         == if k in db && !db[k].val.ZSetV? then None else Some(ZSetV(PutScores(before, args)))
    ensures AddsNothing(ZAdd, Current(db, k), args) <==> k in db && db[k].val.ZSetV? && HasPairs(before, args)
  {
    hide PutScores, HasPairs;
  }

  /** HMSET gives each field the last value named for it and keeps the expiry. */
  lemma HMSetEffect(others: Others, s: Session, name: string, k: string, args: seq<string>, now: nat, loading: bool)
    returns (fields: map<string, string>)
    requires Selected(s) && Upper(name) == "HMSET" && |args| >= 2 && |args| % 2 == 0
    ensures var argv, db := [name, k] + args, s.data[s.sel];
      var before := if k in db && db[k].val.HashV? then db[k].val.fields else map[];
      && PutIn(before, args, fields, true)
      && Run(others, s, argv, now, loading)
           == if k in db && !db[k].val.HashV? then Nothing(s)
              else Stored(s, k, Item(HashV(fields), ExpiryOf(db, k)), argv)
  {
    var db := s.data[s.sel];
    assert VerbOf(name) == HMSet;
    var before := if k in db && db[k].val.HashV? then db[k].val.fields else map[];
    fields := PutFields(before, args);
    FieldsPut(before, args);
    hide Upper, VerbOf, PutFields, PutIn, Run;
    GrowEffect(others, s, name, k, args, now, loading);
  }

  // ---- RESTORE, INCRBYFLOAT and the rest

  /** RESTORE stores the payload's value at a key that is not there; a time to live of zero is none. */
  lemma RestoreEffect(others: Others, s: Session, name: string, k: string, ttl: string, payload: string, now: nat,
      loading: bool)
    requires Selected(s) && Upper(name) == "RESTORE"
    ensures var argv := [name, k, ttl, payload];
      Run(others, s, argv, now, loading)
        == if k !in s.data[s.sel] && IsNumber(ttl) && Atoi(ttl) >= 0 && others.payload(payload).Some?
           then Stored(s, k, Item(others.payload(payload).value, if Atoi(ttl) == 0 then -1 else Atoi(ttl) + now), argv)
           else Nothing(s)
  {
    Unchanged(s);
    assert VerbOf(name) == Restore;
    hide Upper, VerbOf, IsNumber, Atoi;
  }

  /** INCRBYFLOAT stores the sum, keeps the expiry, and is propagated as a SET of the sum. */
  lemma IncrByFloatEffect(others: Others, s: Session, name: string, k: string, increment: string, now: nat,
      loading: bool)
    requires Selected(s) && Upper(name) == "INCRBYFLOAT"
    ensures var db := s.data[s.sel];
      var number := k !in db || db[k].val.Str?;
      var sum := others.sum(if k in db && db[k].val.Str? then Some(db[k].val.text) else None, increment);
      Run(others, s, [name, k, increment], now, loading)
        == if number && sum.Some? then Stored(s, k, Item(Str(sum.value), ExpiryOf(db, k)), ["SET", k, sum.value])
           else Nothing(s)
  {
    Unchanged(s);
    assert VerbOf(name) == IncrByFloat;
    hide Upper, VerbOf;
  }

  /** Everything else is left to the commands not modelled. */
  lemma OthersEffect(others: Others, s: Session, argv: seq<string>, now: nat, loading: bool)
    requires Selected(s) && argv != []
    requires Upper(argv[0]) !in {"SET", "SETEX", "PSETEX", "EXPIRE", "PEXPIRE", "EXPIREAT", "PEXPIREAT", "DEL", "RPUSH",
      "SADD", "ZADD", "HMSET", "RESTORE", "INCRBYFLOAT"}
    ensures var r := others.command(s, argv);
      Run(others, s, argv, now, loading)
        == match r
           case Unknown => None
           case Clean => Nothing(s)
           case Dirty(data) => if |data| == |s.data| then Some(Outcome(data, argv)) else None
  {
    assert VerbOf(argv[0]) in {Select, OtherVerb};
    hide Upper, VerbOf, RunDb;
  }

  /** Names are compared letter by letter, without regard to case. */
  lemma UpperLetters(s: string)
    ensures |Upper(s)| == |s|
    ensures forall i :: 0 <= i < |s| ==>
      Upper(s)[i] == if 'a' <= s[i] && s[i] <= 'z' then ('A' as int + (s[i] as int - 'a' as int)) as char else s[i]
  {
  }
}
