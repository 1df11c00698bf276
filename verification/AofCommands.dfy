/** What commands do to the dataset, live and while the log is loaded, and what is logged for them.
    Commands whose bodies are not modelled are an arbitrary function; so are a payload's meaning and a float sum. */
module AofCommands {
  import opened Wrappers
  import opened AofFormat

  // ---- the dataset

  /** A sorted set's scores are kept as the text they are printed to. */
  datatype Value =
    | Str(text: string)
    | ListV(items: seq<string>)
    | SetV(members: set<string>)
    | ZSetV(scores: map<string, string>)
    | HashV(fields: map<string, string>)

  /** A key's value and the time in milliseconds at which it expires, as getExpire reports it. */
  datatype Item = Item(val: Value, expire: int)

  const NO_EXPIRE: int := -1

  type Db = map<string, Item>

  function SetKey(db: Db, k: string, v: Value): Db {
    db[k := Item(v, NO_EXPIRE)]
  }

  function SetExpire(db: Db, k: string, t: int): Db {
    if k in db then db[k := Item(db[k].val, t)] else db
  }

  /** A key the rewrite skips, and that expireIfNeeded deletes. */
  predicate Past(item: Item, now: nat) {
    item.expire != NO_EXPIRE && item.expire < now
  }

  // ---- command names

  datatype Verb =
    | Select | Set | SetEx | PSetEx | Expire | PExpire | ExpireAt | PExpireAt | Del
    | RPush | SAdd | ZAdd | HMSet | Restore | IncrByFloat | OtherVerb

  function Upper(s: string): string {
    seq(|s|, i requires 0 <= i < |s| => if 'a' <= s[i] <= 'z' then s[i] - 'a' + 'A' else s[i])
  }

  /** The command table is searched without regard to case. */
  function VerbOf(s: string): Verb {
    var u := Upper(s);
    if u == "SELECT" then Select
    else if u == "SET" then Set
    else if u == "SETEX" then SetEx
    else if u == "PSETEX" then PSetEx
    else if u == "EXPIRE" then Expire
    else if u == "PEXPIRE" then PExpire
    else if u == "EXPIREAT" then ExpireAt
    else if u == "PEXPIREAT" then PExpireAt
    else if u == "DEL" then Del
    else if u == "RPUSH" then RPush
    else if u == "SADD" then SAdd
    else if u == "ZADD" then ZAdd
    else if u == "HMSET" then HMSet
    else if u == "RESTORE" then Restore
    else if u == "INCRBYFLOAT" then IncrByFloat
    else OtherVerb
  }

  lemma UpperFixed(s: string)
    requires forall i :: 0 <= i < |s| ==> !('a' <= s[i] <= 'z')
    ensures Upper(s) == s
  {
  }

  /** The names the log is written with. */
  lemma LoggedVerbs()
    ensures VerbOf("SELECT") == Select && VerbOf("SET") == Set && VerbOf("PEXPIREAT") == PExpireAt
    ensures VerbOf("DEL") == Del && VerbOf("RPUSH") == RPush && VerbOf("SADD") == SAdd
    ensures VerbOf("ZADD") == ZAdd && VerbOf("HMSET") == HMSet
  {
    UpperFixed("SELECT");
    UpperFixed("SET");
    UpperFixed("PEXPIREAT");
    UpperFixed("DEL");
    UpperFixed("RPUSH");
    UpperFixed("SADD");
    UpperFixed("ZADD");
    UpperFixed("HMSET");
  }

  // ---- collections

  /** What a key's value becomes when args are pushed on it; None is the wrong type. */
  function Grow(verb: Verb, v: Option<Value>, args: seq<string>): Option<Value> {
    match verb
    case RPush =>
      (match v
       case None => Some(ListV(args))
       case Some(ListV(items)) => Some(ListV(items + args))
       case Some(_) => None)
    case SAdd =>
      (match v
       case None => Some(SetV(set x | x in args))
       case Some(SetV(members)) => Some(SetV(members + set x | x in args))
       case Some(_) => None)
    case ZAdd =>
      (match v
       case None => Some(ZSetV(PutScores(map[], args)))
       case Some(ZSetV(scores)) => Some(ZSetV(PutScores(scores, args)))
       case Some(_) => None)
    case HMSet =>
      (match v
       case None => Some(HashV(PutFields(map[], args)))
       case Some(HashV(fields)) => Some(HashV(PutFields(fields, args)))
       case Some(_) => None)
    case _ => None
  }

  /** ZADD takes each score before its member, HMSET each field before its value. */
  function PutScores(m: map<string, string>, args: seq<string>): map<string, string>
    decreases |args|
  {
    if |args| < 2 then m else PutScores(m[args[1] := args[0]], args[2..])
  }

  function PutFields(m: map<string, string>, args: seq<string>): map<string, string>
    decreases |args|
  {
    if |args| < 2 then m else PutFields(m[args[0] := args[1]], args[2..])
  }

  // ---- commands on one database

  /** A database and, when the command made it dirty, the arguments to propagate; otherwise []. */
  datatype Effect = Effect(db: Db, sent: seq<string>)

  /** What strtoll sees of a string: the bytes before the first zero. */
  function CString(s: string): string {
    if s == [] || s[0] == 0 as char then [] else [s[0]] + CString(s[1..])
  }

  predicate AllDigits(s: string) {
    forall i :: 0 <= i < |s| ==> IsDigit(s[i])
  }

  /** What getLongLongFromObject accepts; the empty string is zero. */
  predicate IsNumber(s: string) {
    var c := CString(s);
    && LongLong(Atoi(s))
    && (c == [] || AllDigits(c) || (|c| > 1 && (c[0] == '-' || c[0] == '+') && AllDigits(c[1..])))
  }

  datatype SetOptions = SetOptions(nx: bool, xx: bool, ttl: Option<string>, unit: nat) | SyntaxError

  predicate Flag(s: string, c: char) {
    Upper(s) == [c, 'X']
  }

  /** setCommand's loop over the arguments after the value. */
  function ParseOptions(argv: seq<string>, j: nat, o: SetOptions): SetOptions
    requires o.SetOptions?
    decreases |argv| - j
  {
    if j >= |argv| then o
    else if Flag(argv[j], 'N') then ParseOptions(argv, j + 1, o.(nx := true))
    else if Flag(argv[j], 'X') then ParseOptions(argv, j + 1, o.(xx := true))
    else if Flag(argv[j], 'E') && j + 1 < |argv| then
      ParseOptions(argv, j + 2, o.(ttl := Some(argv[j + 1]), unit := 1000))
    else if Flag(argv[j], 'P') && j + 1 < |argv| then
      ParseOptions(argv, j + 2, o.(ttl := Some(argv[j + 1]), unit := 1))
    else SyntaxError
  }

  const NO_OPTIONS := SetOptions(false, false, None, 1000)

  /** setGenericCommand. */
  function DoSet(db: Db, o: SetOptions, k: string, text: string, now: nat, argv: seq<string>): Effect {
    if o.SyntaxError? then Effect(db, [])
    else if o.ttl.Some? && !(IsNumber(o.ttl.value) && Atoi(o.ttl.value) > 0) then Effect(db, [])
    else if (o.nx && k in db) || (o.xx && k !in db) then Effect(db, [])
    else
      var db1 := SetKey(db, k, Str(text));
      Effect(if o.ttl.Some? then SetExpire(db1, k, Atoi(o.ttl.value) * o.unit + now) else db1, argv)
  }

  /** The absolute time meant by a command's time argument: Redis multiplies seconds by 1000 and adds the
      clock to relative times. */
  function When(verb: Verb, s: string, now: nat): int {
    var t := Atoi(s) * (if verb in {Expire, SetEx, ExpireAt} then 1000 else 1);
    if verb in {Expire, PExpire, SetEx, PSetEx} then t + now else t
  }

  /** expireGenericCommand on a master: a time that has passed deletes the key, except while loading. */
  function DoExpire(db: Db, verb: Verb, k: string, s: string, now: nat, loading: bool, argv: seq<string>): Effect {
    if !IsNumber(s) || k !in db then Effect(db, [])
    else if When(verb, s, now) <= now && !loading then Effect(db - {k}, ["DEL", k])
    else Effect(SetExpire(db, k, When(verb, s, now)), argv)
  }

  /** SADD and ZADD of what is there already are clean. */
  predicate AddsNothing(verb: Verb, v: Option<Value>, args: seq<string>) {
    match verb
    case SAdd => v.Some? && v.value.SetV? && forall x :: x in args ==> x in v.value.members
    case ZAdd => v.Some? && v.value.ZSetV? && HasPairs(v.value.scores, args)
    case _ => false
  }

  predicate HasPairs(scores: map<string, string>, args: seq<string>)
    decreases |args|
  {
    |args| >= 2 ==> args[1] in scores && scores[args[1]] == args[0] && HasPairs(scores, args[2..])
  }

  lemma {:induction false} PairsThere(scores: map<string, string>, args: seq<string>)
    requires HasPairs(scores, args)
    ensures PutScores(scores, args) == scores
    decreases |args|
  {
    if |args| >= 2 {
      assert scores[args[1] := args[0]] == scores;
      PairsThere(scores, args[2..]);
    }
  }

  lemma AddsNothingGrows(verb: Verb, v: Option<Value>, args: seq<string>)
    requires AddsNothing(verb, v, args)
    ensures Grow(verb, v, args) == v
  {
    match verb
    case SAdd => assert v.value.members + (set x | x in args) == v.value.members;
    case ZAdd => PairsThere(v.value.scores, args);
    case _ =>
  }

  function DoGrow(db: Db, verb: Verb, k: string, args: seq<string>, argv: seq<string>): Effect {
    var v := if k in db then Some(db[k].val) else None;
    match Grow(verb, v, args)
    case None => Effect(db, [])
    case Some(v1) =>
      var db1 := db[k := Item(v1, if k in db then db[k].expire else NO_EXPIRE)];
      Effect(db1, if AddsNothing(verb, v, args) then [] else argv)
  }

  /** The databases, and the one a client has selected. */
  datatype Session = Session(data: seq<Db>, sel: nat)

  /** What a command not modelled here does: the table has no such command, it makes nothing dirty, or it leaves
      these databases and is propagated as it was given. */
  datatype Reaction = Unknown | Clean | Dirty(data: seq<Db>)

  /** What is arbitrary: the commands not modelled, the value a DUMP payload holds if it holds one, and the text of
      the sum of a string (zero for a missing key) and an increment if both are numbers. */
  datatype Others = Others(
    command: (Session, seq<string>) -> Reaction,
    payload: string -> Option<Value>,
    sum: (Option<string>, string) -> Option<ShortString>)

  /** restoreCommand: the key must be absent; a time to live of zero is none. */
  function DoRestore(others: Others, db: Db, k: string, ttl: string, payload: string, now: nat, argv: seq<string>): Effect {
    if k in db || !IsNumber(ttl) || Atoi(ttl) < 0 then Effect(db, [])
    else
      match others.payload(payload)
      case None => Effect(db, [])
      case Some(v) => Effect(db[k := Item(v, if Atoi(ttl) != 0 then Atoi(ttl) + now else NO_EXPIRE)], argv)
  }

  /** incrbyfloatCommand: the value is overwritten, its expiry stays, and the command is propagated as a SET. */
  function DoIncrByFloat(others: Others, db: Db, k: string, increment: string): Effect {
    if k in db && !db[k].val.Str? then Effect(db, [])
    else
      match others.sum(if k in db then Some(db[k].val.text) else None, increment)
      case None => Effect(db, [])
      case Some(n) => Effect(db[k := Item(Str(n), if k in db then db[k].expire else NO_EXPIRE)], ["SET", k, n])
  }

  /** The commands modelled here, with the number of arguments they take. */
  predicate Modelled(argv: seq<string>) {
    argv != [] &&
    match VerbOf(argv[0])
    case Set => |argv| >= 3
    case SetEx => |argv| == 4
    case PSetEx => |argv| == 4
    case Expire => |argv| == 3
    case PExpire => |argv| == 3
    case ExpireAt => |argv| == 3
    case PExpireAt => |argv| == 3
    case Del => |argv| >= 2
    case RPush => |argv| >= 3
    case SAdd => |argv| >= 3
    case ZAdd => |argv| >= 4 && |argv| % 2 == 0
    case HMSet => |argv| >= 4 && |argv| % 2 == 0
    case Restore => |argv| == 4
    case IncrByFloat => |argv| == 3
    case _ => false
  }

  function RunDb(others: Others, db: Db, argv: seq<string>, now: nat, loading: bool): Effect
    requires Modelled(argv)
  {
    var verb := VerbOf(argv[0]);
    var k := argv[1];
    match verb
    case Set => DoSet(db, ParseOptions(argv, 3, NO_OPTIONS), k, argv[2], now, argv)
    case SetEx => DoSet(db, SetOptions(false, false, Some(argv[2]), 1000), k, argv[3], now, argv)
    case PSetEx => DoSet(db, SetOptions(false, false, Some(argv[2]), 1), k, argv[3], now, argv)
    case Del =>
      var db1 := db - set x | x in argv[1..];
      Effect(db1, if db1 == db then [] else argv)
    case RPush => DoGrow(db, verb, k, argv[2..], argv)
    case SAdd => DoGrow(db, verb, k, argv[2..], argv)
    case ZAdd => DoGrow(db, verb, k, argv[2..], argv)
    case HMSet => DoGrow(db, verb, k, argv[2..], argv)
    case Restore => DoRestore(others, db, k, argv[2], argv[3], now, argv)
    case IncrByFloat => DoIncrByFloat(others, db, k, argv[2])
    case Expire => DoExpire(db, verb, k, argv[2], now, loading, argv)
    case PExpire => DoExpire(db, verb, k, argv[2], now, loading, argv)
    case ExpireAt => DoExpire(db, verb, k, argv[2], now, loading, argv)
    case PExpireAt => DoExpire(db, verb, k, argv[2], now, loading, argv)
    case _ => Effect(db, [])
  }

  // ---- commands on the dataset

  datatype Outcome = Outcome(data: seq<Db>, sent: seq<string>)

  predicate Selected(s: Session) {
    s.sel < |s.data|
  }

  /** call(): what a command does in the selected database, and what it propagates. */
  function Run(others: Others, s: Session, argv: seq<string>, now: nat, loading: bool): Option<Outcome>
    requires Selected(s)
  {
    if Modelled(argv) then
      var e := RunDb(others, s.data[s.sel], argv, now, loading);
      Some(Outcome(s.data[s.sel := e.db], e.sent))
    else
      match others.command(s, argv)
      case Unknown => None
      case Clean => Some(Outcome(s.data, []))
      case Dirty(data) => if |data| == |s.data| then Some(Outcome(data, argv)) else None
  }

  /** One command of the log, executed by the fake client that loads it. */
  function Apply(others: Others, s: Session, argv: seq<string>, now: nat): (r: Option<Session>)
    requires Selected(s)
    ensures r.Some? ==> Selected(r.value) && |r.value.data| == |s.data|
  {
    if |argv| == 2 && VerbOf(argv[0]) == Select then
      var id := Atoi(argv[1]);
      Some(if 0 <= id < |s.data| then s.(sel := id) else s)
    else
      match Run(others, s, argv, now, true)
      case None => None
      case Some(o) => Some(Session(o.data, s.sel))
  }

  function ApplyAll(others: Others, s: Session, log: seq<seq<string>>, now: nat): (r: Option<Session>)
    requires Selected(s)
    ensures r.Some? ==> Selected(r.value) && |r.value.data| == |s.data|
    decreases |log|
  {
    if log == [] then Some(s) else
      match Apply(others, s, log[0], now)
      case None => None
      case Some(s1) => ApplyAll(others, s1, log[1..], now)
  }

  lemma ApplyFirst(others: Others, s: Session, argv: seq<string>, rest: seq<seq<string>>, load: nat)
    requires Selected(s) && Apply(others, s, argv, load).Some?
    ensures ApplyAll(others, s, [argv] + rest, load) == ApplyAll(others, Apply(others, s, argv, load).value, rest, load)
    ensures ApplyAll(others, s, [argv], load) == Apply(others, s, argv, load)
  {
    hide Apply;
    assert ([argv] + rest)[1..] == rest && [argv][1..] == [];
  }

  // ---- what is logged

  /** feedAppendOnlyFile's translation: times become absolute. */
  function Logged(argv: seq<string>, now: nat): seq<seq<string>> {
    if argv == [] then [] else
      var verb := VerbOf(argv[0]);
      if verb in {Expire, PExpire, ExpireAt} && |argv| == 3 then
        [["PEXPIREAT", argv[1], DecInt(When(verb, argv[2], now))]]
      else if verb in {SetEx, PSetEx} && |argv| == 4 then
        [["SET", argv[1], argv[3]], ["PEXPIREAT", argv[1], DecInt(When(verb, argv[2], now))]]
      else [argv]
  }

  /** The commands that are logged with a relative time: SET with EX or PX, and RESTORE with a time to live. */
  predicate Relative(argv: seq<string>) {
    Modelled(argv) &&
    match VerbOf(argv[0])
    case Set =>
      var o := ParseOptions(argv, 3, NO_OPTIONS);
      o.SetOptions? && o.ttl.Some?
    case Restore => Atoi(argv[2]) != 0
    case _ => false
  }

  /** The time to live, in milliseconds, that such a command gives. */
  function TimeToLive(argv: seq<string>): int
    requires Relative(argv)
  {
    if VerbOf(argv[0]) == Restore then Atoi(argv[2]) else
      var o := ParseOptions(argv, 3, NO_OPTIONS);
      Atoi(o.ttl.value) * o.unit
  }

  /** INCRBYFLOAT on a key with an expiry: the SET that is logged for it removes the expiry. */
  predicate DropsExpiry(db: Db, argv: seq<string>) {
    Modelled(argv) && VerbOf(argv[0]) == IncrByFloat && argv[1] in db && db[argv[1]].expire != NO_EXPIRE
  }

  /** The time a command names, if it names one, is within a C long long. */
  predicate TimeFits(argv: seq<string>, now: nat) {
    && (|argv| >= 3 && VerbOf(argv[0]) in {Expire, PExpire, ExpireAt, PExpireAt, SetEx, PSetEx} ==>
          LongLong(When(VerbOf(argv[0]), argv[2], now)))
    && (Relative(argv) ==> LongLong(TimeToLive(argv) + now))
  }

  lemma {:induction false} CStringWhole(s: string)
    requires forall i :: 0 <= i < |s| ==> s[i] != 0 as char
    ensures CString(s) == s
  {
    if s != [] {
      CStringWhole(s[1..]);
      assert s == [s[0]] + s[1..];
    }
  }

  lemma DecIntIsNumber(n: int)
    requires LongLong(n)
    ensures IsNumber(DecInt(n))
  {
    hide Dec, Atoi;
    AtoiOfDecInt(n);
    DecDigits(if n < 0 then -n else n);
    CStringWhole(DecInt(n));
    if n < 0 {
      assert DecInt(n)[1..] == Dec(-n);
    }
  }

  /** A logged PEXPIREAT sets the time it was written with, at whatever time it is loaded. */
  lemma ApplyPExpireAt(others: Others, s: Session, k: string, t: int, now: nat)
    requires Selected(s) && LongLong(t)
    ensures Apply(others, s, ["PEXPIREAT", k, DecInt(t)], now)
         == Some(Session(s.data[s.sel := SetExpire(s.data[s.sel], k, t)], s.sel))
  {
    var argv := ["PEXPIREAT", k, DecInt(t)];
    assert VerbOf(argv[0]) == PExpireAt by {
      LoggedVerbs();
    }
    hide VerbOf, DecInt, Dec, Atoi;
    DecIntIsNumber(t);
    AtoiOfDecInt(t);
    var db := s.data[s.sel];
    assert RunDb(others, db, argv, now, true).db == SetExpire(db, k, t);
  }

  lemma ApplySet(others: Others, s: Session, k: string, text: string, now: nat)
    requires Selected(s)
    ensures Apply(others, s, ["SET", k, text], now)
         == Some(Session(s.data[s.sel := SetKey(s.data[s.sel], k, Str(text))], s.sel))
  {
    var argv := ["SET", k, text];
    assert VerbOf(argv[0]) == Set by {
      LoggedVerbs();
    }
    hide VerbOf;
    var db := s.data[s.sel];
    assert RunDb(others, db, argv, now, true).db == SetKey(db, k, Str(text));
  }

  // ---- what is logged does what was done

  /** Commands whose execution while loading is their live execution, whatever the time. */
  lemma RunTimeless(others: Others, db: Db, argv: seq<string>, now: nat, load: nat)
    requires Modelled(argv) && VerbOf(argv[0]) in {Set, Del, RPush, SAdd, ZAdd, HMSet, Restore} && !Relative(argv)
    ensures RunDb(others, db, argv, load, true) == RunDb(others, db, argv, now, false)
    ensures RunDb(others, db, argv, now, false).sent in {[], argv}
    ensures RunDb(others, db, argv, now, false).sent == [] ==> RunDb(others, db, argv, now, false).db == db
  {
    var verb := VerbOf(argv[0]);
    var v := if argv[1] in db then Some(db[argv[1]].val) else None;
    if verb in {RPush, SAdd, ZAdd, HMSet} && AddsNothing(verb, v, argv[2..]) {
      AddsNothingGrows(verb, v, argv[2..]);
      assert db[argv[1] := db[argv[1]]] == db;
    }
    hide VerbOf, ParseOptions, Grow, Atoi, AddsNothing;
  }

  lemma ExpireLogged(others: Others, s: Session, argv: seq<string>, now: nat, load: nat)
    requires Selected(s) && Modelled(argv) && VerbOf(argv[0]) in {Expire, PExpire, ExpireAt, PExpireAt}
    requires TimeFits(argv, now)
    ensures var e := RunDb(others, s.data[s.sel], argv, now, false);
      if e.sent == [] then e.db == s.data[s.sel]
      else ApplyAll(others, s, Logged(e.sent, now), load) == Some(Session(s.data[s.sel := e.db], s.sel))
  {
    var db, verb := s.data[s.sel], VerbOf(argv[0]);
    var k, e := argv[1], RunDb(others, db, argv, now, false);
    if e.sent == ["DEL", k] {
      DelLogged(others, s, k, now, load);
    } else if e.sent == argv {
      if verb == PExpireAt {
        hide VerbOf, DecInt, Atoi, IsNumber;
        assert RunDb(others, db, argv, load, true).db == e.db;
      } else {
        hide VerbOf, DecInt, Atoi, RunDb, Apply, IsNumber;
        ApplyPExpireAt(others, s, k, When(verb, argv[2], now), load);
      }
    }
  }

  lemma DelLogged(others: Others, s: Session, k: string, now: nat, load: nat)
    requires Selected(s)
    ensures ApplyAll(others, s, Logged(["DEL", k], now), load)
         == Some(Session(s.data[s.sel := s.data[s.sel] - {k}], s.sel))
  {
    var argv := ["DEL", k];
    assert VerbOf(argv[0]) == Del by {
      LoggedVerbs();
    }
    hide VerbOf;
    assert (set x | x in argv[1..]) == {k};
  }

  lemma SetExLogged(others: Others, s: Session, argv: seq<string>, now: nat, load: nat)
    requires Selected(s) && Modelled(argv) && VerbOf(argv[0]) in {SetEx, PSetEx} && TimeFits(argv, now)
    ensures var e := RunDb(others, s.data[s.sel], argv, now, false);
      if e.sent == [] then e.db == s.data[s.sel]
      else ApplyAll(others, s, Logged(e.sent, now), load) == Some(Session(s.data[s.sel := e.db], s.sel))
  {
    var db, verb := s.data[s.sel], VerbOf(argv[0]);
    var k, e := argv[1], RunDb(others, db, argv, now, false);
    if e.sent != [] {
      var t := When(verb, argv[2], now);
      assert e.sent == argv && e.db == SetExpire(SetKey(db, k, Str(argv[3])), k, t) && LongLong(t);
      assert Logged(argv, now) == [["SET", k, argv[3]], ["PEXPIREAT", k, DecInt(t)]];
      hide VerbOf, DecInt, Atoi, RunDb, When, Logged, SetExpire, SetKey;
      SetThenExpire(others, s, k, argv[3], t, load);
    }
  }

  lemma SetThenExpire(others: Others, s: Session, k: string, text: string, t: int, load: nat)
    requires Selected(s) && LongLong(t)
    ensures ApplyAll(others, s, [["SET", k, text], ["PEXPIREAT", k, DecInt(t)]], load)
         == Some(Session(s.data[s.sel := SetExpire(SetKey(s.data[s.sel], k, Str(text)), k, t)], s.sel))
  {
    var a, b := ["SET", k, text], ["PEXPIREAT", k, DecInt(t)];
    var db1 := SetKey(s.data[s.sel], k, Str(text));
    var s1 := Session(s.data[s.sel := db1], s.sel);
    var e := SetExpire(db1, k, t);
    assert s1.data[s.sel] == db1 && s1.data[s.sel := e] == s.data[s.sel := e];
    assert [a, b] == [a] + [b];
    ApplySet(others, s, k, text, load);
    ApplyPExpireAt(others, s1, k, t, load);
    hide *;
    ApplyFirst(others, s, a, [b], load);
    ApplyFirst(others, s1, b, [], load);
  }

  /** The item that a dirty command with a relative time stores, by the clock at now. */
  function RelativeItem(others: Others, argv: seq<string>, now: nat): Item
    requires Relative(argv)
  {
    Item(if VerbOf(argv[0]) == Set then Str(argv[2]) else
           var v := others.payload(argv[3]);
           if v.Some? then v.value else Str([]),
      TimeToLive(argv) + now)
  }

  lemma RelativeRuns(others: Others, db: Db, argv: seq<string>, now: nat, load: nat)
    requires Relative(argv)
    ensures var live, late := RunDb(others, db, argv, now, false), RunDb(others, db, argv, load, true);
      || (live == Effect(db, []) && late == Effect(db, []))
      || (live == Effect(db[argv[1] := RelativeItem(others, argv, now)], argv)
          && late == Effect(db[argv[1] := RelativeItem(others, argv, load)], argv))
  {
    hide VerbOf, ParseOptions, Atoi, IsNumber;
  }

  /** A relative time is logged as it was given, so the expiry is counted from the time of loading. */
  lemma RelativeLogged(others: Others, s: Session, argv: seq<string>, now: nat, load: nat)
    requires Selected(s) && Relative(argv)
    requires Run(others, s, argv, now, false).value.sent != []
    ensures var o := Run(others, s, argv, now, false).value;
      ApplyAll(others, s, Logged(o.sent, now), load) == Some(Session(o.data, s.sel)) <==> load == now
  {
    var db, k := s.data[s.sel], argv[1];
    RelativeRuns(others, db, argv, now, load);
    var live, late := RelativeItem(others, argv, now), RelativeItem(others, argv, load);
    assert live == late <==> load == now;
    hide VerbOf, RunDb, RelativeItem;
    assert Logged(argv, now) == [argv];
    assert ApplyAll(others, s, [argv], load) == Some(Session(s.data[s.sel := db[k := late]], s.sel));
    PutSame(s.data, s.sel, k, live, late);
  }

  lemma PutSame(data: seq<Db>, sel: nat, k: string, x: Item, y: Item)
    requires sel < |data|
    ensures data[sel := data[sel][k := x]] == data[sel := data[sel][k := y]] <==> x == y
  {
    assert data[sel := data[sel][k := x]][sel][k] == x && data[sel := data[sel][k := y]][sel][k] == y;
  }

  /** INCRBYFLOAT is logged as a SET of the sum, which has the same effect unless the key has an expiry. */
  lemma IncrByFloatLogged(others: Others, s: Session, argv: seq<string>, now: nat, load: nat)
    requires Selected(s) && Modelled(argv) && VerbOf(argv[0]) == IncrByFloat
    ensures var db := s.data[s.sel];
      var e := RunDb(others, db, argv, now, false);
      if e.sent == [] then e.db == db
      else
        ApplyAll(others, s, Logged(e.sent, now), load) == Some(Session(s.data[s.sel := e.db], s.sel))
        <==> !DropsExpiry(db, argv)
  {
    var db, k := s.data[s.sel], argv[1];
    var e := RunDb(others, db, argv, now, false);
    if e.sent != [] {
      var n := e.sent[2];
      assert VerbOf("SET") == Set by {
        LoggedVerbs();
      }
      var live, late := e.db[k], Item(Str(n), NO_EXPIRE);
      assert e.sent == ["SET", k, n] && e.db == db[k := live] && live.val == Str(n);
      assert live == late <==> !DropsExpiry(db, argv);
      hide VerbOf, RunDb, Apply;
      assert Logged(e.sent, now) == [e.sent];
      ApplySet(others, s, k, n, load);
      PutSame(s.data, s.sel, k, live, late);
    }
  }

  lemma OthersLogged(others: Others, s: Session, argv: seq<string>, now: nat, load: nat)
    requires Selected(s) && argv != [] && VerbOf(argv[0]) != Select && !Modelled(argv)
    requires Run(others, s, argv, now, false).Some?
    ensures var o := Run(others, s, argv, now, false).value;
      && o.sent in {[], argv} && (o.sent == [] ==> o.data == s.data)
      && Logged(argv, now) == [argv] && ApplyAll(others, s, [argv], load) == Some(Session(o.data, s.sel))
  {
    hide VerbOf, RunDb;
    assert Run(others, s, argv, load, true) == Run(others, s, argv, now, false);
  }

  /** A command that is not dirty changes nothing. A dirty command and the log written for it have the same
      effect, whenever the log is loaded; SET with EX or PX and RESTORE with a time to live have it just at the
      millisecond of their execution, INCRBYFLOAT on a key with an expiry never. */
  lemma LiveIsLogged(others: Others, s: Session, argv: seq<string>, now: nat, load: nat)
    requires Selected(s) && argv != [] && VerbOf(argv[0]) != Select && TimeFits(argv, now)
    requires Run(others, s, argv, now, false).Some?
    ensures var o := Run(others, s, argv, now, false).value;
      if o.sent == [] then o.data == s.data
      else
        ApplyAll(others, s, Logged(o.sent, now), load) == Some(Session(o.data, s.sel))
        <==> (Relative(argv) ==> load == now) && !DropsExpiry(s.data[s.sel], argv)
  {
    var o := Run(others, s, argv, now, false).value;
    if !Modelled(argv) {
      OthersLogged(others, s, argv, now, load);
    } else if Relative(argv) {
      RelativeRuns(others, s.data[s.sel], argv, now, load);
      if o.sent != [] {
        RelativeLogged(others, s, argv, now, load);
      }
    } else if VerbOf(argv[0]) in {Expire, PExpire, ExpireAt, PExpireAt} {
      ExpireLogged(others, s, argv, now, load);
    } else if VerbOf(argv[0]) in {SetEx, PSetEx} {
      SetExLogged(others, s, argv, now, load);
    } else if VerbOf(argv[0]) == IncrByFloat {
      IncrByFloatLogged(others, s, argv, now, load);
    } else {
      RunTimeless(others, s.data[s.sel], argv, now, load);
      hide VerbOf, RunDb, Relative;
      assert Logged(argv, now) == [argv];
    }
  }
}
