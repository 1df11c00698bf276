/** MULTI, EXEC, DISCARD, WATCH and UNWATCH for any number of clients. */
module WatchServer {
  import opened Sequences
  import opened WatchHistory
  import opened WatchIndex

  /** EXEC's replies: EXEC without MULTI, EXECABORT, a nil multi-bulk, or the results of the commands it ran. */
  datatype Reply = NoMulti | Aborted | Nil | Ran(commands: seq<Command>)

  function Matches(k: WKey, db: int): bool {
    db == -1 || k.db == db
  }

  function After(present: set<WKey>, e: Effect): set<WKey> {
    match e
    case Modified(k, stays) => if stays then present + {k} else present - {k}
    case Flushed(db) => set k | k in present && !Matches(k, db)
  }

  function AfterEffects(present: set<WKey>, es: seq<Effect>): set<WKey>
    decreases |es|
  {
    if es == [] then present else After(AfterEffects(present, es[..|es| - 1]), es[|es| - 1])
  }

  function AfterCommand(present: set<WKey>, cmd: Command): set<WKey> {
    if cmd.Writes? then AfterEffects(present, cmd.effects) else present
  }

  function AfterQueue(present: set<WKey>, queue: seq<Command>): set<WKey>
    decreases |queue|
  {
    if queue == [] then present else AfterCommand(AfterQueue(present, queue[..|queue| - 1]), queue[|queue| - 1])
  }

  function TouchedBy(present: set<WKey>, e: Effect): set<WKey> {
    match e
    case Modified(k, _) => {k}
    case Flushed(db) => set k | k in present && Matches(k, db)
  }

  /** A flush of a database, or of all, touches exactly the keys that it removes: those in it that exist. */
  lemma FlushTouches(present: set<WKey>, db: int)
    ensures TouchedBy(present, Flushed(db)) == present - After(present, Flushed(db))
    ensures forall k :: k in After(present, Flushed(db)) <==> k in present && db != -1 && k.db != db
  {
  }

  /** The history's steps for effects, commands, queues and WATCH. */
  function EffectSteps(present: set<WKey>, es: seq<Effect>): seq<Step>
    decreases |es|
  {
    if es == [] then [] else
      var init := es[..|es| - 1];
      EffectSteps(present, init) + [Touches(TouchedBy(AfterEffects(present, init), es[|es| - 1]))]
  }

  function CommandSteps(c: nat, present: set<WKey>, cmd: Command): seq<Step> {
    if cmd.Writes? then EffectSteps(present, cmd.effects) else [Forgets(c)]
  }

  function QueueSteps(c: nat, present: set<WKey>, queue: seq<Command>): seq<Step>
    decreases |queue|
  {
    if queue == [] then [] else
      var init := queue[..|queue| - 1];
      QueueSteps(c, present, init) + CommandSteps(c, AfterQueue(present, init), queue[|queue| - 1])
  }

  function WatchSteps(c: nat, db: nat, names: seq<string>): seq<Step> {
    seq(|names|, i requires 0 <= i < |names| => Watches(c, WKey(db, names[i])))
  }

  /** The clients that watch one of keys are flagged; nothing else changes. */
  function Flag(clients: Clients, keys: set<WKey>): Clients {
    map c | c in clients :: if Watcher(clients[c], keys) then clients[c].(dirtyCas := true) else clients[c]
  }

  predicate Watcher(x: Client, keys: set<WKey>) {
    exists k :: k in x.watched && k in keys
  }

  // ---- the flag and the history

  /** A client's list is what the history says it watches, and its flag says whether any of it was touched. */
  ghost predicate Tracks(h: History, c: nat, x: Client) {
    && (forall k :: k in x.watched <==> Watching(h, c, k))
    && (x.dirtyCas <==> AnyTouched(h, c))
  }

  ghost predicate Settled(x: Client) {
    !x.multi ==> x.queue == [] && !x.dirtyExec
  }

  ghost predicate Faithful(h: History, clients: Clients) {
    && (forall c :: c in clients ==> Tracks(h, c, clients[c]) && Settled(clients[c]))
    && (forall c, k :: c !in clients ==> !Watching(h, c, k))
  }

  lemma TouchTracks(h: History, c: nat, x: Client, keys: set<WKey>)
    requires Tracks(h, c, x)
    ensures Tracks(h + [Touches(keys)], c, if Watcher(x, keys) then x.(dirtyCas := true) else x)
  {
    var s := Touches(keys);
    forall k
      ensures Watching(h + [s], c, k) <==> Watching(h, c, k)
      ensures Touched(h + [s], c, k) <==> Touched(h, c, k) || (k in keys && Watching(h, c, k))
    {
      StepWatching(h, s, c, k);
      StepTouched(h, s, c, k);
    }
    hide Watching, Touched;
    if Watcher(x, keys) {
      var k :| k in x.watched && k in keys;
      assert Touched(h + [s], c, k);
    }
    if AnyTouched(h, c) {
      var k :| Touched(h, c, k);
      assert Touched(h + [s], c, k);
    }
  }

  lemma TouchFaithful(h: History, clients: Clients, keys: set<WKey>)
    requires Faithful(h, clients)
    ensures Faithful(h + [Touches(keys)], Flag(clients, keys))
  {
    hide Watching, Watcher, Settled, Tracks;
    var s := Touches(keys);
    forall c | c in clients
      ensures Tracks(h + [s], c, Flag(clients, keys)[c]) && Settled(Flag(clients, keys)[c])
    {
      TouchTracks(h, c, clients[c], keys);
      SettledFlag(clients[c]);
    }
    forall c, k | c !in clients
      ensures !Watching(h + [s], c, k)
    {
      StepWatching(h, s, c, k);
    }
  }

  lemma SettledFlag(x: Client)
    requires Settled(x)
    ensures Settled(x.(dirtyCas := true))
  {
  }

  /** Steps of one client leave what is known of the others. */
  lemma OtherTracks(h: History, s: Step, c: nat, x: Client)
    requires Tracks(h, c, x) && !s.Touches? && s.client != c
    ensures Tracks(h + [s], c, x)
  {
    forall k
      ensures Watching(h + [s], c, k) <==> Watching(h, c, k)
      ensures Touched(h + [s], c, k) <==> Touched(h, c, k)
    {
      StepWatching(h, s, c, k);
      StepTouched(h, s, c, k);
    }
  }

  lemma WatchTracks(h: History, c: nat, x: Client, k: WKey)
    requires Tracks(h, c, x)
    ensures Tracks(h + [Watches(c, k)], c, if k in x.watched then x else x.(watched := x.watched + [k]))
  {
    var s := Watches(c, k);
    forall j
      ensures Watching(h + [s], c, j) <==> Watching(h, c, j) || j == k
      ensures Touched(h + [s], c, j) <==> Touched(h, c, j)
    {
      StepWatching(h, s, c, j);
      StepTouched(h, s, c, j);
    }
  }

  lemma ForgetTracks(h: History, c: nat, x: Client)
    ensures Tracks(h + [Forgets(c)], c, x.(watched := [], dirtyCas := false))
  {
    var s := Forgets(c);
    forall j
      ensures !Watching(h + [s], c, j) && !Touched(h + [s], c, j)
    {
      StepWatching(h, s, c, j);
      StepTouched(h, s, c, j);
    }
  }

  /** One client takes a step of its own and is known again after it. */
  lemma ClientFaithful(h: History, s: Step, clients: Clients, c: nat, x: Client)
    requires Faithful(h, clients) && !s.Touches? && s.client == c && c in clients
    requires Tracks(h + [s], c, x) && Settled(x)
    ensures Faithful(h + [s], clients[c := x])
  {
    hide Watching, Settled, Tracks;
    forall d | d in clients && d != c
      ensures Tracks(h + [s], d, clients[d])
    {
      OtherTracks(h, s, d, clients[d]);
    }
    forall d, k | d !in clients
      ensures !Watching(h + [s], d, k)
    {
      StepWatching(h, s, d, k);
    }
  }

  /** A modification touches its key. */
  lemma ModifiedTouches(present: set<WKey>, k: WKey, stays: bool)
    ensures TouchedBy(present, Modified(k, stays)) == {k}
    ensures After(present, Modified(k, stays)) == if stays then present + {k} else present - {k}
  {
  }

  /** Every effect of a command touches, in their order, by what exists when it comes. */
  lemma {:induction false} EffectTouches(present: set<WKey>, es: seq<Effect>, i: nat)
    requires i < |es|
    ensures |EffectSteps(present, es)| == |es|
    ensures EffectSteps(present, es)[i] == Touches(TouchedBy(AfterEffects(present, es[..i]), es[i]))
    decreases |es|
  {
    var init := es[..|es| - 1];
    if init == [] {
      assert EffectSteps(present, init) == [];
    } else {
      EffectTouches(present, init, if i < |init| then i else 0);
    }
    if i < |init| {
      assert init[..i] == es[..i];
    } else {
      assert init == es[..i];
    }
  }

  /** A queue's history is that of its commands one after the other. */
  lemma {:induction false} QueueTouches(c: nat, present: set<WKey>, queue: seq<Command>, i: nat)
    requires i < |queue|
    ensures var before := QueueSteps(c, present, queue[..i]);
      before + CommandSteps(c, AfterQueue(present, queue[..i]), queue[i]) <= QueueSteps(c, present, queue)
    decreases |queue|
  {
    var init := queue[..|queue| - 1];
    if i < |init| {
      QueueTouches(c, present, init, i);
      assert init[..i] == queue[..i];
    } else {
      assert init == queue[..i];
    }
  }

  lemma PutTwice(clients: Clients, c: nat, x: Client, y: Client)
    ensures clients[c := x][c := y] == clients[c := y]
  {
  }

  class Server {
    var clients: Clients
    var index: Index
    var present: set<WKey>
    /** server.clients. */
    var order: seq<nat>
    ghost var history: History

    ghost predicate Valid()
      reads this
    {
      && Linked(clients, index)
      && Faithful(history, clients)
      && Distinct(order) && (forall c :: c in order <==> c in clients)
    }

    constructor ()
      ensures Valid() && clients == map[] && present == {} && history == []
    {
      clients, index, present, order, history := map[], map[], {}, [], [];
    }

    // ---- the building blocks

    /** watchForKey. */
    method WatchForKey(c: nat, k: WKey)
      requires Valid() && c in clients
      modifies this`clients, this`index, this`history
      ensures Valid() && history == old(history) + [Watches(c, k)]
      ensures var x := old(clients[c]);
        clients == old(clients)[c := if k in x.watched then x else x.(watched := x.watched + [k])]
    {
      ghost var x := clients[c];
      WatchTracks(history, c, x, k);
      ClientFaithful(history, Watches(c, k), clients, c, if k in x.watched then x else x.(watched := x.watched + [k]));
      hide Faithful, Linked, Watching, AnyTouched;
      history := history + [Watches(c, k)];
      var i := 0;
      while i < |clients[c].watched|
        invariant i <= |clients[c].watched| && k !in clients[c].watched[..i]
      {
        if clients[c].watched[i] == k {
          assert clients[c := clients[c]] == clients;
          return;
        }
        i := i + 1;
      }
      assert clients[c].watched[..i] == clients[c].watched;
      LinkedAdd(clients, index, c, k);
      index := AddWatcher(index, k, c);
      clients := clients[c := clients[c].(watched := clients[c].watched + [k])];
    }

    /** unwatchAllKeys, which leaves the flag to its caller. */
    method UnwatchAllKeys(c: nat)
      requires Linked(clients, index) && c in clients
      modifies this`clients, this`index
      ensures Linked(clients, index)
      ensures clients == old(clients)[c := old(clients[c]).(watched := [])]
    {
      hide Linked;
      while clients[c].watched != []
        invariant Linked(clients, index) && c in clients
        invariant clients == old(clients)[c := old(clients[c]).(watched := clients[c].watched)]
        decreases |clients[c].watched|
      {
        LinkedDrop(clients, index, c);
        var k := clients[c].watched[0];
        index := DropWatcher(index, k, c);
        clients := clients[c := clients[c].(watched := clients[c].watched[1..])];
      }
    }

    /** touchWatchedKey. */
    method TouchWatchedKey(k: WKey)
      requires Valid()
      modifies this`clients, this`history
      ensures Valid() && clients == Flag(old(clients), {k}) && history == old(history) + [Touches({k})]
    {
      TouchFaithful(history, clients, {k});
      LinkedFlag(clients, index, {k});
      FlagOne(clients, index, k);
      hide Faithful, Linked, Flag, Mark;
      history := history + [Touches({k})];
      if k in index {
        MarkWatchers(index[k]);
      }
    }

    method MarkWatchers(watchers: seq<nat>)
      requires forall c :: c in watchers ==> c in clients
      modifies this`clients
      ensures clients == Mark(old(clients), watchers)
    {
      assert Mark(clients, watchers[..0]) == clients;
      for i := 0 to |watchers|
        invariant clients == Mark(old(clients), watchers[..i])
      {
        var c := watchers[i];
        MarkNext(old(clients), watchers, i);
        hide Mark;
        clients := clients[c := clients[c].(dirtyCas := true)];
      }
      assert watchers[..|watchers|] == watchers;
    }

    /** touchWatchedKeysOnFlush: -1 is all databases. */
    method TouchWatchedKeysOnFlush(db: int)
      requires Valid()
      modifies this`clients, this`history
      ensures Valid()
      ensures var keys := TouchedBy(present, Flushed(db));
        clients == Flag(old(clients), keys) && history == old(history) + [Touches(keys)]
    {
      ghost var keys := TouchedBy(present, Flushed(db));
      TouchFaithful(history, clients, keys);
      LinkedFlag(clients, index, keys);
      FlagAll(clients, order, keys);
      hide Faithful, Linked, Flag, FlagSome, TouchedBy;
      history := history + [Touches(keys)];
      FlushClients(db);
    }

    method FlushClients(db: int)
      requires Distinct(order) && forall c :: c in order ==> c in clients
      modifies this`clients
      ensures clients == FlagSome(old(clients), order, TouchedBy(present, Flushed(db)))
    {
      ghost var keys := TouchedBy(present, Flushed(db));
      assert FlagSome(clients, order[..0], keys) == clients;
      for i := 0 to |order|
        invariant clients == FlagSome(old(clients), order[..i], keys)
      {
        assert order[i] in order && order[i] !in order[..i];
        FlagNext(old(clients), order, i, keys);
        hide FlagSome, Distinct, TouchedBy;
        FlushClient(order[i], db);
      }
      assert order[..|order|] == order;
    }

    /** One client's watched keys, which exist or not before the flush. */
    method FlushClient(c: nat, db: int)
      requires c in clients
      modifies this`clients
      ensures clients == old(clients)[c := FlagIf(old(clients[c]), TouchedBy(present, Flushed(db)))]
    {
      ghost var keys := TouchedBy(present, Flushed(db));
      ghost var x := clients[c];
      var watched := clients[c].watched;
      assert clients[c := x] == clients;
      for i := 0 to |watched|
        invariant c in clients && watched == x.watched
        invariant clients == old(clients)[c := if (exists j :: 0 <= j < i && watched[j] in keys) then x.(dirtyCas := true) else x]
      {
        var wk := watched[i];
        if db == -1 || wk.db == db {
          if wk in present {
            clients := clients[c := clients[c].(dirtyCas := true)];
          }
        }
      }
      assert Watcher(x, keys) <==> exists j :: 0 <= j < |watched| && watched[j] in keys;
    }

    // ---- commands

    /** UNWATCH. */
    method Unwatch(c: nat)
      requires Valid() && c in clients
      modifies this`clients, this`index, this`history
      ensures Valid() && history == old(history) + [Forgets(c)]
      ensures clients == old(clients)[c := old(clients[c]).(watched := [], dirtyCas := false)]
    {
      ghost var x := clients[c].(watched := [], dirtyCas := false);
      ForgetTracks(history, c, clients[c]);
      ClientFaithful(history, Forgets(c), clients, c, x);
      hide Faithful, Linked, Tracks;
      history := history + [Forgets(c)];
      UnwatchAllKeys(c);
      LinkedSame(clients, index, c, x);
      assert clients[c := x] == old(clients)[c := x];
      clients := clients[c := clients[c].(dirtyCas := false)];
    }

    /** WATCH; false is the reply that it is not allowed inside MULTI. */
    method Watch(c: nat, names: seq<string>) returns (ok: bool)
      requires Valid() && c in clients
      modifies this`clients, this`index, this`history
      ensures Valid() && ok == !old(clients[c]).multi
      ensures !ok ==> unchanged(this)
      ensures ok ==> c in clients
      ensures ok ==> clients == old(clients)[c := old(clients[c]).(watched := clients[c].watched)]
      ensures ok ==> WatchedAlso(clients[c].watched, old(clients[c]).watched, old(clients[c]).db, names)
      ensures ok ==> history == old(history) + WatchSteps(c, old(clients[c]).db, names)
    {
      if clients[c].multi {
        return false;
      }
      hide Faithful, Linked, Distinct, WatchSteps, WatchedAlso;
      ghost var x, cs, h := clients[c], clients, history;
      var db := clients[c].db;
      WatchNone(h, cs, c, x, db);
      assert names[..0] == [];
      for j := 0 to |names|
        invariant Valid() && c in clients && clients[c].db == db
        invariant clients == cs[c := x.(watched := clients[c].watched)]
        invariant history == h + WatchSteps(c, db, names[..j])
        invariant WatchedAlso(clients[c].watched, x.watched, db, names[..j])
      {
        ghost var y := clients[c];
        WatchName(h, c, x, names, j);
        PutTwice(cs, c, y, clients[c]);
      }
      assert names[..|names|] == names;
      return true;
    }

    /** One name of a WATCH command. */
    method WatchName(ghost h: History, c: nat, ghost x: Client, names: seq<string>, j: nat)
      requires Valid() && c in clients && j < |names|
      requires history == h + WatchSteps(c, clients[c].db, names[..j])
      requires WatchedAlso(clients[c].watched, x.watched, clients[c].db, names[..j])
      modifies this`clients, this`index, this`history
      ensures Valid() && c in clients
      ensures clients == old(clients)[c := old(clients[c]).(watched := clients[c].watched)]
      ensures history == h + WatchSteps(c, clients[c].db, names[..j + 1])
      ensures WatchedAlso(clients[c].watched, x.watched, clients[c].db, names[..j + 1])
    {
      hide Faithful, Linked, Distinct, WatchSteps, WatchedAlso;
      var db := clients[c].db;
      WatchNext(h, c, db, names, j);
      WatchedNext(clients[c].watched, x.watched, db, names, j);
      WatchForKey(c, WKey(db, names[j]));
    }

    /** MULTI; false is the reply that it cannot be nested. */
    method Multi(c: nat) returns (ok: bool)
      requires Valid() && c in clients
      modifies this`clients
      ensures Valid() && ok == !old(clients[c]).multi
      ensures clients == old(clients)[c := old(clients[c]).(multi := true)]
    {
      UpdateOk(history, clients, index, c, clients[c].(multi := true));
      if clients[c].multi {
        assert clients[c := clients[c].(multi := true)] == clients;
        return false;
      }
      hide Faithful, Linked;
      clients := clients[c := clients[c].(multi := true)];
      return true;
    }

    /** An error while a command is queued: flagTransaction. */
    method FlagTransaction(c: nat)
      requires Valid() && c in clients
      modifies this`clients
      ensures Valid()
      ensures var x := old(clients[c]); clients == old(clients)[c := x.(dirtyExec := x.dirtyExec || x.multi)]
    {
      UpdateOk(history, clients, index, c, clients[c].(dirtyExec := clients[c].dirtyExec || clients[c].multi));
      hide Faithful, Linked;
      if clients[c].multi {
        clients := clients[c := clients[c].(dirtyExec := true)];
      } else {
        assert clients[c := clients[c]] == clients;
      }
    }

    /** discardTransaction. */
    method DiscardTransaction(c: nat)
      requires Valid() && c in clients
      modifies this`clients, this`index, this`history
      ensures Valid() && history == old(history) + [Forgets(c)]
      ensures clients == old(clients)[c := Client(old(clients[c]).db, [], false, false, false, [])]
    {
      Unwatch(c);
      ghost var x := Client(clients[c].db, [], false, false, false, []);
      UpdateOk(history, clients, index, c, x);
      hide Faithful, Linked;
      assert clients[c := x] == old(clients)[c := x];
      clients := clients[c := clients[c].(queue := [], multi := false, dirtyExec := false)];
    }

    /** DISCARD; false is the reply that there is no MULTI. */
    method Discard(c: nat) returns (ok: bool)
      requires Valid() && c in clients
      modifies this`clients, this`index, this`history
      ensures Valid() && ok == old(clients[c]).multi
      ensures !ok ==> unchanged(this)
      ensures ok ==> clients == old(clients)[c := Client(old(clients[c]).db, [], false, false, false, [])]
      ensures ok ==> history == old(history) + [Forgets(c)]
    {
      ok := clients[c].multi;
      if ok {
        DiscardTransaction(c);
      }
    }

    /** A key is modified and signalled, or databases are flushed. */
    method DoEffect(e: Effect)
      requires Valid()
      modifies this`clients, this`present, this`history
      ensures Valid() && Quiet(old(clients), clients) && present == After(old(present), e)
      ensures history == old(history) + [Touches(TouchedBy(old(present), e))]
      ensures clients == Flag(old(clients), TouchedBy(old(present), e))
    {
      FlagQuiet(clients, TouchedBy(present, e));
      hide Faithful, Linked, Distinct, Flag, Quiet;
      match e
      case Modified(k, stays) =>
        present := if stays then present + {k} else present - {k};
        TouchWatchedKey(k);
      case Flushed(db) =>
        TouchWatchedKeysOnFlush(db);
        present := set k | k in present && !Matches(k, db);
    }

    method DoEffects(effects: seq<Effect>)
      requires Valid()
      modifies this`clients, this`present, this`history
      ensures Valid() && Quiet(old(clients), clients) && present == AfterEffects(old(present), effects)
      ensures history == old(history) + EffectSteps(old(present), effects)
    {
      assert effects[..0] == [];
      for i := 0 to |effects|
        invariant Valid() && Quiet(old(clients), clients) && present == AfterEffects(old(present), effects[..i])
        invariant history == old(history) + EffectSteps(old(present), effects[..i])
      {
        assert effects[..i + 1][..i] == effects[..i];
        hide Faithful, Linked, Distinct, After, Flag, TouchedBy;
        DoEffect(effects[i]);
      }
      assert effects[..|effects|] == effects;
    }

    /** A command that is executed. */
    method RunCommand(c: nat, cmd: Command)
      requires Valid() && c in clients
      modifies this`clients, this`index, this`present, this`history
      ensures Valid() && present == AfterCommand(old(present), cmd)
      ensures history == old(history) + CommandSteps(c, old(present), cmd)
      ensures cmd.Writes? ==> Quiet(old(clients), clients)
      ensures !cmd.Writes? ==> clients == old(clients)[c := old(clients[c]).(watched := [], dirtyCas := false)]
    {
      hide Faithful, Linked, Distinct;
      match cmd
      case Writes(effects) => DoEffects(effects);
      case UnwatchCommand => Unwatch(c);
    }

    /** processCommand, for commands that are none of EXEC, DISCARD, MULTI and WATCH: queued inside MULTI. */
    method Process(c: nat, cmd: Command)
      requires Valid() && c in clients
      modifies this`clients, this`index, this`present, this`history
      ensures Valid()
      ensures old(clients[c]).multi ==>
        var x := old(clients[c]); clients == old(clients)[c := x.(queue := x.queue + [cmd])]
      ensures old(clients[c]).multi ==> present == old(present) && history == old(history)
      ensures !old(clients[c]).multi ==> present == AfterCommand(old(present), cmd)
      ensures !old(clients[c]).multi ==> history == old(history) + CommandSteps(c, old(present), cmd)
      ensures !old(clients[c]).multi && cmd.Writes? ==> Quiet(old(clients), clients)
      ensures !old(clients[c]).multi && !cmd.Writes? ==>
        clients == old(clients)[c := old(clients[c]).(watched := [], dirtyCas := false)]
    {
      if clients[c].multi {
        UpdateOk(history, clients, index, c, clients[c].(queue := clients[c].queue + [cmd]));
        hide Faithful, Linked;
        clients := clients[c := clients[c].(queue := clients[c].queue + [cmd])];
      } else {
        hide Faithful, Linked;
        RunCommand(c, cmd);
      }
    }

    /** EXEC: the queue is run if and only if there was no error while queueing and no key the client watches was
        touched since it began to watch it. */
    method Exec(c: nat) returns (reply: Reply)
      requires Valid() && c in clients
      modifies this`clients, this`index, this`present, this`history
      ensures Valid()
      ensures var x := old(clients[c]);
        && (reply == NoMulti <==> !x.multi)
        && (reply == Aborted <==> x.multi && x.dirtyExec)
        && (reply == Nil <==> x.multi && !x.dirtyExec && AnyTouched(old(history), c))
        && (reply.Ran? <==> x.multi && !x.dirtyExec && !AnyTouched(old(history), c))
        && (reply.Ran? ==> reply.commands == x.queue)
        && present == (if reply.Ran? then AfterQueue(old(present), x.queue) else old(present))
      ensures reply == NoMulti ==> unchanged(this)
      ensures reply != NoMulti ==>
        c in clients && clients[c] == Client(old(clients[c]).db, [], false, false, false, [])
      ensures OthersQuiet(old(clients), clients, c)
      ensures reply in {Aborted, Nil} ==> history == old(history) + [Forgets(c)]
      ensures reply.Ran? ==>
        history == old(history) + ExecSteps(c, old(present), old(clients[c]).queue) + [Forgets(c)]
    {
      if !clients[c].multi {
        return NoMulti;
      }
      hide OthersQuiet, ExecSteps, AfterQueue;
      assert clients[c].dirtyCas <==> AnyTouched(history, c);
      hide Faithful, Linked, Distinct, AnyTouched;
      if clients[c].dirtyCas || clients[c].dirtyExec {
        reply := if clients[c].dirtyExec then Aborted else Nil;
        OthersSame(clients, c);
        OthersSet(clients, clients, c, Client(clients[c].db, [], false, false, false, []));
        DiscardTransaction(c);
        return;
      }
      ghost var cs := clients;
      reply := RunQueue(c);
      OthersSet(cs, clients, c, Client(clients[c].db, [], false, false, false, []));
      DiscardTransaction(c);
    }

    /** EXEC's loop, after the client unwatches its keys. */
    method RunQueue(c: nat) returns (reply: Reply)
      requires Valid() && c in clients && !clients[c].dirtyCas
      modifies this`clients, this`index, this`present, this`history
      ensures Valid() && c in clients && clients[c].db == old(clients[c]).db
      ensures OthersQuiet(old(clients), clients, c)
      ensures history == old(history) + ExecSteps(c, old(present), old(clients[c]).queue)
      ensures reply == Ran(old(clients[c]).queue)
      ensures present == AfterQueue(old(present), old(clients[c]).queue)
    {
      hide Faithful, Linked, Distinct, AfterCommand, OthersQuiet, Quiet, ExecSteps;
      var commands := clients[c].queue;
      ghost var x, cs, h, p := clients[c].(watched := []), clients, history, present;
      ExecStepsNone(c, p);
      OthersSame(cs, c);
      OthersSet(cs, cs, c, x);
      Unwatch(c);
      var ran: seq<Command> := [];
      assert commands[..0] == [];
      for j := 0 to |commands|
        invariant Valid() && c in clients && clients[c].(dirtyCas := false) == x
        invariant OthersQuiet(cs, clients, c) && history == h + ExecSteps(c, p, commands[..j])
        invariant ran == commands[..j] && present == AfterQueue(p, commands[..j])
      {
        QueueNext(h, c, p, commands, j);
        assert commands[..j + 1][..j] == commands[..j] && commands[..j + 1] == commands[..j] + [commands[j]];
        RunNext(c, commands[j], cs, x);
        ran := ran + [commands[j]];
      }
      assert commands[..|commands|] == commands;
      reply := Ran(ran);
    }

    /** A command of the queue; the client watches nothing by now. */
    method RunNext(c: nat, cmd: Command, ghost cs: Clients, ghost x: Client)
      requires Valid() && c in clients && clients[c].(dirtyCas := false) == x && OthersQuiet(cs, clients, c)
      requires x.watched == []
      modifies this`clients, this`index, this`present, this`history
      ensures Valid() && c in clients && clients[c].(dirtyCas := false) == x && OthersQuiet(cs, clients, c)
      ensures present == AfterCommand(old(present), cmd)
      ensures history == old(history) + CommandSteps(c, old(present), cmd)
    {
      ghost var before := clients;
      hide Faithful, Linked, Distinct, AfterCommand, CommandSteps;
      RunCommand(c, cmd);
      if cmd.Writes? {
        OthersThen(cs, before, clients, c);
      } else {
        OthersSet(cs, before, c, before[c].(watched := [], dirtyCas := false));
      }
    }

    // ---- clients come, select a database and go

    method Connect(c: nat)
      requires Valid() && c !in clients
      modifies this`clients, this`order
      ensures Valid() && clients == old(clients)[c := Client(0, [], false, false, false, [])]
    {
      ConnectOk(history, clients, index, c);
      hide Faithful, Linked;
      clients := clients[c := Client(0, [], false, false, false, [])];
      order := order + [c];
    }

    method SelectDb(c: nat, db: nat)
      requires Valid() && c in clients
      modifies this`clients
      ensures Valid() && clients == old(clients)[c := old(clients[c]).(db := db)]
    {
      UpdateOk(history, clients, index, c, clients[c].(db := db));
      hide Faithful, Linked;
      clients := clients[c := clients[c].(db := db)];
    }

    /** freeClient. */
    method Free(c: nat)
      requires Valid() && c in clients
      modifies this`clients, this`index, this`history, this`order
      ensures Valid() && clients == old(clients) - {c} && history == old(history) + [Forgets(c)]
    {
      Unwatch(c);
      FreeOk(history, clients, index, c);
      WithoutIs(order, c);
      hide Faithful, Linked, Distinct;
      assert clients - {c} == old(clients) - {c};
      clients := clients - {c};
      order := Without(order, c);
    }
  }

  /** Only flags differ. */
  ghost predicate Quiet(a: Clients, b: Clients) {
    a.Keys == b.Keys && forall d :: d in a ==> b[d].(dirtyCas := a[d].dirtyCas) == a[d]
  }

  /** c changes as it may, of the others only flags. */
  ghost predicate OthersQuiet(a: Clients, b: Clients, c: nat) {
    a.Keys == b.Keys && forall d :: d in a && d != c ==> b[d].(dirtyCas := a[d].dirtyCas) == a[d]
  }

  lemma OthersSame(a: Clients, c: nat)
    ensures OthersQuiet(a, a, c)
  {
  }

  lemma OthersSet(a: Clients, b: Clients, c: nat, x: Client)
    requires OthersQuiet(a, b, c) && c in b
    ensures OthersQuiet(a, b[c := x], c)
  {
  }

  lemma OthersThen(a: Clients, b: Clients, b1: Clients, c: nat)
    requires OthersQuiet(a, b, c) && Quiet(b, b1)
    ensures OthersQuiet(a, b1, c)
  {
  }

  /** What an EXEC that runs its queue adds to the history before the transaction is discarded. */
  function ExecSteps(c: nat, present: set<WKey>, queue: seq<Command>): seq<Step> {
    [Forgets(c)] + QueueSteps(c, present, queue)
  }

  lemma ExecStepsNone(c: nat, present: set<WKey>)
    ensures ExecSteps(c, present, []) == [Forgets(c)]
  {
  }

  lemma QueueNext(h: History, c: nat, present: set<WKey>, queue: seq<Command>, j: nat)
    requires j < |queue|
    ensures h + ExecSteps(c, present, queue[..j]) + CommandSteps(c, AfterQueue(present, queue[..j]), queue[j])
         == h + ExecSteps(c, present, queue[..j + 1])
    ensures AfterQueue(present, queue[..j + 1]) == AfterCommand(AfterQueue(present, queue[..j]), queue[j])
  {
    var init := queue[..j + 1];
    assert init[..j] == queue[..j];
    hide CommandSteps, AfterCommand;
    var a, b := QueueSteps(c, present, queue[..j]), CommandSteps(c, AfterQueue(present, queue[..j]), queue[j]);
    assert QueueSteps(c, present, init) == a + b;
    assert h + ([Forgets(c)] + a) + b == h + ([Forgets(c)] + (a + b));
  }

  /** What is watched after some names were added. */
  ghost predicate WatchedAlso(now: seq<WKey>, before: seq<WKey>, db: nat, names: seq<string>) {
    forall k :: k in now <==> k in before || (k.db == db && k.name in names)
  }

  lemma WatchedNext(now: seq<WKey>, before: seq<WKey>, db: nat, names: seq<string>, j: nat)
    requires j < |names| && WatchedAlso(now, before, db, names[..j])
    ensures var k := WKey(db, names[j]); WatchedAlso(if k in now then now else now + [k], before, db, names[..j + 1])
  {
    assert names[..j + 1] == names[..j] + [names[j]];
  }

  lemma WatchNone(h: History, cs: Clients, c: nat, x: Client, db: nat)
    requires c in cs && cs[c] == x
    ensures h + WatchSteps(c, db, []) == h && cs[c := x.(watched := x.watched)] == cs
    ensures WatchedAlso(x.watched, x.watched, db, [])
  {
    assert WatchSteps(c, db, []) == [];
  }

  lemma WatchNext(h: History, c: nat, db: nat, names: seq<string>, j: nat)
    requires j < |names|
    ensures h + WatchSteps(c, db, names[..j]) + [Watches(c, WKey(db, names[j]))] == h + WatchSteps(c, db, names[..j + 1])
  {
    assert WatchSteps(c, db, names[..j + 1]) == WatchSteps(c, db, names[..j]) + [Watches(c, WKey(db, names[j]))];
  }

  lemma FlagQuiet(clients: Clients, keys: set<WKey>)
    ensures Quiet(clients, Flag(clients, keys))
  {
  }

  lemma ConnectOk(h: History, clients: Clients, index: Index, c: nat)
    requires Linked(clients, index) && Faithful(h, clients) && c !in clients
    ensures var clients1 := clients[c := Client(0, [], false, false, false, [])];
      Linked(clients1, index) && Faithful(h, clients1)
  {
    var clients1 := clients[c := Client(0, [], false, false, false, [])];
    forall d, k
      ensures Lists(clients1, index, d, k)
    {
      assert Lists(clients, index, d, k);
    }
    forall k
      ensures !Touched(h, c, k)
    {
      TouchedIsWatching(h, c, k);
    }
    hide Watching, Touched;
    assert Tracks(h, c, clients1[c]);
  }

  lemma FreeOk(h: History, clients: Clients, index: Index, c: nat)
    requires Linked(clients, index) && Faithful(h, clients) && c in clients && clients[c].watched == []
    ensures Linked(clients - {c}, index) && Faithful(h, clients - {c})
  {
    var clients1 := clients - {c};
    forall d, k
      ensures Lists(clients1, index, d, k)
    {
      assert Lists(clients, index, d, k);
    }
    hide Watching, AnyTouched;
    assert Tracks(h, c, clients[c]);
  }

  function FlagIf(x: Client, keys: set<WKey>): Client {
    if Watcher(x, keys) then x.(dirtyCas := true) else x
  }

  function FlagSome(clients: Clients, cs: seq<nat>, keys: set<WKey>): Clients {
    map c | c in clients :: if c in cs then FlagIf(clients[c], keys) else clients[c]
  }

  lemma FlagAll(clients: Clients, cs: seq<nat>, keys: set<WKey>)
    requires forall c :: c in clients ==> c in cs
    ensures FlagSome(clients, cs, keys) == Flag(clients, keys)
  {
  }

  lemma FlagNext(clients: Clients, cs: seq<nat>, i: nat, keys: set<WKey>)
    requires i < |cs| && cs[i] in clients && cs[i] !in cs[..i]
    ensures cs[i] in FlagSome(clients, cs[..i], keys)
    ensures var m := FlagSome(clients, cs[..i], keys);
      m[cs[i] := FlagIf(m[cs[i]], keys)] == FlagSome(clients, cs[..i + 1], keys)
  {
    assert cs[..i + 1] == cs[..i] + [cs[i]];
    var m := FlagSome(clients, cs[..i], keys);
    assert m[cs[i]] == clients[cs[i]];
    hide FlagIf;
    var a, b := m[cs[i] := FlagIf(m[cs[i]], keys)], FlagSome(clients, cs[..i + 1], keys);
    assert a.Keys == b.Keys;
    assert forall c :: c in a ==> a[c] == b[c];
  }

  /** Only the lists matter to the index. */
  lemma LinkedSame(clients: Clients, index: Index, c: nat, x: Client)
    requires Linked(clients, index) && c in clients && x.watched == clients[c].watched
    ensures Linked(clients[c := x], index)
  {
    var clients1 := clients[c := x];
    forall d, k
      ensures Lists(clients1, index, d, k)
    {
      assert Lists(clients, index, d, k);
    }
  }

  /** Only the list and the flag matter to the history. */
  lemma UpdateOk(h: History, clients: Clients, index: Index, c: nat, x: Client)
    requires Linked(clients, index) && Faithful(h, clients) && c in clients
    requires x.watched == clients[c].watched && x.dirtyCas == clients[c].dirtyCas && Settled(x)
    ensures Linked(clients[c := x], index) && Faithful(h, clients[c := x])
  {
    LinkedSame(clients, index, c, x);
    hide Linked, Watching, AnyTouched;
  }

  lemma MarkNext(clients: Clients, cs: seq<nat>, i: nat)
    requires i < |cs| && cs[i] in clients
    ensures cs[i] in Mark(clients, cs[..i])
    ensures var m := Mark(clients, cs[..i]); m[cs[i] := m[cs[i]].(dirtyCas := true)] == Mark(clients, cs[..i + 1])
  {
    assert cs[..i + 1] == cs[..i] + [cs[i]];
    var m := Mark(clients, cs[..i]);
    var a, b := m[cs[i] := m[cs[i]].(dirtyCas := true)], Mark(clients, cs[..i + 1]);
    assert a.Keys == b.Keys;
    assert forall c :: c in a ==> a[c] == b[c];
  }

  /** The clients of a list, flagged. */
  function Mark(clients: Clients, cs: seq<nat>): Clients {
    map c | c in clients :: if c in cs then clients[c].(dirtyCas := true) else clients[c]
  }

  lemma FlagOne(clients: Clients, index: Index, k: WKey)
    requires Linked(clients, index)
    ensures Flag(clients, {k}) == if k in index then Mark(clients, index[k]) else clients
    ensures k in index ==> forall c :: c in index[k] ==> c in clients
  {
    forall c
      ensures c in clients ==> (Watcher(clients[c], {k}) <==> k in index && c in index[k])
      ensures k in index && c in index[k] ==> c in clients
    {
      assert Lists(clients, index, c, k);
    }
    hide Linked;
  }

  lemma LinkedFlag(clients: Clients, index: Index, keys: set<WKey>)
    requires Linked(clients, index)
    ensures Linked(Flag(clients, keys), index) && Flag(clients, keys).Keys == clients.Keys
  {
    forall c, k
      ensures Lists(Flag(clients, keys), index, c, k)
    {
      assert Lists(clients, index, c, k);
    }
  }
}
