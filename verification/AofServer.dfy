/** The append-only file's part of the server: commands, feeding, flushing, the background rewrite and its
    switch-over, starting and stopping. Outcomes of system calls are parameters. */
module AofServer {
  import opened Wrappers
  import opened AofFormat
  import opened AofCommands
  import opened AofReplay
  import opened AofRewrite
  import opened AofRebuild
  import opened AofAbsolute
  import opened AofFeed
  import opened AofDataset

  datatype State = Off | On | WaitRewrite

  /** aof_fd: -1, a number that was closed, or the descriptor of the configured file. */
  datatype Descriptor = NoFd | ClosedFd | OpenFd

  /** AOF_RW_BUF_BLOCK_SIZE. */
  const BLOCK_SIZE: nat := 10485760

  function Concat(blocks: seq<string>): string {
    if blocks == [] then [] else Concat(blocks[..|blocks| - 1]) + blocks[|blocks| - 1]
  }

  /** Every block but the last is full. */
  ghost predicate Packed(blocks: seq<string>) {
    && (forall i :: 0 <= i < |blocks| ==> |blocks[i]| <= BLOCK_SIZE)
    && (forall i :: 0 <= i < |blocks| - 1 ==> |blocks[i]| == BLOCK_SIZE)
  }

  lemma {:induction false} PackedLength(blocks: seq<string>)
    requires Packed(blocks) && blocks != []
    ensures |Concat(blocks)| == (|blocks| - 1) * BLOCK_SIZE + |blocks[|blocks| - 1]|
    decreases |blocks|
  {
    var init := blocks[..|blocks| - 1];
    if init != [] {
      PackedLength(init);
    }
  }

  predicate HasRoom(blocks: seq<string>) {
    blocks != [] && |blocks[|blocks| - 1]| < BLOCK_SIZE
  }

  lemma AddBlock(blocks: seq<string>)
    requires Packed(blocks) && (blocks != [] ==> !HasRoom(blocks))
    ensures var b: string := []; Packed(blocks + [b]) && HasRoom(blocks + [b]) && Concat(blocks + [b]) == Concat(blocks)
  {
    var b: string := [];
    assert (blocks + [b])[..|blocks|] == blocks;
    assert Concat(blocks) + b == Concat(blocks);
  }

  class Server {
    const others: Others
    /** The fsync policy is "always". */
    const fsyncAlways: bool

    var data: seq<Db>
    var clock: nat
    var state: State
    var fd: Descriptor
    var selectedDb: int
    var aofBuf: string
    var blocks: seq<string>
    /** A rewrite child is alive; what it leaves in its temporary file when it succeeds, and what it reads, or will
        read, from the clock. */
    var child: bool
    var childFile: string
    ghost var read: nat
    /** The configured file. */
    var file: string
    var currentSize: nat
    var scheduled: bool
    var writeError: bool
    var exited: bool

    // ---- the rewrite buffer

    /** aofRewriteBufferReset. */
    method ResetRewriteBuffer()
      modifies this`blocks
      ensures blocks == [] && Packed(blocks) && Concat(blocks) == []
    {
      blocks := [];
    }

    /** aofRewriteBufferSize. */
    method RewriteBufferSize() returns (size: nat)
      requires Packed(blocks)
      ensures size == |Concat(blocks)|
    {
      if blocks == [] {
        return 0;
      }
      PackedLength(blocks);
      size := (|blocks| - 1) * BLOCK_SIZE + |blocks[|blocks| - 1]|;
    }

    /** aofRewriteBufferAppend. */
    method AppendToRewriteBuffer(s: string)
      requires Packed(blocks)
      modifies this`blocks
      ensures Packed(blocks) && Concat(blocks) == Concat(old(blocks)) + s
    {
      ghost var total := Concat(blocks) + s;
      hide Concat, Packed, HasRoom;
      var left := s;
      while left != []
        invariant Packed(blocks) && Concat(blocks) + left == total
        decreases |left|, !HasRoom(blocks)
      {
        left := FillLastBlock(left);
        if left != [] {
          AddBlock(blocks);
          blocks := blocks + [[]];
        }
      }
      assert Concat(blocks) + left == Concat(blocks);
    }

    /** The piece that fits in the last block. */
    method FillLastBlock(s: string) returns (left: string)
      requires Packed(blocks)
      modifies this`blocks
      ensures Packed(blocks) && Concat(blocks) + left == Concat(old(blocks)) + s
      ensures |left| <= |s|
      ensures left != [] ==> !HasRoom(blocks)
      ensures HasRoom(old(blocks)) && s != [] ==> |left| < |s|
    {
      left := s;
      if blocks != [] {
        var n := |blocks| - 1;
        var last := blocks[n];
        var free := BLOCK_SIZE - |last|;
        var len := if free < |s| then free else |s|;
        blocks := blocks[n := last + s[..len]];
        left := s[len..];
        assert blocks[..n] == old(blocks)[..n];
        assert Concat(old(blocks)) == Concat(old(blocks)[..n]) + last;
        assert s == s[..len] + left;
      }
    }

    /** aofRewriteBufferWrite, when write(2) returns results[i] for block i: -1 if any is not all it was given,
        otherwise the number of bytes; out is what reaches the file. */
    method WriteRewriteBuffer(results: seq<int>) returns (count: int, out: string)
      requires |results| == |blocks|
      requires forall i :: 0 <= i < |blocks| ==> -1 <= results[i] <= |blocks[i]|
      ensures count != -1 <==> AllWritten(blocks, results)
      ensures count != -1 ==> out == Concat(blocks) && count == |out|
    {
      count, out := 0, [];
      assert blocks[..0] == [];
      for i := 0 to |blocks|
        invariant out == Concat(blocks[..i]) && count == |out|
        invariant forall j :: 0 <= j < i ==> Written(blocks[j], results[j])
      {
        var used := |blocks[i]|;
        assert blocks[..i + 1][..i] == blocks[..i];
        if used != 0 {
          var nwritten := results[i];
          if nwritten != used {
            assert !Written(blocks[i], results[i]);
            return -1, out;
          }
          out := out + blocks[i];
          count := count + nwritten;
        }
      }
      assert blocks[..|blocks|] == blocks;
    }

    // ---- the invariant

    ghost predicate Shape()
      reads this
    {
      && 0 < |data| <= INT_MAX
      && NO_DB <= selectedDb < |data|
      && Packed(blocks)
      && (!child ==> Concat(blocks) == [])
      && (state != Off ==> fd == OpenFd)
      && Sane(data)
    }

    /** The clock by which keys may be missing from what the child writes. */
    ghost function Horizon(): nat
      reads this
    {
      Later(clock, read)
    }

    /** While the log is on, file and buffer load to the dataset; while a child rewrites for a log that is on or
        about to be, so do its file and the rewrite buffer, but for keys past their expiry when it reads the clock;
        without a child the rewrite buffer is empty. */
    ghost predicate Valid()
      reads this
    {
      && Shape()
      && !exited
      && LogGood()
      && (state != Off && child ==> Loads(others, childFile + Concat(blocks), data, selectedDb, Horizon()))
    }

    ghost predicate LogGood()
      requires data != []
      reads this
    {
      state == On ==> Loads(others, file + aofBuf, data, selectedDb, clock)
    }

    /** The recorded size is the file's, so a short write can be undone. */
    ghost predicate Sized()
      reads this
    {
      state == On ==> currentSize == |file|
    }

    /** A log, or a rewrite buffer for one, is being written. */
    predicate Logging()
      reads this`state, this`child
    {
      state == On || (state != Off && child)
    }

    // ---- feeding

    /** feedAppendOnlyFile. */
    method Feed(argv: seq<string>, id: nat)
      requires argv != [] && Packed(blocks)
      modifies this`selectedDb, this`aofBuf, this`blocks
      ensures Packed(blocks) && selectedDb == id
      ensures var text := PrintAll(FeedCommands(old(selectedDb), id, argv, clock));
        && aofBuf == old(aofBuf) + (if state == On then text else [])
        && Concat(blocks) == Concat(old(blocks)) + (if child then text else [])
    {
      var buf: string := [];
      if id != selectedDb {
        buf := SelectText(id);
        selectedDb := id;
      }
      ghost var select: seq<seq<string>> := if id != old(selectedDb) then [["SELECT", Dec(id)]] else [];
      assert buf == PrintAll(select);
      var cmds := TranslatedText(argv, clock);
      PrintAllAppend(select, Logged(argv, clock));
      hide *;
      buf := buf + cmds;
      if state == On {
        aofBuf := aofBuf + buf;
      }
      if child {
        AppendToRewriteBuffer(buf);
      }
    }

    // ---- flushing

    /** write(2) returning n, and on a short write ftruncate(2); the fsync policy "always" cannot go on from there. */
    method WriteBuffer(n: int, truncated: bool)
      requires !exited && aofBuf != [] && -1 <= n <= |aofBuf|
      modifies this`aofBuf, this`file, this`currentSize, this`writeError, this`exited
      ensures exited <==> fsyncAlways && n != old(|aofBuf|)
      ensures var d1 := Flushed(Disk(old(file), old(aofBuf), old(currentSize)), n, truncated);
        file == d1.file && (!exited ==> aofBuf == d1.buf && currentSize == d1.size)
      ensures !exited ==> writeError == (n != old(|aofBuf|))
    {
      var nwritten := n;
      if nwritten > 0 {
        file := file + aofBuf[..nwritten];
      }
      if nwritten != |aofBuf| {
        if nwritten != -1 && truncated {
          file := Resize(file, currentSize);
          nwritten := -1;
        }
        if fsyncAlways {
          exited := true;
          return;
        }
        writeError := true;
        if nwritten > 0 {
          currentSize := currentSize + nwritten;
          aofBuf := aofBuf[nwritten..];
        }
        return;
      }
      writeError := false;
      currentSize := currentSize + nwritten;
      aofBuf := [];
    }

    /** flushAppendOnlyFile: delay says that an fsync is in progress and the write may still wait, n is what write
        returns and truncated whether ftruncate succeeds. */
    method Flush(force: bool, delay: bool, n: int, truncated: bool)
      requires Valid() && -1 <= n <= |aofBuf| && (fd != OpenFd ==> n == -1)
      modifies this`aofBuf, this`file, this`currentSize, this`writeError, this`exited
      ensures Shape()
      ensures !exited && (state == On && 0 <= n < old(|aofBuf|) && truncated ==> old(Sized())) ==> Valid()
      ensures !exited && old(aofBuf) != [] && (force || !delay) ==>
        (file + aofBuf == old(file + aofBuf)
         <==> (0 <= n < old(|aofBuf|) && truncated ==> old(currentSize) == old(|file|)))
      ensures old(Sized()) && !exited ==> Sized()
      ensures var written := old(aofBuf) != [] && (force || !delay);
        var d := Disk(old(file), old(aofBuf), old(currentSize));
        var d1 := if written then Flushed(d, n, truncated) else d;
        && (exited <==> written && fsyncAlways && n != |d.buf|)
        && file == d1.file
        && (!exited ==> aofBuf == d1.buf && currentSize == d1.size)
        && (!exited ==> writeError == if written then n != |d.buf| else old(writeError))
    {
      if aofBuf == [] {
        return;
      }
      if !force && delay {
        return;
      }
      ghost var d := Disk(file, aofBuf, currentSize);
      FlushKeepsLog(d, n, truncated);
      hide Loads, Flushed, Packed, Sane, Concat;
      WriteBuffer(n, truncated);
    }

    // ---- commands

    /** The clock moves on. When it has passed the child's reading, the child's file and the rewrite buffer are, by the
        server's own clock, as good as the log. */
    method Tick(now: nat)
      requires Valid() && clock <= now
      modifies this`clock
      ensures Valid() && clock == now
      ensures read <= now && state != Off && child ==>
        Loads(others, childFile + Concat(blocks), data, selectedDb, now)
    {
      ghost var was := clock;
      if state == On {
        LoadsLater(others, file + aofBuf, data, selectedDb, was, now);
      }
      if state != Off && child {
        LoadsLater(others, childFile + Concat(blocks), data, selectedDb, Horizon(), Later(now, read));
      }
      hide Loads;
      clock := now;
    }

    /** The child has read the clock, or the command sees no key that expires before it does. */
    ghost predicate Unseen(s: Session, argv: seq<string>)
      requires Selected(s)
      reads this
    {
      state != Off && child ==> Blind(others, s, argv, clock, Horizon())
    }

    /** call() and propagate(): a dirty command is fed unless the log is off. */
    method Execute(argv: seq<string>, id: nat)
      requires Valid() && id < |data|
      requires Callable(others, Session(data, id), argv, clock) && TimeFits(argv, clock)
      requires Blind(others, Session(data, id), argv, clock, clock)
      requires Sane(Run(others, Session(data, id), argv, clock, false).value.data)
      modifies this`data, this`selectedDb, this`aofBuf, this`blocks
      ensures Shape() && !exited
      ensures var o := Run(others, Session(old(data), id), argv, clock, false).value;
        var sound := o.sent == [] || Reproducible(old(data)[id], argv);
        && data == o.data
        && (LogGood() <==> sound || state != On)
        && (old(Unseen(Session(data, id), argv)) ==> (Valid() <==> sound || !Logging()))
      ensures state == Off ==> unchanged(`selectedDb, `aofBuf, `blocks)
    {
      ghost var s := Session(data, id);
      ghost var there := state != Off && child && Unseen(s, argv);
      FeedKeeps(others, state == On, file, aofBuf, s, selectedDb, argv, clock, clock);
      FeedKeeps(others, there, childFile, Concat(blocks), s, selectedDb, argv, clock, Horizon());
      var o := Run(others, Session(data, id), argv, clock, false).value;
      ghost var sound := Reproducible(data[id], argv);
      hide Loads, Run, Callable, Blind, TimeFits, Packed, Sane, Concat, PrintAll, FeedCommands, Reproducible;
      Propagate(o, id, sound, Unseen(s, argv));
    }

    /** What a command did; `sound` says that its log entry does the same, `unseen` that it does for the child. */
    method Propagate(o: Outcome, id: nat, ghost sound: bool, ghost unseen: bool)
      requires Valid() && id < |o.data| == |data| && Sane(o.data)
      requires (state == On || (state != Off && child && unseen)) && o.sent == [] ==> o.data == data
      requires var text := PrintAll(FeedCommands(selectedDb, id, o.sent, clock));
        o.sent != [] ==>
          && (state == On ==> (Loads(others, file + (aofBuf + text), o.data, id, clock) <==> sound))
          && (state != Off && child && unseen ==>
               (Loads(others, childFile + (Concat(blocks) + text), o.data, id, Horizon()) <==> sound))
      modifies this`data, this`selectedDb, this`aofBuf, this`blocks
      ensures Shape() && !exited && data == o.data
      ensures LogGood() <==> o.sent == [] || sound || state != On
      ensures unseen ==> (Valid() <==> o.sent == [] || sound || !Logging())
      ensures state == Off ==> unchanged(`selectedDb, `aofBuf, `blocks)
    {
      hide Loads, Packed, Sane, Concat, PrintAll, FeedCommands;
      if o.sent == [] || state == Off {
        data := o.data;
      } else {
        Commit(o.data, o.sent, id);
      }
    }

    /** A dirty command's effect and its log entry. */
    method Commit(next: seq<Db>, sent: seq<string>, id: nat)
      requires Shape() && !exited && state != Off && sent != [] && id < |next| == |data| && Sane(next)
      modifies this`data, this`selectedDb, this`aofBuf, this`blocks
      ensures Shape() && data == next && selectedDb == id
      ensures var text := PrintAll(FeedCommands(old(selectedDb), id, sent, clock));
        && aofBuf == old(aofBuf) + (if state == On then text else [])
        && Concat(blocks) == Concat(old(blocks)) + (if child then text else [])
    {
      hide Loads, Packed, Sane, Concat, PrintAll, FeedCommands;
      data := next;
      Feed(sent, id);
    }

    /** expireIfNeeded on a master: a key past its expiry is deleted, and the deletion is fed. */
    method ExpireIfNeeded(id: nat, k: string)
      requires Valid() && id < |data| && |k| <= LLONG_MAX
      modifies this`data, this`selectedDb, this`aofBuf, this`blocks
      ensures Valid() && data == Expired(old(data), id, k, clock)
      ensures var db := old(data)[id];
        data == if k in db && 0 <= db[k].expire < clock then old(data)[id := db - {k}] else old(data)
      ensures k in data[id] ==> !Past(data[id][k], clock)
      ensures state == Off ==> unchanged(`selectedDb, `aofBuf, `blocks)
    {
      if k in data[id] && data[id][k].expire >= 0 && data[id][k].expire < clock {
        var argv := ["DEL", k];
        DelRuns(others, Session(data, id), k, clock);
        Execute(argv, id);
      }
    }

    /** A client's command in database id, at a time not before the last. The log stays good unless the command is a
        dirty one that is logged so that it cannot be reproduced. So does what a child writes, when the child has read
        the clock or the command sees no key that expires before it does. */
    method Call(argv: seq<string>, id: nat, now: nat)
      requires Valid() && id < |data| && clock <= now
      requires Callable(others, Session(data, id), argv, now) && TimeFits(argv, now)
      requires OthersTrail(others, Session(data, id), argv, now, now) && SanePayload(others, argv)
      requires !Modelled(argv) ==> Sane(Run(others, Session(data, id), argv, now, false).value.data)
      modifies this`data, this`selectedDb, this`aofBuf, this`blocks, this`clock
      ensures Shape() && !exited && clock == now
      ensures var ready := if LooksUp(argv) then Expired(old(data), id, argv[1], now) else old(data);
        var o := Run(others, Session(ready, id), argv, now, false).value;
        var sound := o.sent == [] || Reproducible(ready[id], argv);
        && data == o.data
        && (LogGood() <==> sound || state != On)
        && (read <= now || Unseen(Session(ready, id), argv) ==> (Valid() <==> sound || !Logging()))
      ensures state == Off ==> unchanged(`selectedDb, `aofBuf, `blocks)
    {
      hide Loads, Run, OthersTrail, Past, VerbOf, Packed, Concat, TimeFits, Relative, DropsExpiry, SanePayload;
      Tick(now);
      if LooksUp(argv) {
        assert argv[1] in argv;
        ExpireIfNeeded(id, argv[1]);
      }
      if Modelled(argv) {
        ModelledCallable(others, Session(data, id), argv, now);
        RunSane(others, Session(data, id), argv, now);
      }
      assert read <= now ==> Horizon() == now;
      Execute(argv, id);
    }

    // ---- rewriting in the background

    /** rewriteAppendOnlyFileBackground: forked is fork's success, and reading what the child will read from the
        clock. What it writes is good for the dataset, by any clock, if and only if no key passes its expiry between
        that clock and the reading. */
    method RewriteBackground(forked: bool, orders: seq<Order>, reading: nat) returns (ok: bool)
      requires Valid() && Iterated(data, orders)
      modifies this`child, this`childFile, this`read, this`scheduled, this`selectedDb
      ensures Valid() && ok == (forked && !old(child))
      ensures ok ==> child && !scheduled && selectedDb == NO_DB && Concat(blocks) == [] && read == reading
      ensures ok ==> ValidOrders(data, orders) && childFile == PrintAll(RewriteCommands(data, orders, 0, reading))
      ensures ok ==> Loads(others, childFile + Concat(blocks), data, NO_DB, Horizon())
      ensures ok ==> forall now: nat :: Loads(others, childFile, data, NO_DB, now) <==> InTime(data, reading, now)
      ensures !ok ==> unchanged(`child, `childFile, `read, `scheduled, `selectedDb)
    {
      if child || !forked {
        return false;
      }
      hide Loads, Packed, Sane, RewriteCommands, PrintAll, Iterated, ValidOrders, InTime, Concat;
      Fork(orders, reading);
      return true;
    }

    /** After a fork: the child writes the dataset as it was; a SELECT will come first in the rewrite buffer. */
    method Fork(orders: seq<Order>, reading: nat)
      requires Valid() && !child && Iterated(data, orders)
      modifies this`child, this`childFile, this`read, this`scheduled, this`selectedDb
      ensures Valid() && child && !scheduled && selectedDb == NO_DB && Concat(blocks) == [] && read == reading
      ensures Loads(others, childFile + Concat(blocks), data, NO_DB, Horizon())
      ensures ValidOrders(data, orders) && childFile == PrintAll(RewriteCommands(data, orders, 0, reading))
      ensures forall now: nat :: Loads(others, childFile, data, NO_DB, now) <==> InTime(data, reading, now)
    {
      hide Loads, Packed, Sane, Concat, PrintAll, RewriteCommands, Iterated, ValidOrders, FitsC, InTime;
      SaneFits(data);
      IteratedValid(data, orders);
      ghost var log := PrintAll(RewriteCommands(data, orders, 0, reading));
      forall now: nat
        ensures Loads(others, log, data, NO_DB, now) <==> InTime(data, reading, now)
      {
        RewriteLoads(others, data, orders, reading, now);
      }
      InTimeLater(data, reading, Later(clock, reading));
      LoadsWith(others, log, Concat(blocks), data, NO_DB, Later(clock, reading));
      LoadsNone(others, file + aofBuf, data, selectedDb, clock);
      childFile := RewriteAppendOnlyFile(data, orders, reading);
      read := reading;
      child, scheduled, selectedDb := true, false, NO_DB;
    }

    /** backgroundRewriteDoneHandler: what the child, open, the writes, rename and fstat return. A child that was
        successful has read the clock. */
    method RewriteDone(success: bool, openOk: bool, results: seq<int>, renamed: bool, sized: bool)
      requires Valid() && child && |results| == |blocks| && (success ==> read <= clock)
      requires forall i :: 0 <= i < |blocks| ==> -1 <= results[i] <= |blocks[i]|
      modifies this`child, this`blocks, this`file, this`fd, this`aofBuf, this`selectedDb, this`currentSize, this`state,
        this`scheduled
      ensures Valid() && !child && blocks == []
      ensures var switched := success && openOk && AllWritten(old(blocks), results) && renamed;
        && file == (if switched then old(childFile + Concat(blocks)) else old(file))
        && state == (if switched && old(state) == WaitRewrite then On else old(state))
        && scheduled == (old(scheduled) || state == WaitRewrite)
        && (switched && old(fd) != NoFd ==> aofBuf == [] && fd == OpenFd && selectedDb == NO_DB)
        && (!switched || old(fd) == NoFd ==> unchanged(`aofBuf, `fd, `selectedDb, `currentSize))
        && (switched && old(fd) != NoFd ==> currentSize == if sized then |file| else old(currentSize))
        && (switched && (sized || old(fd) == NoFd) ==> Sized())
        && (!switched && old(Sized()) ==> Sized())
    {
      if success && openOk {
        SwitchOver(results, renamed, sized);
      }
      hide Loads, Packed, Sane;
      ResetRewriteBuffer();
      child := false;
      if state == WaitRewrite {
        scheduled := true;
      }
    }

    /** The parent's part of a successful rewrite. */
    method SwitchOver(results: seq<int>, renamed: bool, sized: bool)
      requires Valid() && child && |results| == |blocks| && read <= clock
      requires forall i :: 0 <= i < |blocks| ==> -1 <= results[i] <= |blocks[i]|
      modifies this`file, this`fd, this`aofBuf, this`selectedDb, this`currentSize, this`state
      ensures Shape() && !exited
      ensures state == On ==> Loads(others, file + aofBuf, data, selectedDb, clock)
      ensures var switched := AllWritten(blocks, results) && renamed;
        && file == (if switched then childFile + Concat(blocks) else old(file))
        && state == (if switched && old(state) == WaitRewrite then On else old(state))
        && (switched && old(fd) != NoFd ==>
             aofBuf == [] && fd == OpenFd && selectedDb == NO_DB
             && currentSize == if sized then |file| else old(currentSize))
        && (!switched || old(fd) == NoFd ==> unchanged(`aofBuf, `fd, `selectedDb, `currentSize))
    {
      hide Loads, Packed, Sane, Concat, AllWritten;
      var count, out := WriteRewriteBuffer(results);
      if count == -1 {
        return;
      }
      if !renamed {
        return;
      }
      if state != Off {
        LoadsNone(others, childFile + Concat(blocks), data, selectedDb, clock);
      }
      LoadsWith(others, childFile + out, [], data, NO_DB, clock);
      Adopt(out, sized);
    }

    /** The renamed file becomes the log. */
    method Adopt(out: string, sized: bool)
      requires Shape() && !exited
      requires state != Off ==> Loads(others, childFile + out + [], data, NO_DB, clock)
      modifies this`file, this`fd, this`aofBuf, this`selectedDb, this`currentSize, this`state
      ensures Shape() && file == childFile + out
      ensures state == On ==> Loads(others, file + aofBuf, data, selectedDb, clock)
      ensures state == if old(state) == WaitRewrite then On else old(state)
      ensures old(fd) != NoFd ==>
        aofBuf == [] && fd == OpenFd && selectedDb == NO_DB
        && currentSize == if sized then |file| else old(currentSize)
      ensures old(fd) == NoFd ==> unchanged(`aofBuf, `fd, `selectedDb, `currentSize)
    {
      hide Loads, Packed, Sane, Concat;
      file := childFile + out;
      if fd != NoFd {
        fd := OpenFd;
        selectedDb := NO_DB;
        if sized {
          currentSize := |file|;
        }
        aofBuf := [];
      }
      if state == WaitRewrite {
        state := On;
      }
    }

    // ---- switching on and off

    /** startAppendOnly: openOk is open's success, reading what the child will read from the clock. */
    method Start(openOk: bool, forked: bool, orders: seq<Order>, reading: nat) returns (ok: bool)
      requires Valid() && state == Off && Iterated(data, orders)
      modifies this`fd, this`state, this`child, this`childFile, this`read, this`scheduled, this`selectedDb
      ensures Valid() && Sized()
      ensures ok == (openOk && forked && !old(child))
      ensures state == if ok then WaitRewrite else Off
      ensures fd == if !openOk then NoFd else if ok then OpenFd else ClosedFd
      ensures ok ==> child && !scheduled && selectedDb == NO_DB && Concat(blocks) == [] && read == reading
      ensures ok ==> ValidOrders(data, orders) && childFile == PrintAll(RewriteCommands(data, orders, 0, reading))
      ensures ok ==> forall now: nat :: Loads(others, childFile, data, NO_DB, now) <==> InTime(data, reading, now)
      ensures !ok ==> unchanged(`child, `childFile, `read, `scheduled, `selectedDb)
    {
      hide Loads, Packed, Sane, Concat, Iterated, ValidOrders, InTime;
      fd := if openOk then OpenFd else NoFd;
      if fd == NoFd {
        return false;
      }
      ok := RewriteBackground(forked, orders, reading);
      if !ok {
        fd := ClosedFd;
        return;
      }
      state := WaitRewrite;
    }

    /** stopAppendOnly: the buffer is flushed at once; a child is killed. */
    method Stop(n: int, truncated: bool)
      requires Valid() && state != Off && -1 <= n <= |aofBuf|
      modifies this`aofBuf, this`file, this`currentSize, this`writeError, this`exited, this`fd, this`selectedDb,
        this`state, this`blocks, this`child
      ensures !exited ==> Valid() && state == Off && fd == NoFd && !child && selectedDb == NO_DB && Concat(blocks) == []
      ensures var d := Disk(old(file), old(aofBuf), old(currentSize));
        var d1 := if d.buf == [] then d else Flushed(d, n, truncated);
        file == d1.file && (!exited ==> aofBuf == d1.buf && currentSize == d1.size)
      ensures exited <==> old(aofBuf) != [] && fsyncAlways && n != |old(aofBuf)|
      ensures old(state) == On && n == |old(aofBuf)| ==> Loads(others, file, data, old(selectedDb), clock)
    {
      ghost var log, selected := file + aofBuf, selectedDb;
      hide Loads, Packed, Sane, Concat;
      Flush(true, false, n, truncated);
      if exited {
        return;
      }
      assert n == |old(aofBuf)| ==> file == log;
      fd := NoFd;
      selectedDb := NO_DB;
      state := Off;
      if child {
        ResetRewriteBuffer();
        child := false;
      }
    }

    // ---- starting up

    /** A server without a log. */
    constructor Plain(others: Others, fsyncAlways: bool, data: seq<Db>, file: string, now: nat)
      requires 0 < |data| <= INT_MAX && Sane(data)
      ensures Valid() && Sized() && state == Off && this.data == data && this.file == file && clock == now
    {
      this.others, this.fsyncAlways := others, fsyncAlways;
      this.data, clock := data, now;
      state, fd, selectedDb := Off, NoFd, NO_DB;
      aofBuf, blocks := [], [];
      child, childFile, read := false, [], 0;
      this.file, currentSize := file, 0;
      scheduled, writeError, exited := false, false, false;
    }

    /** A server that loads its log at start-up. */
    constructor Loaded(others: Others, fsyncAlways: bool, dbnum: nat, file: string, sized: bool, now: nat)
      requires 0 < dbnum <= INT_MAX && Replay(others, Empty(dbnum), file, now).Some?
      ensures state == On && this.file == file && clock == now && (sized ==> Sized())
      ensures aofBuf == [] && !child && blocks == [] && fd == OpenFd && selectedDb == NO_DB && !exited
      ensures Sane(data) && Absolute(file) ==> Valid()
      ensures data == Replay(others, Empty(dbnum), file, now).value.data
    {
      this.others, this.fsyncAlways := others, fsyncAlways;
      var loaded := Load(others, file, dbnum, now);
      data, clock := loaded.value.data, now;
      state, fd, selectedDb := On, OpenFd, NO_DB;
      aofBuf, blocks := [], [];
      child, childFile, read := false, [], 0;
      this.file, currentSize := file, if sized then |file| else 0;
      scheduled, writeError, exited := false, false, false;
      new;
      if Sane(data) && Absolute(file) {
        AbsoluteLoads(others, dbnum, file, now);
        assert file + aofBuf == file;
      }
    }
  }

  /** What a server reloads from its own log, flushed, is what its invariant asks for. */
  lemma RestartSane(others: Others, log: string, data: seq<Db>, selected: int, now: nat, later: nat)
    requires data != [] && Sane(data) && Loads(others, log, data, selected, now)
    ensures var r := Replay(others, Empty(|data|), log, later);
      r.Some? && Absolute(log) && Sane(r.value.data) && Trails(r.value.data, data, now)
  {
    RestartLoads(others, log, data, selected, now, later);
    var copy := Replay(others, Empty(|data|), log, later).value.data;
    hide Loads, Replay, Absolute, SaneValue, SaneExpire;
    forall i | 0 <= i < |copy|
      ensures SaneDb(copy[i])
    {
      assert TrailsDb(copy[i], data[i], now) && SaneDb(data[i]);
    }
  }

  lemma AbsoluteLoads(others: Others, dbnum: nat, log: string, now: nat)
    requires dbnum > 0 && Absolute(log) && Replay(others, Empty(dbnum), log, now).Some?
    ensures Loads(others, log, Replay(others, Empty(dbnum), log, now).value.data, NO_DB, now)
  {
    hide Replay, Absolute;
    var data := Replay(others, Empty(dbnum), log, now).value.data;
    forall load: nat
      ensures LoadsAt(others, log, data, NO_DB, now, load)
    {
      AbsoluteTimeless(others, Empty(dbnum), log, load, now);
    }
  }

  lemma LoadsWith(others: Others, log: string, tail: string, data: seq<Db>, selected: int, now: nat)
    requires data != [] && tail == []
    ensures Loads(others, log, data, selected, now) <==> Loads(others, log + tail, data, selected, now)
  {
    assert log + tail == log;
  }

  lemma LoadsNone(others: Others, log: string, data: seq<Db>, selected: int, now: nat)
    requires data != []
    ensures Loads(others, log, data, selected, now) ==> Loads(others, log, data, NO_DB, now)
  {
    if Loads(others, log, data, selected, now) {
      LoadsLater(others, log, data, selected, now, now);
    }
  }

  function Later(a: nat, b: nat): nat {
    if a < b then b else a
  }

  /** What expireIfNeeded leaves. */
  function Expired(data: seq<Db>, id: nat, k: string, now: nat): seq<Db>
    requires id < |data|
  {
    if k in data[id] && data[id][k].expire >= 0 && data[id][k].expire < now
    then data[id := data[id] - {k}] else data
  }

  lemma DelRuns(others: Others, s: Session, k: string, now: nat)
    requires Selected(s) && |k| <= LLONG_MAX && Sane(s.data)
    ensures var argv := ["DEL", k];
      && Callable(others, s, argv, now) && TimeFits(argv, now) && Reproducible(s.data[s.sel], argv)
      && (forall horizon: nat :: Blind(others, s, argv, now, horizon))
      && Run(others, s, argv, now, false).value.data == s.data[s.sel := s.data[s.sel] - {k}]
      && Sane(Run(others, s, argv, now, false).value.data)
  {
    var argv := ["DEL", k];
    assert VerbOf(argv[0]) == Del by {
      LoggedVerbs();
    }
    hide VerbOf;
    assert (set x | x in argv[1..]) == {k};
    assert Modelled(argv) && Printable(argv);
    RunSane(others, s, argv, now);
  }

  lemma ModelledCallable(others: Others, s: Session, argv: seq<string>, now: nat)
    requires Selected(s) && Modelled(argv) && Printable(argv) && VerbOf(argv[0]) != Select
    ensures Callable(others, s, argv, now) && forall horizon: nat :: OthersTrail(others, s, argv, now, horizon)
  {
    hide VerbOf, RunDb;
  }

  predicate Written(block: string, result: int) {
    block == [] || result == |block|
  }

  ghost predicate AllWritten(blocks: seq<string>, results: seq<int>)
    requires |results| == |blocks|
  {
    forall i :: 0 <= i < |blocks| ==> Written(blocks[i], results[i])
  }

  /** The SELECT that precedes a command for another database. */
  method SelectText(id: nat) returns (s: string)
    ensures s == PrintAll([["SELECT", Dec(id)]])
  {
    var seldb := Dec(id);
    s := "*2\r\n$6\r\nSELECT\r\n$" + Dec(|seldb|) + "\r\n" + seldb + "\r\n";
    var head := "*2\r\n$6\r\nSELECT\r\n";
    LiteralHeaders();
    hide Header, PrintAll, Dec;
    PrintLiteral("SELECT", [seldb], head);
    assert ["SELECT"] + [seldb] == ["SELECT", seldb];
    var bulk := Bulk(seldb);
    assert bulk == "$" + Dec(|seldb|) + "\r\n" + seldb + "\r\n" by {
      HeaderIs('$', |seldb|);
    }
    assert Bulks([seldb]) == bulk + Bulks([]) && Bulks([]) == [];
    assert s == head + bulk;
  }

  lemma HeaderIs(c: char, n: nat)
    ensures Header(c, n) == [c] + Dec(n) + "\r\n"
  {
  }

  /** catAppendOnlyExpireAtCommand. */
  method CatExpireAtCommand(buf0: string, verb: Verb, key: string, seconds: string, now: nat) returns (buf: string)
    ensures buf == buf0 + Print(["PEXPIREAT", key, DecInt(When(verb, seconds, now))])
  {
    var when := Atoi(seconds);
    if verb == Expire || verb == SetEx || verb == ExpireAt {
      when := when * 1000;
    }
    if verb == Expire || verb == PExpire || verb == SetEx || verb == PSetEx {
      when := when + now;
    }
    assert when == When(verb, seconds, now) by {
      hide Atoi;
    }
    hide *;
    buf := CatGenericCommand(buf0, ["PEXPIREAT", key, DecInt(when)]);
  }

  lemma PrintOne(argv: seq<string>)
    ensures PrintAll([argv]) == Print(argv)
  {
    var none: seq<seq<string>> := [];
    assert [argv][1..] == none;
  }

  lemma PrintTwo(a: seq<string>, b: seq<string>)
    ensures PrintAll([a, b]) == Print(a) + Print(b)
  {
    assert [a, b][1..] == [b];
    PrintOne(b);
  }

  /** The commands feedAppendOnlyFile writes for a command. */
  method TranslatedText(argv: seq<string>, now: nat) returns (buf: string)
    requires argv != []
    ensures buf == PrintAll(Logged(argv, now))
  {
    hide VerbOf, Print, PrintAll, When, DecInt, Dec;
    buf := [];
    var verb := VerbOf(argv[0]);
    ghost var log := Logged(argv, now);
    if (verb == Expire || verb == PExpire || verb == ExpireAt) && |argv| == 3 {
      assert log == [["PEXPIREAT", argv[1], DecInt(When(verb, argv[2], now))]];
      hide *;
      buf := CatExpireAtCommand(buf, verb, argv[1], argv[2], now);
      PrintOne(log[0]);
    } else if (verb == SetEx || verb == PSetEx) && |argv| == 4 {
      assert log == [["SET", argv[1], argv[3]], ["PEXPIREAT", argv[1], DecInt(When(verb, argv[2], now))]];
      hide *;
      buf := CatGenericCommand(buf, ["SET", argv[1], argv[3]]);
      buf := CatExpireAtCommand(buf, verb, argv[1], argv[2], now);
      PrintTwo(log[0], log[1]);
    } else {
      assert log == [argv];
      hide *;
      buf := CatGenericCommand(buf, argv);
      PrintOne(argv);
    }
  }
}
