/** log.c over the buffer cache, in place. Its block writes, in order, are those of `Redo`, and every state it reaches
    is one that a run of `Journal` reaches, so what holds of all runs holds of it. */
module LogDevice {
  import opened Basics
  import opened Blocks
  import opened Redo
  import opened Bio
  import opened LogCopy
  import Journal

  /** Some process holds the buffer of block `x`. */
  predicate Held(buf: seq<Buf>, x: nat) {
    exists i :: 0 <= i < |buf| && Matches(buf[i], 1, x) && buf[i].holder != 0
  }

  /** A stale block is listed, or its holder is about to list it. */
  ghost predicate StaleListed(buf: seq<Buf>, disk: seq<Block>, logical: seq<Block>, lh: seq<Word>) {
    forall x :: Stale(disk, logical, x) ==> x in lh || Held(buf, x)
  }

  /** The journal has the contents of every listed block that nobody holds. */
  ghost predicate Carries(pinned: map<Word, Block>, lh: seq<Word>, buf: seq<Buf>, logical: seq<Block>)
    requires forall i :: 0 <= i < |lh| ==> lh[i] < |logical|
  {
    forall k :: 0 <= k < |lh| && !Held(buf, lh[k]) ==> lh[k] in pinned && pinned[lh[k]] == logical[lh[k]]
  }

  /** The commit that the last end_op starts. */
  predicate Starting(g: Area, s: Journal.State)
    requires Journal.Typed(g, s)
  {
    s.phase == Journal.Committing(Journal.TxnOf(g, s.disk[g.start], s.lh, s.cache), s.disk, 0)
  }

  predicate Tracks(g: Area, s: Journal.State, lh: seq<Word>, committing: bool)
    requires Journal.Typed(g, s)
  {
    if !committing then s.phase.Running? && s.lh == lh
    else
      s.phase.Committing?
      && ((Starting(g, s) && s.lh == lh) || (s.phase.k == Journal.PhaseCount(s.phase) && lh == []))
  }

  class Log {
    const cache: Cache
    const g: Area
    var lh: seq<Word>
    var outstanding: nat
    var committing: bool
    /** The disk at power-on, and where the journal has got to since. */
    ghost const d0: seq<Block>
    ghost var st: Journal.State

    /** initlog, up to the recovery. */
    constructor (c: Cache, area: Area)
      ensures cache == c && g == area && lh == [] && outstanding == 0 && !committing
      ensures d0 == c.disk.blocks && st == Journal.PowerOn(d0)
    {
      cache, g, lh, outstanding, committing := c, area, [], 0, false;
      d0, st := c.disk.blocks, Journal.PowerOn(c.disk.blocks);
    }

    ghost predicate Sound()
      reads this, cache, cache.disk
    {
      cache.Valid() && Fits(g, cache.disk.blocks) && ListOk(g, |cache.disk.blocks|, lh)
    }

    ghost predicate Pinning()
      reads this, cache, cache.disk
    {
      PinsListed(cache.buf, lh) && StaleListed(cache.buf, cache.disk.blocks, cache.logical, lh)
    }

    ghost predicate Journals()
      requires Sound()
      reads this, cache, cache.disk
    {
      && Fits(g, d0) && Journal.Reachable(g, d0, st) && Journal.Typed(g, st)
      && st.disk == cache.disk.blocks && |st.open| == outstanding
      && Tracks(g, st, lh, committing) && Carries(st.cache, lh, cache.buf, cache.logical)
    }

    /** The lists are well formed, exactly the listed blocks are pinned, and this is where a run of the journal is. */
    ghost predicate Valid()
      reads this, cache, cache.disk
    {
      Sound() && Pinning() && Journals()
    }

    // ---- the loops of commit and recovery ----

    /** A resting cache, in which other processes use none of the log's blocks and none of the listed ones. */
    ghost predicate Ready(pins: set<nat>, o: Others)
      reads this, cache, cache.disk
    {
      && Calm(cache, pins, o) && |cache.logical| == |cache.disk.blocks|
      && Fits(g, cache.disk.blocks) && ListOk(g, |cache.disk.blocks|, lh)
      && (forall x :: g.start <= x < g.start + g.size ==> x in o.own) && (forall i :: 0 <= i < |lh| ==> lh[i] in o.own)
    }

    /** The list fits the log area, or all buffers are pinned or in use, so that nothing will be written. */
    ghost predicate InArea()
      reads this, cache
    {
      |lh| < g.size || (1 < g.size && !SomeFree(cache.buf))
    }

    /** One turn of the copy to the log. */
    method LogNext(pid: nat, tail: nat, ghost pins: set<nat>, ghost o: Others, ghost v: View, ghost ws: seq<Write>)
      returns (ok: bool)
      requires Ready(pins, o) && pid != 0 && tail < |lh| && tail + 1 < g.size && lh[tail] in pins
      requires (forall x :: x in pins ==> IsHome(g, x)) && tail < |ws| && Played(cache, v, ws, tail)
      requires ws[tail] == Write(g.start + 1 + tail, cache.logical[lh[tail]])
      modifies cache, cache.disk
      ensures ok == SomeFree(old(cache.buf))
      ensures !ok ==> cache.disk.history == old(cache.disk.history)
      ensures ok ==> Ready(pins, o) && SomeFree(cache.buf) && Played(cache, v, ws, tail + 1)
      ensures ok ==> cache.logical == old(cache.logical)[ws[tail].bno := ws[tail].data]
    {
      hide Ring, Permutation, Unique, Rests, StaleIn, SomeFree, TwoFree, Play;
      ok := CopyNext(cache, g.start + 1 + tail, lh[tail], true, pid, pins, o, v, ws, tail);
      assert pins - {g.start + 1 + tail} == pins;
    }

    /** Copy the listed blocks from the cache to the log. */
    method WriteLog(pid: nat, ghost pins: set<nat>, ghost o: Others) returns (ok: bool)
      requires Ready(pins, o) && InArea() && pid != 0
      requires (forall x :: x in pins ==> IsHome(g, x)) && (forall i :: 0 <= i < |lh| ==> lh[i] in pins)
      modifies cache, cache.disk
      ensures ok == (lh == [] || SomeFree(old(cache.buf)))
      ensures !ok ==> cache.disk.history == old(cache.disk.history)
      ensures ok && lh != [] ==> SomeFree(cache.buf)
      ensures ok ==>
        && Ready(pins, o) && |lh| < g.size
        && Leads(old(Seen(cache)), LogWrites(g, lh, old(cache.logical)), Seen(cache))
    {
      hide Calm, SomeFree, Play, Leads;
      ghost var v := Seen(cache);
      ghost var ws := LogWrites(g, if |lh| < g.size then lh else lh[..1], cache.logical);
      PlayedNothing(cache, ws);
      var tail := 0;
      ok := true;
      while tail < |lh|
        invariant 0 <= tail <= |lh| && Ready(pins, o)
        invariant tail > 0 ==> SomeFree(cache.buf) && SomeFree(old(cache.buf))
        invariant if tail == 0 then cache.buf == old(cache.buf) else |lh| < g.size
        invariant Played(cache, v, ws, tail)
        invariant forall i :: 0 <= i < |lh| ==> cache.logical[lh[i]] == v.logical[lh[i]]
      {
        ok := LogNext(pid, tail, pins, o, v, ws);
        if !ok { return; }
        tail := tail + 1;
      }
      PlayedLeads(cache, v, ws);
    }

    /** One turn of the copy to the home locations. It needs a buffer for the log block and, unless it is still pinned,
        one for the home block. */
    method InstallNext(pid: nat, tail: nat, ghost pins: set<nat>, ghost o: Others, ghost v: View, ghost ws: seq<Write>)
      requires Ready(pins, o) && pid != 0 && tail < |lh| < g.size && (forall x :: x in pins ==> IsHome(g, x))
      requires TwoFree(cache.buf) || (SomeFree(cache.buf) && lh[tail] in pins)
      requires tail < |ws| && Played(cache, v, ws, tail)
      requires ws[tail] == Write(lh[tail], cache.logical[g.start + 1 + tail])
      modifies cache, cache.disk
      ensures Ready(pins - {lh[tail] as int}, o) && TwoFree(cache.buf) && Played(cache, v, ws, tail + 1)
      ensures cache.logical == old(cache.logical)[ws[tail].bno := ws[tail].data]
    {
      hide Ring, Permutation, Unique, Rests, StaleIn, TwoFree, SomeFree, Play;
      SomeOfTwo(cache.buf);
      var ok := CopyNext(cache, g.start + 1 + tail, lh[tail], false, pid, pins, o, v, ws, tail);
    }

    /** Copy the logged blocks to their home locations. */
    method InstallTrans(pid: nat, ghost pins: set<nat>, ghost o: Others)
      requires Ready(pins, o) && pid != 0 && |lh| < g.size && (forall x :: x in pins ==> x in lh)
      requires lh == [] || TwoFree(cache.buf) || (SomeFree(cache.buf) && forall i :: 0 <= i < |lh| ==> lh[i] in pins)
      modifies cache, cache.disk
      ensures Ready({}, o) && (if lh == [] then cache.buf == old(cache.buf) else TwoFree(cache.buf))
      ensures Leads(old(Seen(cache)), InstallWrites(g, lh, old(cache.logical)), Seen(cache))
    {
      hide Ring, Permutation, Unique, Calm, TwoFree, SomeFree, Play, Leads;
      ghost var (v, ws) := (Seen(cache), InstallWrites(g, lh, cache.logical));
      PlayedNothing(cache, ws);
      ghost var left := pins;
      var tail := 0;
      while tail < |lh|
        invariant 0 <= tail <= |lh| && Ready(left, o)
        invariant left <= pins && (forall i :: 0 <= i < tail ==> lh[i] !in left)
        invariant if tail == 0 then cache.buf == old(cache.buf) && left == pins else TwoFree(cache.buf)
        invariant Played(cache, v, ws, tail)
        invariant forall i :: 0 <= i < |lh| ==> cache.logical[g.start + 1 + i] == ws[i].data
      {
        InstallNext(pid, tail, left, o, v, ws);
        left := left - {lh[tail] as int};
        tail := tail + 1;
      }
      assert left == {};
      PlayedLeads(cache, v, ws);
    }

    /** Write the list of blocks into the header block, entry by entry, and write that to disk. */
    method WriteHead(pid: nat, ghost pins: set<nat>, ghost o: Others) returns (ok: bool)
      requires Ready(pins, o) && pid != 0 && g.start !in pins
      modifies cache, cache.disk
      ensures ok == SomeFree(old(cache.buf))
      ensures !ok ==> cache.disk.history == old(cache.disk.history)
      ensures ok ==>
        && Ready(pins, o) && SomeFree(cache.buf)
        && Leads(old(Seen(cache)), [Write(g.start, PutHeader(old(cache.logical)[g.start], lh))], Seen(cache))
    {
      hide Ring, Permutation, Unique, Rests, StaleIn;
      ghost var (v, buf0) := (Seen(cache), cache.buf);
      FirstRoom(buf0, pins, o, g.start);
      NotHeld(cache, pins, o, g.start);
      var b;
      ok, b := Bread(cache, g.start, pid);
      if !ok { return; }
      var h := EncodeHeader(cache.buf[b].data, lh);
      Replace(cache, b, g.start, h, pid, pins, o, buf0);
      LeadsOne(v, g.start, h);
    }

    /** Read the header block into the in-memory list. */
    method ReadHead(pid: nat, ghost o: Others) returns (ok: bool)
      requires Calm(cache, {}, o) && pid != 0 && Bootable(g, cache.logical) && g.start in o.own
      modifies this`lh, cache, cache.disk
      ensures ok == SomeFree(old(cache.buf)) && cache.logical == old(cache.logical)
      ensures cache.disk.blocks == old(cache.disk.blocks) && cache.disk.history == old(cache.disk.history)
      ensures ok ==> lh == HeaderOf(cache.logical[g.start]) && Calm(cache, {}, o)
      ensures ok && TwoFree(old(cache.buf)) ==> TwoFree(cache.buf)
    {
      var h;
      ok, h := Peek(cache, g.start, pid, o);
      if ok {
        lh := DecodeHeader(h);
      }
    }

    /** Other processes use only blocks that the log does not, and have not changed them. */
    ghost predicate Quiet()
      reads this, cache, cache.disk
    {
      forall i :: 0 <= i < |cache.buf| && cache.buf[i].refcnt > 0 && cache.buf[i].dev == 1 ==>
        var x := cache.buf[i].blockno;
        IsHome(g, x) && x !in lh && !Stale(cache.disk.blocks, cache.logical, x)
    }

    /** commit, while other processes may be reading. It panics exactly when no buffer is free, before anything is
        written; otherwise it makes the writes of the journal's commit, nothing stays pinned, and buffers in use are
        left alone. */
    method Commit(pid: nat) returns (ok: bool)
      requires Valid() && pid != 0 && committing && st.phase.k == 0 && Quiet() && (lh != [] ==> InArea())
      modifies this`lh, this`st, cache, cache.disk
      ensures ok == (old(lh) == [] || SomeFree(old(cache.buf)))
      ensures !ok ==> lh == old(lh) && cache.disk.history == old(cache.disk.history)
      ensures ok ==>
        && Valid() && lh == [] && st.phase == Journal.Later(old(st).phase, Journal.PhaseCount(old(st).phase))
        && cache.disk.history == old(cache.disk.history) + Journal.PhaseWrites(g, old(st).phase)
        && forall i :: 0 <= i < NBUF && old(cache.buf)[i].refcnt > 0 ==> cache.buf[i] == old(cache.buf)[i]
    {
      hide Calm, Coherent, SomeFree, Journal.Reachable, Play, CommitWrites, Around, Carries, Tracks, Pinning;
      ok := true;
      NothingToCommit(this);
      if |lh| > 0 {
        ghost var (pins, o) := (Members(lh), Around(g, lh, cache.buf));
        QuietReady(this);
        CommitAgrees(this);
        ok := Perform(pid, pins, o);
        if !ok { return; }
        st := Journal.WriteRun(g, d0, st, Journal.PhaseCount(st.phase));
        CommittedValid(this, o);
        LeftAlone(this, old(lh), old(cache.buf));
      }
    }

    /** The writes of commit. */
    method Perform(pid: nat, ghost pins: set<nat>, ghost o: Others) returns (ok: bool)
      requires Ready(pins, o) && InArea() && pid != 0 && pins == Members(lh) && lh != []
      modifies this`lh, cache, cache.disk
      ensures ok == SomeFree(old(cache.buf))
      ensures !ok ==> lh == old(lh) && cache.disk.history == old(cache.disk.history)
      ensures ok ==>
        && Ready({}, o) && lh == []
        && Leads(old(Seen(cache)), CommitWrites(g, TxnIn(g, old(lh), old(cache.logical))), Seen(cache))
    {
      hide Calm, SomeFree;
      ghost var v0 := Seen(cache);
      ok := WriteLog(pid, pins, o);
      if !ok { return; }
      ghost var v1 := Seen(cache);
      ok := WriteHead(pid, pins, o);
      ghost var v2 := Seen(cache);
      InstallTrans(pid, pins, o);
      ghost var v3 := Seen(cache);
      lh := [];
      SomeOfTwo(cache.buf);
      ok := WriteHead(pid, {}, o);
      CommitChain(g, old(lh), v0, v1, v2, v3, Seen(cache));
    }

    /** The cache at boot is unused, and the disk has a log. */
    ghost predicate Booting()
      reads this, cache, cache.disk
    {
      && cache.Valid() && (forall i :: 0 <= i < NBUF ==> Evictable(cache.buf[i]))
      && d0 == cache.disk.blocks && Bootable(g, d0) && st == Journal.PowerOn(d0)
      && lh == [] && outstanding == 0 && !committing
    }

    /** recover_from_log at boot: it makes the writes of the journal's recovery. */
    method RecoverFromLog(pid: nat) returns (ok: bool)
      requires Booting() && pid != 0
      modifies this`lh, this`st, cache, cache.disk
      ensures ok && Valid() && lh == [] && st.phase.Running? && Quiet() && |Using(cache.buf)| == 0
      ensures |cache.disk.blocks| == |d0|
      ensures cache.disk.history == old(cache.disk.history) + RecoveryWrites(g, Logged(g, d0))
    {
      hide Ring, Permutation, Unique, Journal.Reachable, Calm, TwoFree;
      ghost var o := Others(Below(|cache.disk.blocks|), map[]);
      BootCalm(cache, o);
      ok := Replay(pid, o);
      st := BootRun(g, d0);
      BootedValid(this, o);
    }

    /** The writes of recover_from_log. */
    method Replay(pid: nat, ghost o: Others) returns (ok: bool)
      requires Calm(cache, {}, o) && pid != 0 && TwoFree(cache.buf) && Bootable(g, cache.disk.blocks)
      requires o.own == Below(|cache.disk.blocks|)
      modifies this`lh, cache, cache.disk
      ensures ok && lh == [] && Ready({}, o)
      ensures Leads(old(Seen(cache)), RecoveryWrites(g, Logged(g, old(cache.disk.blocks))), Seen(cache))
    {
      hide Calm, SomeFree, TwoFree, Leads, RecoveryWrites;
      ghost var v0 := Seen(cache);
      AllInStep(cache, o);
      SomeOfTwo(cache.buf);
      ok := ReadHead(pid, o);
      ghost var n := lh;
      InstallTrans(pid, {}, o);
      ghost var v1 := Seen(cache);
      lh := [];
      SomeOfTwo(cache.buf);
      ok := WriteHead(pid, {}, o);
      RecoveryChain(g, n, v0, v1, Seen(cache));
    }

    // ---- what system calls do ----

    /** bread by a process that does not have to wait for the buffer. */
    method Read(x: nat, pid: nat) returns (ok: bool, b: nat)
      requires Valid() && pid != 0 && x < |cache.disk.blocks| && !Held(cache.buf, x)
      modifies cache`buf, cache.disk
      ensures Valid() && cache.disk.history == old(cache.disk.history)
      ensures ok == (Cached(old(cache.buf), 1, x) || SomeFree(old(cache.buf)))
      ensures !ok ==> cache.buf == old(cache.buf)
      ensures ok ==>
        && b < NBUF && cache.buf[b].data == cache.logical[x]
        && (if Cached(old(cache.buf), 1, x) then Matches(old(cache.buf)[b], 1, x) else Evictable(old(cache.buf)[b]))
        && cache.buf == old(cache.buf)[b := Buf(1, x, true, old(cache.buf)[b].dirty, old(cache.buf)[b].refcnt + 1, pid,
                                                cache.buf[b].data)]
    {
      hide Ring, Permutation, Journal.Reachable;
      ghost var buf0 := cache.buf;
      ok, b := Bread(cache, x, pid);
      if ok {
        ReadKeeps(buf0, b, cache.buf[b], lh, cache.disk.blocks, cache.logical, st.cache);
      }
    }

    /** The holder of a buffer changes its contents. */
    method Modify(b: nat, pid: nat, data: Block)
      requires Valid() && b < NBUF && pid != 0 && cache.buf[b].holder == pid && cache.buf[b].valid
      modifies cache`buf, cache`logical
      ensures Valid() && cache.buf == old(cache.buf)[b := old(cache.buf)[b].(data := data)]
      ensures cache.logical == old(cache.logical)[cache.buf[b].blockno := data]
    {
      hide Ring, Permutation, Unique, Journal.Reachable;
      ghost var (buf0, logical0) := (cache.buf, cache.logical);
      cache.Update(b, pid, data);
      ModifyKeeps(buf0, b, data, lh, cache.disk.blocks, logical0, st.cache);
    }

    /** Give a buffer back: if it was changed it has been passed to log_write since. */
    method Release(b: nat, pid: nat) returns (ok: bool)
      requires Valid() && b < NBUF && pid != 0 && cache.buf[b].valid
      requires var x := cache.buf[b].blockno;
        if cache.buf[b].dirty then x in st.cache && st.cache[x] == cache.buf[b].data
        else cache.buf[b].data == cache.disk.blocks[x]
      modifies cache`buf, cache`next, cache`prev, cache`order, cache`pos
      ensures Valid() && ok == (old(cache.buf)[b].holder == pid)
      ensures !ok ==> cache.buf == old(cache.buf)
      ensures ok ==>
        && old(cache.buf)[b].refcnt > 0
        && cache.buf == old(cache.buf)[b := old(cache.buf)[b].(holder := 0, refcnt := old(cache.buf)[b].refcnt - 1)]
    {
      hide Ring, Permutation, Journal.Reachable;
      ghost var buf0 := cache.buf;
      ok := cache.Brelse(b, pid);
      if ok {
        ReleaseKeeps(buf0, b, cache.buf[b], lh, cache.disk.blocks, cache.logical, st.cache);
      }
    }

    /** The tests at the head of log_write, by call `i`, made without the lock. Refusal is a panic. */
    method LogTest(ghost i: nat) returns (ok: bool)
      requires Valid() && (outstanding >= 1 ==> i < outstanding && !st.open[i].passed)
      modifies this`st
      ensures Valid() && ok == (!Journal.TooBig(g, |lh|) && outstanding >= 1)
      ensures if ok then Journal.Next(g, old(st), Journal.Test(i), st) else st == old(st)
    {
      hide Journal.Reachable, Carries;
      if |lh| >= LOGSIZE || |lh| >= g.size - 1 { return false; }
      if outstanding < 1 { return false; }
      OpenRunning(g, d0, st);
      st := Journal.Extend(g, d0, st, Journal.Test(i));
      return true;
    }

    /** The section of log_write under log.lock, by call `i`, which has passed the tests and keeps to its MAXOPBLOCKS
        blocks: list the block once, pin its buffer. */
    method LogAppend(b: nat, pid: nat, ghost i: nat)
      requires Valid() && b < NBUF && cache.buf[b].holder == pid != 0 && cache.buf[b].valid
      requires IsHome(g, cache.buf[b].blockno) && i < outstanding && st.open[i].passed
      requires |st.open[i].blocks + {cache.buf[b].blockno}| <= MAXOPBLOCKS
      modifies this`lh, this`st, cache`buf
      ensures Valid() && old(cache.buf)[b].blockno < WORD_LIMIT
      ensures lh == Journal.Absorb(old(lh), old(cache.buf)[b].blockno)
      ensures cache.buf == old(cache.buf)[b := old(cache.buf)[b].(dirty := true)]
      ensures Journal.Next(g, old(st), Journal.Log(i, cache.buf[b].blockno, cache.buf[b].data), st)
    {
      hide Ring, Permutation, Unique, Journal.Reachable;
      var x: Word := cache.buf[b].blockno;
      ghost var (buf0, a) := (cache.buf, Journal.Log(i, x, cache.buf[b].data));
      OpenRunning(g, d0, st);
      st := Journal.Extend(g, d0, st, a);
      Journal.AbsorbKeepsList(g, |cache.disk.blocks|, lh, x);
      Enlist(x);
      cache.Pin(b);
      LogKeeps(buf0, b, old(lh), x, cache.disk.blocks, cache.logical, old(st).cache);
    }

    /** log_write, uninterrupted. */
    method LogWrite(b: nat, pid: nat, ghost i: nat) returns (ok: bool)
      requires Valid() && b < NBUF && cache.buf[b].holder == pid != 0 && cache.buf[b].valid
      requires IsHome(g, cache.buf[b].blockno)
      requires outstanding >= 1 ==> i < outstanding && !st.open[i].passed
      requires outstanding >= 1 ==> |st.open[i].blocks + {cache.buf[b].blockno}| <= MAXOPBLOCKS
      modifies this`lh, this`st, cache`buf
      ensures Valid() && ok == (!Journal.TooBig(g, |old(lh)|) && outstanding >= 1)
      ensures !ok ==> lh == old(lh) && cache.buf == old(cache.buf) && st == old(st)
      ensures ok ==>
        && old(cache.buf)[b].blockno < WORD_LIMIT && lh == Journal.Absorb(old(lh), old(cache.buf)[b].blockno)
        && cache.buf == old(cache.buf)[b := old(cache.buf)[b].(dirty := true)]
        && Journal.Typed(g, old(st)) && Journal.Enabled(g, old(st), Journal.Test(i))
        && Journal.Next(g, Journal.Step(g, old(st), Journal.Test(i)),
                        Journal.Log(i, cache.buf[b].blockno, cache.buf[b].data), st)
    {
      hide Sound, Pinning, Carries, Tracks, Journal.Reachable;
      ok := LogTest(i);
      if ok {
        LogAppend(b, pid, i);
      }
    }

    /** The loop of log_write: a block that is listed is not listed again. */
    method Enlist(x: Word)
      modifies this`lh
      ensures lh == Journal.Absorb(old(lh), x)
    {
      var k := 0;
      while k < |lh| && lh[k] != x
        invariant 0 <= k <= |lh| && forall j :: 0 <= j < k ==> lh[j] != x
      {
        k := k + 1;
      }
      lh := if k == |lh| then lh + [x] else lh[k := x];
    }

    /** One pass of the loop in begin_op: admitted, or has to sleep. */
    method BeginOp() returns (admitted: bool)
      requires Valid()
      modifies this`outstanding, this`st
      ensures Valid() && admitted == (!committing && Journal.Admits(|lh|, old(outstanding)))
      ensures outstanding == old(outstanding) + if admitted then 1 else 0
      ensures if admitted then Journal.Next(g, old(st), Journal.Begin, st) else st == old(st)
    {
      hide Journal.Reachable, Carries;
      if committing { return false; }
      if |lh| + (outstanding + 1) * MAXOPBLOCKS > LOGSIZE { return false; }
      outstanding := outstanding + 1;
      st := Journal.Extend(g, d0, st, Journal.Begin);
      return true;
    }

    /** The first section of end_op, by call `i`: the last one out commits. The panic does not happen. */
    method EndOp(ghost i: nat) returns (doCommit: bool)
      requires Valid() && i < outstanding && !st.open[i].passed
      modifies this`outstanding, this`committing, this`st
      ensures Valid() && outstanding == old(outstanding) - 1 && !old(committing)
      ensures doCommit == committing == (outstanding == 0)
      ensures Journal.Next(g, old(st), Journal.End(i), st) && (committing ==> st.phase.k == 0)
    {
      hide Journal.Reachable, Carries;
      OpenRunning(g, d0, st);
      outstanding := outstanding - 1;
      if committing { assert false; }
      ghost var s := st;
      st := Journal.Extend(g, d0, st, Journal.End(i));
      Journal.EndPhase(g, s, i);
      if outstanding == 0 {
        committing := true;
        return true;
      }
      return false;
    }

    /** The last section of end_op, once commit has returned. */
    method Done()
      requires Valid() && committing && st.phase.k == Journal.PhaseCount(st.phase)
      modifies this`committing, this`st
      ensures Valid() && !committing && Journal.Next(g, old(st), Journal.Finish, st)
    {
      hide Journal.Reachable;
      FinishEmpty(g, st, lh);
      committing := false;
      st := Journal.Extend(g, d0, st, Journal.Finish);
    }
  }

  // ---- the parts of a commit and a recovery ----

  /** The blocks that a commit uses, and the buffers that others are using. */
  ghost function Around(g: Area, lh: seq<Word>, buf: seq<Buf>): (o: Others) {
    Others((set x | x in Below(g.start + g.size) && !IsHome(g, x)) + Members(lh),
           map i: nat | i < |buf| && buf[i].refcnt > 0 :: buf[i])
  }

  lemma HeldInStep(log: Log, x: nat)
    requires log.cache.Valid() && log.Quiet()
    ensures Held(log.cache.buf, x) ==> !Stale(log.cache.disk.blocks, log.cache.logical, x)
  {
  }

  lemma RestsAround(g: Area, lh: seq<Word>, buf: seq<Buf>)
    requires PinsListed(buf, lh)
    requires forall i :: 0 <= i < |buf| && buf[i].refcnt > 0 && buf[i].dev == 1 ==>
      IsHome(g, buf[i].blockno) && buf[i].blockno !in lh
    ensures Rests(buf, Members(lh), Around(g, lh, buf))
    ensures forall x :: g.start <= x < g.start + g.size ==> x in Around(g, lh, buf).own
    ensures forall i :: 0 <= i < |lh| ==> lh[i] in Around(g, lh, buf).own
  {
    forall x: nat | g.start <= x < g.start + g.size
      ensures x in Around(g, lh, buf).own
    {
      assert x in Below(g.start + g.size) && !IsHome(g, x);
    }
    forall x | x in Members(lh)
      ensures Pinned(buf, x)
    {
      var k :| 0 <= k < |lh| && lh[k] == x;
      assert Pinned(buf, lh[k]);
    }
  }

  lemma QuietReady(log: Log)
    requires log.Valid() && log.Quiet()
    ensures log.Ready(Members(log.lh), Around(log.g, log.lh, log.cache.buf))
  {
    hide Ring, Permutation, Unique, Rests, Around;
    var c := log.cache;
    RestsAround(log.g, log.lh, c.buf);
    forall x | Stale(c.disk.blocks, c.logical, x)
      ensures x in Members(log.lh)
    {
      HeldInStep(log, x);
      assert x in log.lh;
    }
  }

  /** In the areas that are crash safe, a list that does not fit the area has pinned every buffer. */
  lemma RoomyInArea(log: Log)
    requires log.Valid() && log.Quiet() && log.committing && log.st.phase.k == 0 && log.lh != [] && Journal.Roomy(log.g)
    ensures log.InArea()
  {
    RoomIff(log.cache.buf, log.lh);
    Journal.ReachableSane(log.g, log.d0, log.st);
  }

  /** The transaction is that of the journal. */
  lemma CommitAgrees(log: Log)
    requires log.Valid() && log.Quiet() && log.committing && log.st.phase.k == 0 && log.lh != []
    ensures log.st.phase.before == log.cache.disk.blocks && log.st.phase.txn.lh == log.lh
    ensures SomeFree(log.cache.buf) ==> Journal.Writing(log.st.phase)
    ensures |log.lh| < log.g.size ==> Journal.OnScript(log.g, log.st)
    ensures Journal.PhaseWrites(log.g, log.st.phase) == CommitWrites(log.g, TxnIn(log.g, log.lh, log.cache.logical))
  {
    var (c, lh, s) := (log.cache, log.lh, log.st);
    assert !Stale(c.disk.blocks, c.logical, log.g.start);
    forall k | 0 <= k < |lh|
      ensures lh[k] in s.cache && s.cache[lh[k]] == c.logical[lh[k]]
    {
      assert !Held(c.buf, lh[k]);
    }
    assert s.phase.txn == TxnIn(log.g, lh, c.logical);
    RoomIff(c.buf, lh);
  }

  lemma NothingToCommit(log: Log)
    requires log.Valid() && log.committing && log.st.phase.k == 0
    ensures log.st.phase.Committing? && (log.lh == [] ==> Journal.PhaseCount(log.st.phase) == 0)
    ensures log.lh == [] ==> Journal.PhaseWrites(log.g, log.st.phase) == []
  {
  }

  lemma LeftAlone(log: Log, lh: seq<Word>, was: seq<Buf>)
    requires log.Ready({}, Around(log.g, lh, was)) && |was| == NBUF
    ensures |log.cache.buf| == NBUF
    ensures forall i :: 0 <= i < NBUF && was[i].refcnt > 0 ==> log.cache.buf[i] == was[i]
  {
  }

  lemma CommittedValid(log: Log, o: Others)
    requires log.Ready({}, o) && log.lh == [] && log.committing
    requires Fits(log.g, log.d0) && Journal.Reachable(log.g, log.d0, log.st)
    requires Journal.Typed(log.g, log.st) && log.st.disk == log.cache.disk.blocks && |log.st.open| == log.outstanding
    requires log.st.phase.Committing? && log.st.phase.k == Journal.PhaseCount(log.st.phase)
    ensures log.Valid()
  {
  }

  lemma BootCalm(c: Cache, o: Others)
    requires c.Valid() && (forall i :: 0 <= i < NBUF ==> Evictable(c.buf[i])) && o.held == map[]
    ensures Calm(c, {}, o) && TwoFree(c.buf)
  {
    assert Evictable(c.buf[0]) && Evictable(c.buf[1]);
  }

  /** The journal from power-on to the end of its recovery. */
  lemma BootRun(g: Area, d: seq<Block>) returns (t: Journal.State)
    requires Bootable(g, d)
    ensures Journal.Reachable(g, d, t) && Journal.Typed(g, t) && t.phase.Running?
    ensures t.lh == [] && t.cache == map[] && t.open == []
    ensures var ws := RecoveryWrites(g, Logged(g, d)); InRange(ws, |d|) && t.disk == Play(d, ws, |ws|)
  {
    var s := Journal.PowerOn(d);
    assert Journal.Run(g, d, [s], []);
    assert Journal.Reachable(g, d, s);
    Journal.ReachableSane(g, d, s);
    s := Journal.Extend(g, d, s, Journal.Boot);
    LoggedHolds(g, d);
    RecoveryInRange(g, d, Logged(g, d));
    s := Journal.WriteRun(g, d, s, Journal.PhaseCount(s.phase));
    t := Journal.Extend(g, d, s, Journal.Finish);
  }

  lemma BootedValid(log: Log, o: Others)
    requires log.Ready({}, o) && o.held == map[] && log.lh == [] && !log.committing && log.outstanding == 0
    requires Fits(log.g, log.d0) && Journal.Reachable(log.g, log.d0, log.st)
    requires Journal.Typed(log.g, log.st) && log.st.disk == log.cache.disk.blocks
    requires log.st.phase.Running? && log.st.lh == [] && log.st.open == []
    ensures log.Valid() && log.Quiet() && |Using(log.cache.buf)| == 0
  {
    assert Using(log.cache.buf) == {};
  }

  /** Cut the writes of a commit, if it finds a buffer for them, short anywhere: the disk is that of a state the journal
      reaches, and stands for the updates that were durable there. */
  lemma CutShort(log: Log, base: seq<Block>, k: nat) returns (t: Journal.State)
    requires log.Valid() && log.committing && log.st.phase.k == 0
    requires Journal.Roomy(log.g) && StandsFor(log.g, log.d0, base)
    requires Journal.Writing(log.st.phase) && k <= Journal.PhaseCount(log.st.phase)
    ensures Journal.Reachable(log.g, log.d0, t) && t.phase == Journal.Later(log.st.phase, k)
    ensures Journal.UpdatesOk(log.g, |base|, t.durable)
    ensures var ws := Journal.PhaseWrites(log.g, log.st.phase);
      && |ws| == Journal.PhaseCount(log.st.phase) && InRange(ws, |log.cache.disk.blocks|)
      && StandsFor(log.g, Play(log.cache.disk.blocks, ws, k), Journal.Updated(base, t.durable))
  {
    hide Calm, Coherent, Carries, Journal.Reachable, StandsFor, Play, Journal.UpdatesOk;
    t := CutRun(log.g, base, log.d0, log.st, k);
  }

  lemma CutRun(g: Area, base: seq<Block>, d: seq<Block>, s: Journal.State, k: nat) returns (t: Journal.State)
    requires Journal.Roomy(g) && Fits(g, d) && StandsFor(g, d, base)
    requires Journal.Reachable(g, d, s) && Journal.Typed(g, s)
    requires s.phase.Committing? && s.phase.k == 0 && Journal.Writing(s.phase) && k <= Journal.PhaseCount(s.phase)
    ensures Journal.Reachable(g, d, t) && t.phase == Journal.Later(s.phase, k)
    ensures Journal.UpdatesOk(g, |base|, t.durable)
    ensures var ws := Journal.PhaseWrites(g, s.phase);
      && |ws| == Journal.PhaseCount(s.phase) && InRange(ws, |s.disk|)
      && StandsFor(g, Play(s.disk, ws, k), Journal.Updated(base, t.durable))
  {
    hide Journal.Reachable, StandsFor, Journal.Inv, Journal.PhaseWrites, Journal.PhaseCount;
    Journal.ReachableInv(g, base, d, s);
    Journal.PhaseDisk(g, base, s);
    t := Journal.WriteRun(g, d, s, k);
    Journal.ReachableInv(g, base, d, t);
    Journal.AlwaysRecoverable(g, base, t);
  }

  // ---- what single changes to a buffer keep ----

  /** A process comes to hold a buffer: that of its block, or one that was free. */
  lemma ReadKeeps(buf: seq<Buf>, b: nat, c: Buf, lh: seq<Word>, disk: seq<Block>, logical: seq<Block>,
                  pinned: map<Word, Block>)
    requires b < |buf| && c.holder != 0 && c.dirty == buf[b].dirty
    requires Matches(c, buf[b].dev, buf[b].blockno) || (Evictable(buf[b]) && buf[b].holder == 0)
    requires forall i :: 0 <= i < |lh| ==> lh[i] < |logical|
    requires PinsListed(buf, lh) && StaleListed(buf, disk, logical, lh) && Carries(pinned, lh, buf, logical)
    ensures PinsListed(buf[b := c], lh) && StaleListed(buf[b := c], disk, logical, lh)
    ensures Carries(pinned, lh, buf[b := c], logical)
  {
    var buf' := buf[b := c];
    HeldGrows(buf, b, c);
    forall k | 0 <= k < |lh|
      ensures Pinned(buf', lh[k])
    {
      assert Pinned(buf, lh[k]);
      var i :| 0 <= i < |buf| && Matches(buf[i], 1, lh[k]) && buf[i].dirty;
      assert Matches(buf'[i], 1, lh[k]) && buf'[i].dirty;
    }
  }

  lemma HeldGrows(buf: seq<Buf>, b: nat, c: Buf)
    requires b < |buf| && c.holder != 0 && (Matches(c, buf[b].dev, buf[b].blockno) || buf[b].holder == 0)
    ensures forall x :: Held(buf, x) ==> Held(buf[b := c], x)
  {
    forall x | Held(buf, x)
      ensures Held(buf[b := c], x)
    {
      var i :| 0 <= i < |buf| && Matches(buf[i], 1, x) && buf[i].holder != 0;
      assert Matches(buf[b := c][i], 1, x) && buf[b := c][i].holder != 0;
    }
  }

  lemma ModifyKeeps(buf: seq<Buf>, b: nat, data: Block, lh: seq<Word>, disk: seq<Block>, logical: seq<Block>,
                    pinned: map<Word, Block>)
    requires b < |buf| && buf[b].holder != 0 && buf[b].dev == 1 && buf[b].blockno < |logical| == |disk|
    requires forall i :: 0 <= i < |lh| ==> lh[i] < |logical|
    requires PinsListed(buf, lh) && StaleListed(buf, disk, logical, lh) && Carries(pinned, lh, buf, logical)
    ensures var (buf', logical') := (buf[b := buf[b].(data := data)], logical[buf[b].blockno := data]);
      PinsListed(buf', lh) && StaleListed(buf', disk, logical', lh) && Carries(pinned, lh, buf', logical')
  {
    var (c, logical') := (buf[b].(data := data), logical[buf[b].blockno := data]);
    ReadKeeps(buf, b, c, lh, disk, logical, pinned);
    var buf' := buf[b := c];
    assert Matches(buf'[b], 1, buf[b].blockno) && Held(buf', buf[b].blockno);
    forall x | Stale(disk, logical', x)
      ensures x in lh || Held(buf', x)
    {
      if x != buf[b].blockno {
        assert Stale(disk, logical, x);
      }
    }
  }

  /** A buffer is given back: its block is in step with the disk, or pinned with the contents that the journal has. */
  lemma ReleaseKeeps(buf: seq<Buf>, b: nat, c: Buf, lh: seq<Word>, disk: seq<Block>, logical: seq<Block>,
                     pinned: map<Word, Block>)
    requires b < |buf| && c == buf[b].(holder := 0, refcnt := c.refcnt) && Unique(buf) && buf[b].dev == 1
    requires buf[b].blockno < |logical| == |disk| && buf[b].data == logical[buf[b].blockno]
    requires buf[b].dirty ==>
      buf[b].blockno < WORD_LIMIT && buf[b].blockno in pinned && pinned[buf[b].blockno] == buf[b].data
    requires !buf[b].dirty ==> buf[b].data == disk[buf[b].blockno]
    requires forall i :: 0 <= i < |lh| ==> lh[i] < |logical|
    requires PinsListed(buf, lh) && StaleListed(buf, disk, logical, lh) && Carries(pinned, lh, buf, logical)
    ensures PinsListed(buf[b := c], lh) && StaleListed(buf[b := c], disk, logical, lh)
    ensures Carries(pinned, lh, buf[b := c], logical)
  {
    var (buf', x) := (buf[b := c], buf[b].blockno);
    forall k | 0 <= k < |lh|
      ensures Pinned(buf', lh[k]) && (lh[k] == x ==> buf[b].dirty)
    {
      assert Pinned(buf, lh[k]);
      var i :| 0 <= i < |buf| && Matches(buf[i], 1, lh[k]) && buf[i].dirty;
      assert Matches(buf'[i], 1, lh[k]) && buf'[i].dirty;
      if lh[k] == x {
        UniqueAt(buf, i, b);
      }
    }
    forall y | y != x && Held(buf, y)
      ensures Held(buf', y)
    {
      var i :| 0 <= i < |buf| && Matches(buf[i], 1, y) && buf[i].holder != 0;
      assert Matches(buf'[i], 1, y) && buf'[i].holder != 0;
    }
  }

  /** A held buffer is pinned and its block listed. */
  lemma LogKeeps(buf: seq<Buf>, b: nat, lh: seq<Word>, x: Word, disk: seq<Block>, logical: seq<Block>,
                 pinned: map<Word, Block>)
    requires b < |buf| && buf[b].holder != 0 && Matches(buf[b], 1, x) && x < |logical| && buf[b].data == logical[x]
    requires forall i :: 0 <= i < |lh| ==> lh[i] < |logical|
    requires PinsListed(buf, lh) && StaleListed(buf, disk, logical, lh) && Carries(pinned, lh, buf, logical)
    ensures var (buf', lh') := (buf[b := buf[b].(dirty := true)], Journal.Absorb(lh, x));
      && PinsListed(buf', lh') && StaleListed(buf', disk, logical, lh')
      && (forall i :: 0 <= i < |lh'| ==> lh'[i] < |logical|)
      && Carries(pinned[x := logical[x]], lh', buf', logical)
  {
    var (buf', lh') := (buf[b := buf[b].(dirty := true)], Journal.Absorb(lh, x));
    HeldGrows(buf, b, buf'[b]);
    forall y | Held(buf', y)
      ensures Held(buf, y)
    {
      var i :| 0 <= i < |buf| && Matches(buf'[i], 1, y) && buf'[i].holder != 0;
      assert Matches(buf[i], 1, y) && buf[i].holder != 0;
    }
    forall k | 0 <= k < |lh'|
      ensures Pinned(buf', lh'[k])
    {
      if lh'[k] == x {
        assert Matches(buf'[b], 1, x) && buf'[b].dirty;
      } else {
        assert lh'[k] == lh[k] && Pinned(buf, lh[k]);
        var i :| 0 <= i < |buf| && Matches(buf[i], 1, lh[k]) && buf[i].dirty;
        assert Matches(buf'[i], 1, lh[k]) && buf'[i].dirty;
      }
    }
  }

  /** Calls are open only while the log is running. */
  lemma OpenRunning(g: Area, d: seq<Block>, s: Journal.State)
    requires Fits(g, d) && Journal.Reachable(g, d, s) && s.open != []
    ensures s.phase.Running?
  {
    Journal.ReachableSane(g, d, s);
  }

  lemma FinishEmpty(g: Area, s: Journal.State, lh: seq<Word>)
    requires Journal.Typed(g, s) && Tracks(g, s, lh, true)
    requires s.phase.k == Journal.PhaseCount(s.phase)
    ensures lh == [] && Journal.Enabled(g, s, Journal.Finish)
  {
  }
}
