/** When a commit finds a buffer: over all runs, as far as the size of the log area and the number of readers decide it;
    and runs that end in the panic of bget. */
module LogWorst {
  import opened Basics
  import opened Blocks
  import opened Redo
  import opened Bio
  import opened LogCopy
  import opened LogDevice
  import opened JournalLimits
  import Journal

  /** While others only read elsewhere, a commit finds a buffer exactly when the blocks listed and the buffers in use
      are fewer than the buffers. */
  lemma CommitRoom(log: Log)
    requires log.Valid() && log.Quiet()
    ensures SomeFree(log.cache.buf) <==> |log.lh| + |Using(log.cache.buf)| < NBUF
  {
    RoomIff(log.cache.buf, log.lh);
  }

  /** In every run, whatever is listed leaves a buffer over even if others use `r`. */
  ghost predicate AlwaysRoom(g: Area, d: seq<Block>, r: nat) {
    forall s :: Journal.Reachable(g, d, s) ==> s.lh == [] || |s.lh| + r < NBUF
  }

  /** That is so exactly if the area and the readers leave two buffers: one, and one more because three calls can pass
      the test of log_write together. */
  lemma AlwaysRoomIff(g: Area, d: seq<Block>, r: nat)
    requires ClearLog(g, d) && Spare(g, LOGSIZE) < |d|
    ensures AlwaysRoom(g, d, r) <==> g.size == 1 || g.size + 1 + r < NBUF
  {
    var s := LongestIs(g, d);
    if g.size > 1 && g.size + 1 + r >= NBUF {
      assert s.lh != [] && |s.lh| + r >= NBUF;
    }
  }

  /** In those areas Commit returns true in every state the log reaches in which others use at most `r` buffers. */
  lemma CommitFinds(log: Log, r: nat)
    requires log.Valid() && log.Quiet() && log.committing && log.st.phase.k == 0
    requires |Using(log.cache.buf)| <= r && (log.g.size == 1 || log.g.size + 1 + r < NBUF)
    ensures log.lh == [] || SomeFree(log.cache.buf)
  {
    CommitRoom(log);
    Journal.ReachableSane(log.g, log.d0, log.st);
  }

  /** Three properties and the areas that have them: crash safety, no refusal within budget, room for every commit. No
      two of them hold together in an area to which anything can be logged, except the first two if it is larger than
      LOGSIZE blocks. */
  lemma AreaSizes(g: Area, base: seq<Block>, d: seq<Block>)
    requires ClearLog(g, d) && StandsFor(g, d, base) && Spare(g, LOGSIZE) < |d|
    ensures Recoverable(g, base, d) <==> g.size == 1 || NBUF <= g.size
    ensures NeverTooBig(g, d) <==> LOGSIZE < g.size
    ensures AlwaysRoom(g, d, 0) <==> g.size == 1 || g.size + 1 < NBUF
    ensures !(NeverTooBig(g, d) && AlwaysRoom(g, d, 0))
    ensures Recoverable(g, base, d) && AlwaysRoom(g, d, 0) ==> g.size == 1
  {
    hide Recoverable, NeverTooBig, AlwaysRoom;
    RecoverableIff(g, base, d);
    NeverTooBigIff(g, d);
    AlwaysRoomIff(g, d, 0);
  }

  // ---- runs that end without a buffer ----

  /** Nobody uses a buffer. */
  predicate Idle(buf: seq<Buf>) {
    forall i :: 0 <= i < |buf| ==> buf[i].refcnt == 0
  }

  /** Boot from `image`. */
  method Boot(g: Area, image: seq<Block>, pid: nat) returns (log: Log)
    requires ClearLog(g, image) && pid != 0
    ensures fresh(log) && fresh(log.cache) && fresh(log.cache.disk) && log.g == g && log.d0 == image
    ensures log.Valid() && !log.committing && log.outstanding == 0 && log.lh == [] && Idle(log.cache.buf)
    ensures |log.st.disk| == |image|
  {
    var disk := new Bio.Disk(image);
    var c := new Cache(disk);
    log := new Log(c, g);
    BootsClear(log);
    var ok := log.RecoverFromLog(pid);
    AllIdle(log.cache.buf);
  }

  lemma BootsClear(log: Log)
    requires log.cache.Valid() && log.cache.buf == seq(NBUF, i => EmptyBuf) && log.d0 == log.cache.disk.blocks
    requires Bootable(log.g, log.d0) && log.st == Journal.PowerOn(log.d0)
    requires log.lh == [] && log.outstanding == 0 && !log.committing
    ensures log.Booting()
  {
  }

  lemma AllIdle(buf: seq<Buf>)
    requires |Using(buf)| == 0
    ensures Idle(buf)
  {
    forall i | 0 <= i < |buf|
      ensures buf[i].refcnt == 0
    {
      assert i !in Using(buf);
    }
  }

  /** Let three calls begin. */
  method ThreeCalls(log: Log)
    requires log.Valid() && !log.committing && log.outstanding == 0 && log.lh == [] && |log.st.disk| == |log.d0|
    modifies log`outstanding, log`st
    ensures log.Valid() && Filled(log.g, log.d0, log.st, 0) && log.outstanding == 3
  {
    hide Carries, StaleListed, PinsListed, Coherent, Journal.Reachable;
    var ok := log.BeginOp();
    ok := log.BeginOp();
    ok := log.BeginOp();
  }

  /** One of the calls logs the next block: bread, log_write, brelse. */
  method LogOne(log: Log, m: nat, pid: nat)
    requires log.Valid() && !log.committing && Idle(log.cache.buf) && pid != 0
    requires Filled(log.g, log.d0, log.st, m) && m < LOGSIZE && m + 1 < log.g.size
    requires Spare(log.g, m) < |log.d0|
    modifies log, log.cache, log.cache.disk
    ensures log.Valid() && !log.committing && Idle(log.cache.buf)
    ensures Filled(log.g, log.d0, log.st, m + 1)
  {
    hide Carries, StaleListed, PinsListed, Ring, Permutation, Journal.Reachable, SomeFree, Caller, Share;
    var x := Spare(log.g, m);
    NextRoom(log, m);
    var p := pid + Caller(m);
    var ok, b := log.Read(x, p);
    FillOne(log.g, log.d0, log.st, m, x, log.cache.buf[b].data);
    ok := log.LogWrite(b, p, Caller(m));
    ok := log.Release(b, p);
  }

  lemma NextRoom(log: Log, m: nat)
    requires log.Valid() && !log.committing && Idle(log.cache.buf)
    requires Filled(log.g, log.d0, log.st, m) && m < NBUF
    ensures SomeFree(log.cache.buf) && !Held(log.cache.buf, Spare(log.g, m)) && |log.lh| == m
    ensures forall i :: 0 <= i < |log.cache.buf| && Matches(log.cache.buf[i], 1, Spare(log.g, m)) ==>
      !log.cache.buf[i].dirty
  {
    assert Using(log.cache.buf) == {};
    RoomIff(log.cache.buf, log.lh);
    assert Spare(log.g, m) !in log.lh;
  }

  /** The calls log the first `n` blocks, one after the other. */
  method LogMany(log: Log, n: nat, pid: nat)
    requires log.Valid() && !log.committing && Idle(log.cache.buf) && pid != 0
    requires Filled(log.g, log.d0, log.st, 0) && n <= LOGSIZE && n < log.g.size && Spare(log.g, n) < |log.d0|
    modifies log, log.cache, log.cache.disk
    ensures log.Valid() && !log.committing && Idle(log.cache.buf) && Filled(log.g, log.d0, log.st, n)
  {
    hide Carries, StaleListed, PinsListed, Coherent, Journal.Reachable;
    var m := 0;
    while m < n
      invariant 0 <= m <= n && log.Valid() && !log.committing && Idle(log.cache.buf)
      invariant Filled(log.g, log.d0, log.st, m)
    {
      LogOne(log, m, pid);
      m := m + 1;
    }
  }

  // ---- buffers that are held ----

  /** Process `pid` holds buffer `b` of block `x`, unchanged. */
  predicate HeldFor(buf: seq<Buf>, b: nat, x: nat, pid: nat) {
    && b < |buf| && Matches(buf[b], 1, x) && buf[b].valid && !buf[b].dirty && buf[b].refcnt == 1
    && buf[b].holder == pid
  }

  /** The buffers in use are `bs`, held by the processes from `pid` on for the blocks `xs`. */
  ghost predicate InUse(buf: seq<Buf>, bs: seq<nat>, xs: seq<nat>, pid: nat) {
    && |bs| == |xs| && Bio.Distinct(xs)
    && (forall k :: 0 <= k < |bs| ==> HeldFor(buf, bs[k], xs[k], pid + k))
    && (forall i :: 0 <= i < |buf| && buf[i].refcnt > 0 ==> i in bs)
  }

  /** Moreover these blocks are not listed and are in step with the disk. */
  ghost predicate Holding(log: Log, bs: seq<nat>, xs: seq<nat>, pid: nat)
    reads log, log.cache, log.cache.disk
  {
    && InUse(log.cache.buf, bs, xs, pid)
    && (forall k :: 0 <= k < |xs| ==> xs[k] !in log.lh && !Stale(log.cache.disk.blocks, log.cache.logical, xs[k]))
  }

  lemma {:induction false} MembersCard(s: seq<nat>)
    requires Bio.Distinct(s)
    ensures |Members(s)| == |s|
    decreases |s|
  {
    if s != [] {
      var (n, r) := (|s| - 1, s[..|s| - 1]);
      MembersCard(r);
      assert forall i :: 0 <= i < n ==> r[i] == s[i];
      assert Members(s) == Members(r) + {s[n]};
    }
  }

  lemma InUseCard(buf: seq<Buf>, bs: seq<nat>, xs: seq<nat>, pid: nat)
    requires InUse(buf, bs, xs, pid)
    ensures |Using(buf)| == |bs|
  {
    forall j, k | 0 <= j < k < |bs|
      ensures bs[j] != bs[k]
    {
      assert HeldFor(buf, bs[j], xs[j], pid + j) && HeldFor(buf, bs[k], xs[k], pid + k);
    }
    MembersCard(bs);
    forall i
      ensures i in Using(buf) <==> i in Members(bs)
    {
      if i in Members(bs) {
        var k :| 0 <= k < |bs| && bs[k] == i;
        assert HeldFor(buf, bs[k], xs[k], pid + k);
      }
    }
    assert Using(buf) == Members(bs);
  }

  lemma HoldingRoom(log: Log, bs: seq<nat>, xs: seq<nat>, pid: nat)
    requires log.Valid() && Holding(log, bs, xs, pid)
    ensures SomeFree(log.cache.buf) <==> |log.lh| + |bs| < NBUF
  {
    InUseCard(log.cache.buf, bs, xs, pid);
    forall i | 0 <= i < NBUF && log.cache.buf[i].refcnt > 0
      ensures !log.cache.buf[i].dirty
    {
      var k :| 0 <= k < |bs| && bs[k] == i;
      assert HeldFor(log.cache.buf, bs[k], xs[k], pid + k);
    }
    RoomIff(log.cache.buf, log.lh);
  }

  /** Readers of blocks after the log are no trouble to a commit but for the buffers they take. */
  lemma HoldingQuiet(log: Log, bs: seq<nat>, xs: seq<nat>, pid: nat)
    requires Holding(log, bs, xs, pid) && forall k :: 0 <= k < |xs| ==> IsHome(log.g, xs[k])
    ensures log.Quiet()
  {
    forall i | 0 <= i < |log.cache.buf| && log.cache.buf[i].refcnt > 0
      ensures log.cache.buf[i].blockno in xs
    {
      var k :| 0 <= k < |bs| && bs[k] == i;
      assert HeldFor(log.cache.buf, bs[k], xs[k], pid + k);
    }
  }

  /** What is held is not listed, and the block `x` is neither. */
  lemma NotYet(log: Log, bs: seq<nat>, xs: seq<nat>, x: nat, pid: nat)
    requires log.Valid() && Holding(log, bs, xs, pid) && x !in xs && x !in log.lh && x < |log.cache.disk.blocks|
    ensures !Held(log.cache.buf, x) && !Stale(log.cache.disk.blocks, log.cache.logical, x)
    ensures forall i :: 0 <= i < |log.cache.buf| && Matches(log.cache.buf[i], 1, x) ==> Evictable(log.cache.buf[i])
  {
    forall i | 0 <= i < |log.cache.buf| && Matches(log.cache.buf[i], 1, x)
      ensures Evictable(log.cache.buf[i])
    {
      forall k | 0 <= k < |bs|
        ensures bs[k] != i
      {
        assert HeldFor(log.cache.buf, bs[k], xs[k], pid + k);
      }
    }
  }

  lemma InUseMore(buf: seq<Buf>, bs: seq<nat>, xs: seq<nat>, b: nat, c: Buf, x: nat, pid: nat)
    requires InUse(buf, bs, xs, pid) && x !in xs
    requires b < |buf| && Evictable(buf[b]) && HeldFor(buf[b := c], b, x, pid + |bs|)
    ensures InUse(buf[b := c], bs + [b], xs + [x], pid)
  {
    var buf' := buf[b := c];
    forall k | 0 <= k <= |bs|
      ensures HeldFor(buf', (bs + [b])[k], (xs + [x])[k], pid + k)
    {
      if k < |bs| {
        assert HeldFor(buf, bs[k], xs[k], pid + k);
      }
    }
  }

  lemma InUseLess(buf: seq<Buf>, bs: seq<nat>, xs: seq<nat>, b: nat, c: Buf, pid: nat)
    requires InUse(buf, bs, xs, pid) && bs != [] && b == bs[0] < |buf| && c.refcnt == 0
    ensures InUse(buf[b := c], bs[1..], xs[1..], pid + 1)
  {
    var buf' := buf[b := c];
    forall k | 0 <= k < |bs| - 1
      ensures HeldFor(buf', bs[1..][k], xs[1..][k], pid + 1 + k)
    {
      assert HeldFor(buf, bs[0], xs[0], pid + 0) && HeldFor(buf, bs[k + 1], xs[k + 1], pid + (k + 1));
    }
    forall i | 0 <= i < |buf| && buf'[i].refcnt > 0
      ensures i in bs[1..]
    {
      assert i in bs;
    }
  }

  /** bread of one more block, by one more process. */
  method Hold(log: Log, ghost bs: seq<nat>, ghost xs: seq<nat>, x: nat, pid: nat, p: nat) returns (b: nat)
    requires log.Valid() && pid != 0 && Holding(log, bs, xs, pid) && p == pid + |bs| && x !in xs && x !in log.lh
    requires x < |log.cache.disk.blocks| && |log.lh| + |bs| < NBUF
    modifies log.cache`buf, log.cache.disk
    ensures log.Valid() && Holding(log, bs + [b], xs + [x], pid)
    ensures log.cache.disk.blocks == old(log.cache.disk.blocks)
  {
    hide Carries, StaleListed, PinsListed, Ring, Permutation, Journal.Reachable, SomeFree, InUse;
    NotYet(log, bs, xs, x, pid);
    HoldingRoom(log, bs, xs, pid);
    ghost var buf0 := log.cache.buf;
    var ok;
    ok, b := log.Read(x, p);
    InUseMore(buf0, bs, xs, b, log.cache.buf[b], x, pid);
  }

  /** The spare blocks from number `from` to before number `to`. */
  function Spares(g: Area, from: nat, to: nat): (xs: seq<nat>)
    requires from <= to
  {
    seq<nat>(to - from, k requires 0 <= k => Spare(g, from + k))
  }

  /** So many processes read a spare block each. */
  method HoldMany(log: Log, from: nat, to: nat, pid: nat) returns (bs: seq<nat>)
    requires log.Valid() && pid != 0 && Idle(log.cache.buf) && from <= to && |log.lh| + (to - from) <= NBUF
    requires Spare(log.g, to) <= |log.cache.disk.blocks| && forall j: nat :: from <= j ==> Spare(log.g, j) !in log.lh
    modifies log.cache`buf, log.cache.disk
    ensures log.Valid() && |bs| == to - from && Holding(log, bs, Spares(log.g, from, to), pid)
    ensures log.cache.disk.blocks == old(log.cache.disk.blocks)
  {
    hide Carries, StaleListed, PinsListed, Coherent, Journal.Reachable;
    bs := [];
    var n := from;
    while n < to
      invariant from <= n <= to && |bs| == n - from && log.Valid() && Holding(log, bs, Spares(log.g, from, n), pid)
      invariant log.cache.disk.blocks == old(log.cache.disk.blocks)
    {
      var b := Hold(log, bs, Spares(log.g, from, n), Spare(log.g, n), pid, pid + |bs|);
      assert Spares(log.g, from, n) + [Spare(log.g, n)] == Spares(log.g, from, n + 1);
      bs, n := bs + [b], n + 1;
    }
  }

  // ---- calls that pass the test together ----

  /** The holder of the first buffer logs its block and gives it back. */
  method LogHeld(log: Log, ghost bs: seq<nat>, ghost xs: seq<nat>, b: nat, pid: nat, ghost i: nat, ghost n: nat)
    requires log.Valid() && pid != 0 && Holding(log, bs, xs, pid) && bs != [] && b == bs[0] && xs[0] == Spare(log.g, n)
    requires Race(log.g, log.d0, log.st, n, i) && i < 3 && Spare(log.g, n) < |log.d0|
    modifies log, log.cache
    ensures log.Valid() && Holding(log, bs[1..], xs[1..], pid + 1)
    ensures Race(log.g, log.d0, log.st, n + 1, i + 1)
  {
    hide Carries, StaleListed, PinsListed, Coherent, Journal.Reachable, SomeFree, InUse;
    FirstHeld(log.cache.buf, bs, xs, pid);
    ghost var (buf0, lh0) := (log.cache.buf, log.lh);
    RaceLogs(log.g, log.d0, log.st, n, i, log.cache.buf[b].data);
    log.LogAppend(b, pid, i);
    var ok := log.Release(b, pid);
    InUseLess(buf0, bs, xs, b, log.cache.buf[b], pid);
    assert log.cache.buf == buf0[b := log.cache.buf[b]];
    assert forall k :: 0 <= k < |xs| - 1 ==> xs[1..][k] == xs[k + 1] && xs[k + 1] !in lh0;
  }

  lemma FirstHeld(buf: seq<Buf>, bs: seq<nat>, xs: seq<nat>, pid: nat)
    requires InUse(buf, bs, xs, pid) && bs != []
    ensures |xs| == |bs| && HeldFor(buf, bs[0], xs[0], pid) && forall k :: 0 < k < |xs| ==> xs[k] != xs[0]
  {
    assert HeldFor(buf, bs[0], xs[0], pid + 0);
  }

  /** What the journal makes of it. */
  lemma RaceLogs(g: Area, d: seq<Block>, s: Journal.State, n: nat, i: nat, data: Block)
    requires Journal.Typed(g, s) && Race(g, d, s, n, i) && i < 3 && Spare(g, n) < |d|
    ensures var b: Word := Spare(g, n);
      && |s.open[i].blocks + {b}| <= MAXOPBLOCKS && Journal.Enabled(g, s, Journal.Log(i, b, data))
      && Race(g, d, Journal.Step(g, s, Journal.Log(i, b, data)), n + 1, i + 1)
  {
    var b: Word := Spare(g, n);
    assert b !in s.lh && b !in s.open[i].blocks;
  }

  /** The calls from number `next` on make the test of log_write. */
  method PassTests(log: Log, next: nat)
    requires log.Valid() && log.g.size >= 2 && Filled(log.g, log.d0, log.st, log.g.size - 2)
    requires next <= 1 && log.g.size <= 29 + next
    modifies log`st
    ensures log.Valid() && Race(log.g, log.d0, log.st, log.g.size - 2, next)
  {
    hide Carries, StaleListed, PinsListed, Coherent, Journal.Reachable;
    var ok;
    if next == 0 {
      ok := log.LogTest(0);
    }
    ok := log.LogTest(1);
    ok := log.LogTest(2);
  }

  /** Then each lists its block. */
  method AppendAll(log: Log, held: seq<nat>, next: nat, pid: nat)
    requires log.Valid() && pid != 0 && next <= 1 && |held| == 3 - next
    requires log.g.size >= 2 && Spare(log.g, log.g.size) < |log.d0|
    requires Race(log.g, log.d0, log.st, log.g.size - 2, next)
    requires Holding(log, held, Spares(log.g, log.g.size - 2, log.g.size + 1 - next), pid)
    modifies log, log.cache
    ensures log.Valid() && Holding(log, [], [], pid + |held|) && Race(log.g, log.d0, log.st, log.g.size + 1 - next, 3)
  {
    hide Carries, StaleListed, PinsListed, Coherent, Journal.Reachable, InUse, Race;
    var (bs, i, p) := (held, next, pid);
    ghost var n := log.g.size - 2;
    while i < 3
      invariant next <= i <= 3 && |bs| == 3 - i && p == pid + i - next && n == log.g.size - 2 + i - next
      invariant log.Valid() && Race(log.g, log.d0, log.st, n, i)
      invariant Holding(log, bs, Spares(log.g, n, log.g.size + 1 - next), p)
    {
      ghost var xs := Spares(log.g, n, log.g.size + 1 - next);
      LogHeld(log, bs, xs, bs[0], p, i, n);
      assert xs[1..] == Spares(log.g, n + 1, log.g.size + 1 - next);
      bs, i, p, n := bs[1..], i + 1, p + 1, n + 1;
    }
    assert bs == [] && Spares(log.g, n, log.g.size + 1 - next) == [];
  }

  /** With two blocks of the area left, three calls or two list a block each. */
  method Rush(log: Log, next: nat, pid: nat)
    requires log.Valid() && pid != 0 && Idle(log.cache.buf)
    requires log.g.size >= 2 && Filled(log.g, log.d0, log.st, log.g.size - 2)
    requires next <= 1 && log.g.size <= 29 + next && Spare(log.g, LOGSIZE) < |log.d0|
    modifies log, log.cache, log.cache.disk
    ensures log.Valid() && Idle(log.cache.buf) && Race(log.g, log.d0, log.st, log.g.size + 1 - next, 3)
  {
    hide Carries, StaleListed, PinsListed, Coherent, Journal.Reachable;
    var bs := HoldMany(log, log.g.size - 2, log.g.size + 1 - next, pid);
    PassTests(log, next);
    AppendAll(log, bs, next, pid);
  }

  // ---- the panic ----

  /** The calls have listed the first `n` spare blocks and none is between test and list. */
  ghost predicate Listed(g: Area, d: seq<Block>, s: Journal.State, n: nat) {
    && s.phase.Running? && |s.open| == 3 && |s.disk| == |d| && (forall i :: 0 <= i < 3 ==> !s.open[i].passed)
    && |s.lh| == n && (forall j :: 0 <= j < n ==> s.lh[j] == Spare(g, j))
  }

  /** A run that lists `n` blocks, up to the most that any run can list. */
  method ListMany(log: Log, n: nat, pid: nat)
    requires log.Valid() && Filled(log.g, log.d0, log.st, 0) && !log.committing && Idle(log.cache.buf) && pid != 0
    requires n <= Longest(log.g) && Spare(log.g, LOGSIZE) < |log.d0|
    modifies log, log.cache, log.cache.disk
    ensures log.Valid() && Idle(log.cache.buf) && Listed(log.g, log.d0, log.st, n)
  {
    hide Carries, StaleListed, PinsListed, Coherent, Journal.Reachable;
    if n < log.g.size {
      LogMany(log, n, pid);
    } else {
      LogMany(log, log.g.size - 2, pid);
      Rush(log, log.g.size + 1 - n, pid);
    }
  }

  /** The three calls end; the last one is to commit. */
  method EndAll(log: Log, n: nat)
    requires log.Valid() && Listed(log.g, log.d0, log.st, n)
    modifies log`outstanding, log`committing, log`st
    ensures log.Valid() && log.committing && log.st.phase.k == 0
    ensures |log.lh| == n && forall j :: 0 <= j < n ==> log.lh[j] == Spare(log.g, j)
    ensures |log.st.disk| == |log.d0|
  {
    hide Carries, StaleListed, PinsListed, Coherent, Journal.Reachable;
    var c := log.EndOp(0);
    c := log.EndOp(0);
    c := log.EndOp(0);
  }

  /** A run that lists `n` blocks and comes to commit them while readers use the other buffers. */
  method Crowd(g: Area, image: seq<Block>, n: nat, pid: nat) returns (log: Log)
    requires ClearLog(g, image) && Spare(g, LOGSIZE) < |image| && 1 <= n <= Longest(g) && pid != 0
    ensures fresh(log) && fresh(log.cache) && fresh(log.cache.disk) && log.g == g && log.d0 == image
    ensures log.Valid() && log.Quiet() && log.committing && log.st.phase.k == 0 && |log.lh| == n
    ensures !SomeFree(log.cache.buf) && |Using(log.cache.buf)| == NBUF - n
  {
    hide Carries, StaleListed, PinsListed, Coherent, Journal.Reachable, SomeFree;
    log := Boot(g, image, pid);
    ThreeCalls(log);
    ListMany(log, n, pid);
    EndAll(log, n);
    var bs := HoldMany(log, n, NBUF, pid);
    ghost var xs := Spares(g, n, NBUF);
    InUseCard(log.cache.buf, bs, xs, pid);
    HoldingRoom(log, bs, xs, pid);
    HoldingQuiet(log, bs, xs, pid);
  }

  /** For every number of blocks that a run can list there is one that lists them while readers use the other buffers:
      then commit finds none, and panics. */
  method NoRoom(g: Area, image: seq<Block>, n: nat, pid: nat) returns (log: Log, ok: bool, ghost was: seq<Buf>)
    requires ClearLog(g, image) && Spare(g, LOGSIZE) < |image| && 1 <= n <= Longest(g) && pid != 0
    ensures log.g == g && log.d0 == image && |log.lh| == n && |Using(was)| == NBUF - n && !ok
  {
    hide Carries, StaleListed, PinsListed, Coherent, Journal.Reachable, SomeFree;
    log := Crowd(g, image, n, pid);
    was := log.cache.buf;
    ok := log.Commit(pid);
  }

  /** In the area that mkfs lays out two calls can list a block for every buffer: commit panics though nobody reads. */
  method FullLog(g: Area, image: seq<Block>, pid: nat) returns (log: Log, ok: bool, ghost was: seq<Buf>)
    requires ClearLog(g, image) && Spare(g, LOGSIZE) < |image| && g.size == LOGSIZE && pid != 0
    ensures log.g == g && log.d0 == image && |log.lh| == LOGSIZE && |Using(was)| == 0 && !ok
  {
    log, ok, was := NoRoom(g, image, LOGSIZE, pid);
  }

  /** And with as many blocks as the area has room for, one reader is enough. */
  method OneReader(g: Area, image: seq<Block>, pid: nat) returns (log: Log, ok: bool, ghost was: seq<Buf>)
    requires ClearLog(g, image) && Spare(g, LOGSIZE) < |image| && g.size == LOGSIZE && pid != 0
    ensures log.g == g && log.d0 == image && |log.lh| == g.size - 1 && |Using(was)| == 1 && !ok
  {
    log, ok, was := NoRoom(g, image, g.size - 1, pid);
  }
}
