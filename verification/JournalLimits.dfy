/** What the size of the log area decides: whether log_write can refuse a block, whether the disk survives crashes, and
    how long the list of logged blocks gets. */
module JournalLimits {
  import opened Basics
  import opened Blocks
  import opened Redo
  import opened Journal

  // ---- runs that fill the log ----

  /** The `j`-th block after the log. */
  function Spare(g: Area, j: nat): (b: nat) {
    g.start + g.size + j
  }

  /** Which of three calls logs the `j`-th of thirty blocks: nine each, and then one each. */
  function Caller(j: nat): (i: nat) {
    if j < 27 then j / 9 else j - 27
  }

  /** How many of the first `m` call `i` logs. */
  function Share(m: nat, i: nat): (n: nat) {
    (if m <= 9 * i then 0 else if m <= 9 * i + 9 then m - 9 * i else 9) + (if m > 27 + i then 1 else 0)
  }

  lemma ShareNext(m: nat, i: nat)
    requires m < LOGSIZE && i < 3
    ensures Caller(m) < 3 && Share(m + 1, i) == Share(m, i) + if i == Caller(m) then 1 else 0
    ensures Share(m, Caller(m)) < MAXOPBLOCKS
  {
  }

  /** Three open calls that have logged the first `m` spare blocks; nothing has been committed. */
  ghost predicate Filled(g: Area, d: Disk, s: State, m: nat) {
    && s.phase.Running? && |s.open| == 3 && |s.disk| == |d|
    && |s.lh| == m && (forall j :: 0 <= j < m ==> s.lh[j] == Spare(g, j))
    && (forall i :: 0 <= i < 3 ==> !s.open[i].passed && |s.open[i].blocks| == Share(m, i))
    && (forall i, b :: 0 <= i < 3 && b in s.open[i].blocks ==> b in s.lh)
  }

  /** The disk has a clear log and the home blocks of `d`, and no update is durable. */
  ghost predicate Fresh(g: Area, d: Disk, s: State) {
    s.durable == [] && ClearLog(g, s.disk) && HomeEq(g, d, s.disk)
  }

  /** A reachable running state with no open call. */
  lemma StartUp(g: Area, d: Disk) returns (s: State)
    requires ClearLog(g, d)
    ensures Reachable(g, d, s) && Typed(g, s) && s.phase.Running? && s.open == [] && s.lh == [] && |s.disk| == |d|
    ensures Fresh(g, d, s)
  {
    s := PowerOn(d);
    assert Run(g, d, [s], []);
    ReachableSane(g, d, s);
    s := Extend(g, d, s, Boot);
    HeaderRoundTrip(d[g.start], []);
    s := Extend(g, d, s, WriteBlock);
    s := Extend(g, d, s, Finish);
  }

  lemma StartThree(g: Area, d: Disk) returns (s: State)
    requires ClearLog(g, d)
    ensures Reachable(g, d, s) && Typed(g, s) && Filled(g, d, s, 0) && Fresh(g, d, s)
  {
    s := StartUp(g, d);
    hide Reachable, Fresh;
    s := Extend(g, d, s, Begin);
    s := Extend(g, d, s, Begin);
    s := Extend(g, d, s, Begin);
  }

  lemma FillTest(g: Area, d: Disk, s: State, m: nat)
    requires Filled(g, d, s, m) && Typed(g, s) && m < LOGSIZE && m + 1 < g.size && Fits(g, d)
    ensures Caller(m) < 3 && Enabled(g, s, Test(Caller(m))) && Typed(g, Step(g, s, Test(Caller(m))))
    ensures var i := Caller(m); Step(g, s, Test(i)) == s.(open := s.open[i := s.open[i].(passed := true)])
  {
    hide Caller, Share;
    ShareNext(m, 0);
  }

  /** One call passes the test and logs the next block. */
  lemma FillOne(g: Area, d: Disk, s: State, m: nat, b: Word, data: Block)
    requires Filled(g, d, s, m) && Typed(g, s) && m < LOGSIZE && m + 1 < g.size && Fits(g, d) && b == Spare(g, m) < |d|
    ensures Enabled(g, s, Test(Caller(m))) && Typed(g, Step(g, s, Test(Caller(m))))
    ensures var t := Step(g, s, Test(Caller(m)));
      && Enabled(g, t, Log(Caller(m), b, data)) && Filled(g, d, Step(g, t, Log(Caller(m), b, data)), m + 1)
  {
    hide Caller, Share, Typed;
    FillTest(g, d, s, m);
    ShareNext(m, 0);
    ShareNext(m, 1);
    ShareNext(m, 2);
    var (i, t) := (Caller(m), Step(g, s, Test(Caller(m))));
    assert b !in s.lh && b !in s.open[i].blocks;
    assert |s.open[i].blocks + {b}| == |s.open[i].blocks| + 1;
  }

  /** Any number of blocks up to the log's limit can be logged by three calls within their budgets. */
  lemma {:induction false} Fill(g: Area, d: Disk, m: nat) returns (s: State)
    requires ClearLog(g, d) && Spare(g, m) < |d| && m <= LOGSIZE && m < g.size
    ensures Reachable(g, d, s) && Typed(g, s) && Filled(g, d, s, m) && Fresh(g, d, s)
  {
    if m == 0 {
      s := StartThree(g, d);
    } else {
      var t := Fill(g, d, m - 1);
      s := FillNext(g, d, t, m - 1);
    }
  }

  lemma FillNext(g: Area, d: Disk, t: State, m: nat) returns (s: State)
    requires ClearLog(g, d) && Reachable(g, d, t) && Typed(g, t) && Filled(g, d, t, m) && Fresh(g, d, t)
    requires Spare(g, m) < |d| && m < LOGSIZE && m + 1 < g.size
    ensures Reachable(g, d, s) && Typed(g, s) && Filled(g, d, s, m + 1) && Fresh(g, d, s)
  {
    FillOne(g, d, t, m, Spare(g, m), d[g.start]);
    hide Reachable, Filled, ClearLog;
    s := Extend(g, d, t, Test(Caller(m)));
    s := Extend(g, d, s, Log(Caller(m), Spare(g, m), d[g.start]));
  }

  // ---- when log_write can refuse a block ----

  /** A write by open call `i` of a block it has not logged yet, within the promise of MAXOPBLOCKS blocks per call. */
  predicate InBudget(s: State, i: nat, b: Word) {
    s.phase.Running? && i < |s.open| && b !in s.open[i].blocks && |s.open[i].blocks| < MAXOPBLOCKS
  }

  /** No run from disk `d` reaches a state where log_write stops the kernel on a write within budget. */
  ghost predicate NeverTooBig(g: Area, d: Disk) {
    forall s, i: nat, b: Word :: Reachable(g, d, s) && InBudget(s, i, b) ==> !TooBig(g, |s.lh|)
  }

  lemma InBudgetFits(s: State, i: nat, b: Word)
    requires BudgetInv(s) && InBudget(s, i, b)
    ensures |s.lh| < LOGSIZE
  {
    UnusedAtLeast(s.open, i);
  }

  /** With room for the header, log_write refuses a block, new or not, exactly when the log is full, and then every open
      call has used its whole budget. */
  lemma RefusalMeansFull(g: Area, d: Disk, s: State)
    requires Fits(g, d) && Reachable(g, d, s) && s.phase.Running? && LOGSIZE < g.size
    ensures TooBig(g, |s.lh|) <==> |s.lh| == LOGSIZE
    ensures TooBig(g, |s.lh|) ==> forall i :: 0 <= i < |s.open| ==> |s.open[i].blocks| == MAXOPBLOCKS
  {
    ReachableSane(g, d, s);
    forall i | 0 <= i < |s.open|
      ensures MAXOPBLOCKS - |s.open[i].blocks| <= Unused(s.open)
    {
      UnusedAtLeast(s.open, i);
    }
    UnusedNonNegative(s.open);
  }

  /** A log area that also has room for its header, that is one block more than LOGSIZE, is exactly what log_write needs
      never to refuse a write within budget. mkfs lays out LOGSIZE blocks. */
  lemma NeverTooBigIff(g: Area, d: Disk)
    requires ClearLog(g, d) && Spare(g, LOGSIZE) < |d|
    ensures NeverTooBig(g, d) <==> LOGSIZE < g.size
  {
    if LOGSIZE < g.size {
      forall s, i: nat, b: Word | Reachable(g, d, s) && InBudget(s, i, b)
        ensures !TooBig(g, |s.lh|)
      {
        ReachableSane(g, d, s);
        InBudgetFits(s, i, b);
      }
    } else {
      var m := g.size - 1;
      var s := Fill(g, d, m);
      ShareNext(m, 0);
      assert Spare(g, m) !in s.lh;
      assert InBudget(s, Caller(m), Spare(g, m)) && TooBig(g, |s.lh|);
    }
  }

  /** The refusal of a block that is already logged does happen, however large the log area, because the test precedes
      absorption: here no block the first call may still log within its promise would need a new slot. */
  lemma AbsorbedWriteRefused(g: Area, d: Disk)
    requires ClearLog(g, d) && Spare(g, LOGSIZE) < |d| && LOGSIZE < g.size
    ensures exists s, b :: Reachable(g, d, s) && s.phase.Running? && |s.open| == 3 && b in s.open[0].blocks
                           && b in s.lh && TooBig(g, |s.lh|)
  {
    var s := Fill(g, d, LOGSIZE);
    assert |s.open[0].blocks| == 10;
    var b :| b in s.open[0].blocks;
    assert b in s.lh;
  }

  // ---- calls that pass the test together ----

  /** Three open calls, the first `n` spare blocks logged; the calls from number `next` on have passed the test and have
      budget left. */
  ghost predicate Race(g: Area, d: Disk, s: State, n: nat, next: nat) {
    && s.phase.Running? && |s.open| == 3 && |s.disk| == |d|
    && |s.lh| == n && (forall j :: 0 <= j < n ==> s.lh[j] == Spare(g, j))
    && (forall i :: 0 <= i < 3 ==> (s.open[i].passed <==> next <= i))
    && (forall i :: next <= i < 3 ==> |s.open[i].blocks| < MAXOPBLOCKS)
    && (forall i, b :: 0 <= i < 3 && b in s.open[i].blocks ==> b in s.lh)
  }

  /** The test lets a call through, whatever other calls it has let through before. */
  lemma RacePass(g: Area, d: Disk, s: State, m: nat, i: nat) returns (t: State)
    requires Fits(g, d) && Reachable(g, d, s) && Typed(g, s) && s.phase.Running? && m + 2 <= g.size && m < LOGSIZE
    requires |s.lh| == m && i < |s.open| && !s.open[i].passed
    ensures Reachable(g, d, t) && Typed(g, t) && t == s.(open := s.open[i := s.open[i].(passed := true)])
  {
    t := Extend(g, d, s, Test(i));
  }

  /** With two blocks left, counting the header's, the calls from number `next` on all pass. */
  lemma RaceStart(g: Area, d: Disk, s: State, m: nat, next: nat) returns (t: State)
    requires Fits(g, d) && Reachable(g, d, s) && Typed(g, s) && Filled(g, d, s, m) && Fresh(g, d, s)
    requires m + 2 <= g.size && m < LOGSIZE && next <= 1 && m <= 27 + next
    ensures Reachable(g, d, t) && Typed(g, t) && Fresh(g, d, t) && Race(g, d, t, m, next)
  {
    hide Reachable, Fresh, Typed;
    t := s;
    if next == 0 {
      t := RacePass(g, d, t, m, 0);
    }
    t := RacePass(g, d, t, m, 1);
    t := RacePass(g, d, t, m, 2);
    assert Fresh(g, d, t) by {
      FreshSame(g, d, s, t);
    }
  }

  lemma FreshSame(g: Area, d: Disk, s: State, t: State)
    requires Fresh(g, d, s) && t.disk == s.disk && t.durable == s.durable
    ensures Fresh(g, d, t)
  {
  }

  /** One of them logs its block. */
  lemma RaceNext(g: Area, d: Disk, s: State, n: nat, next: nat, z: Block) returns (t: State)
    requires Fits(g, d) && Reachable(g, d, s) && Typed(g, s) && Fresh(g, d, s) && Race(g, d, s, n, next)
    requires next < 3 && Spare(g, n) < |d|
    ensures Reachable(g, d, t) && Typed(g, t) && Fresh(g, d, t) && Race(g, d, t, n + 1, next + 1)
    ensures Spare(g, n) in t.cache && t.cache[Spare(g, n)] == z
  {
    var b: Word := Spare(g, n);
    assert b !in s.lh && b !in s.open[next].blocks;
    t := Extend(g, d, s, Log(next, b, z));
    FreshSame(g, d, s, t);
  }

  /** Hence the list gets longer than the test allows: by two blocks if three calls pass, and by one if two do. */
  lemma Together(g: Area, d: Disk, next: nat, z: Block) returns (s: State)
    requires ClearLog(g, d) && Spare(g, LOGSIZE) < |d| && 2 <= g.size <= 29 + next && next <= 1
    ensures Reachable(g, d, s) && Typed(g, s) && Fresh(g, d, s) && Race(g, d, s, g.size + 1 - next, 3)
    ensures Spare(g, g.size - next) in s.cache && s.cache[Spare(g, g.size - next)] == z
  {
    hide Reachable, Fresh, Typed, Race, Filled;
    var m := g.size - 2;
    s := Fill(g, d, m);
    s := RaceStart(g, d, s, m, next);
    if next == 0 {
      s := RaceNext(g, d, s, m, 0, z);
      s := RaceNext(g, d, s, m + 1, 1, z);
      s := RaceNext(g, d, s, m + 2, 2, z);
    } else {
      s := RaceNext(g, d, s, m, 1, z);
      s := RaceNext(g, d, s, m + 1, 2, z);
    }
  }

  // ---- how long the list gets ----

  /** The longest list that a run can reach. */
  function Longest(g: Area): (n: nat) {
    if g.size <= 1 then 0 else Min(LOGSIZE, g.size + 1)
  }

  /** No run lists more blocks than that, and some run lists as many. */
  lemma LongestIs(g: Area, d: Disk) returns (s: State)
    requires ClearLog(g, d) && Spare(g, LOGSIZE) < |d|
    ensures forall t :: Reachable(g, d, t) ==> |t.lh| <= Longest(g)
    ensures Reachable(g, d, s) && |s.lh| == Longest(g)
  {
    forall t | Reachable(g, d, t)
      ensures |t.lh| <= Longest(g)
    {
      ReachableSane(g, d, t);
    }
    hide Reachable;
    if g.size <= 1 {
      s := StartUp(g, d);
    } else if g.size <= 29 {
      s := Together(g, d, 0, d[g.start]);
    } else if g.size == 30 {
      s := Together(g, d, 1, d[g.start]);
    } else {
      s := Fill(g, d, LOGSIZE);
    }
  }

  // ---- when the disk survives crashes ----

  /** In every state that a run reaches, the disk stands for `base` with the durable updates. */
  ghost predicate Recoverable(g: Area, base: Disk, d: Disk) {
    forall s :: Reachable(g, d, s) ==>
      UpdatesOk(g, |base|, s.durable) && StandsFor(g, s.disk, Updated(base, s.durable))
  }

  /** The three calls end. */
  lemma EndThree(g: Area, d: Disk, s: State, n: nat) returns (t: State)
    requires Fits(g, d) && Reachable(g, d, s) && Typed(g, s) && Race(g, d, s, n, 3)
    ensures Reachable(g, d, t) && Typed(g, t) && t.disk == s.disk && t.durable == s.durable && t.lh == s.lh
    ensures t.phase == Committing(TxnOf(g, s.disk[g.start], s.lh, s.cache), s.disk, 0)
  {
    hide Reachable;
    t := Extend(g, d, s, End(0));
    t := Extend(g, d, t, End(0));
    t := Extend(g, d, t, End(0));
  }

  function OtherBlock(b: Block): (z: Block)
    ensures z != b
  {
    b[0 := if b[0] == 0 then 1 else 0]
  }

  /** In an area of two blocks or more, but fewer than NBUF, two calls that pass the test together overrun it: the last
      block that write_log copies goes to the block behind the area, before the header is written. */
  lemma Overrun(g: Area, base: Disk, d: Disk) returns (s: State)
    requires ClearLog(g, d) && StandsFor(g, d, base) && Spare(g, LOGSIZE) < |d| && 2 <= g.size < NBUF
    ensures Reachable(g, d, s) && s.durable == [] && !StandsFor(g, s.disk, base)
  {
    var (n, x) := (g.size, Spare(g, 0));
    var z := OtherBlock(d[x]);
    var u := Together(g, d, 1, z);
    var v := EndThree(g, d, u, n);
    var t := v.phase.txn;
    assert t.lh == u.lh && t.data[n - 1] == z;
    OverrunInRange(g, d, t);
    s := WriteRun(g, d, v, n);
    OverrunDisk(g, d, u.disk, base, t, s.disk);
  }

  lemma OverrunInRange(g: Area, d: Disk, t: Txn)
    requires Fits(g, d) && |t.lh| == |t.data| == g.size && Spare(g, LOGSIZE) < |d| && g.size < NBUF
    requires forall j :: 0 <= j < g.size ==> t.lh[j] == Spare(g, j)
    ensures InRange(CommitWrites(g, t), |d|)
  {
  }

  lemma OverrunDisk(g: Area, d: Disk, e: Disk, base: Disk, t: Txn, disk: Disk)
    requires ClearLog(g, d) && ClearLog(g, e) && HomeEq(g, d, e) && StandsFor(g, d, base)
    requires |t.lh| == |t.data| == g.size && 2 <= g.size && Spare(g, 0) < |d|
    requires t.data[g.size - 1] != d[Spare(g, 0)] && InRange(CommitWrites(g, t), |e|)
    requires disk == Play(e, CommitWrites(g, t), g.size)
    ensures !StandsFor(g, disk, base)
  {
    var ws := CommitWrites(g, t);
    assert forall j :: 0 <= j < g.size ==> ws[j] == CommitWrite(g, t, j);
    PlayUntouched(e, ws, g.size, g.start);
    PlayWritten(e, ws, g.size, g.size - 1);
    ClearStandsFor(g, d, base);
    ClearStandsFor(g, disk, base);
    assert disk[Spare(g, 0)] != base[Spare(g, 0)];
  }

  /** Crash safety holds in all runs exactly for the areas with room for every list a commit writes. The area that mkfs
      lays out is the smallest of them but for the header alone. */
  lemma RecoverableIff(g: Area, base: Disk, d: Disk)
    requires ClearLog(g, d) && StandsFor(g, d, base) && Spare(g, LOGSIZE) < |d|
    ensures Recoverable(g, base, d) <==> Roomy(g)
  {
    if Roomy(g) {
      forall s | Reachable(g, d, s)
        ensures UpdatesOk(g, |base|, s.durable) && StandsFor(g, s.disk, Updated(base, s.durable))
      {
        ReachableInv(g, base, d, s);
        AlwaysRecoverable(g, base, s);
      }
    } else {
      var s := Overrun(g, base, d);
      assert Updated(base, s.durable) == base;
    }
  }
}
