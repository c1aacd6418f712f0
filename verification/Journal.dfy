/** FS system calls running concurrently over the redo log: group commit, crashes at any block write, and recovery.
    A step is one lock-delimited section of log.c or one block write; a run is any finite sequence of steps. */
module Journal {
  import opened Basics
  import opened Blocks
  import opened Redo
  import opened Runs

  /** Block `bno` given the contents `data` by system call `op`. */
  datatype Update = Update(op: nat, bno: Word, data: Block)

  /** A system call between begin_op and end_op, with the distinct blocks it has logged. It has `passed` while it is in
      log_write between the test of the size, which is made without the lock, and the section with it. */
  datatype OpenOp = OpenOp(id: nat, blocks: set<Word>, passed: bool)

  /** What the log is doing. `before` is the disk when the commit or the recovery started and `k` the writes made
      since. */
  datatype Phase =
    | Running
    | Committing(txn: Txn, before: Disk, k: nat)
    | Down
    | Recovering(txn: Txn, before: Disk, k: nat)

  /** `disk` survives crashes; `lh`, `cache` (the pinned blocks) and `open` are memory. The rest is history:
      every update ever made (`all`), those of the current group (`pending`), those committed (`durable`), and the
      system calls in the current group (`live`) or committed (`kept`). */
  datatype State = State(
    disk: Disk, lh: seq<Word>, cache: map<Word, Block>, open: seq<OpenOp>, phase: Phase,
    next: nat, all: seq<Update>, pending: seq<Update>, durable: seq<Update>, live: set<nat>, kept: set<nat>)

  datatype Action =
    | Begin
    | Test(i: nat)
    | Log(i: nat, bno: Word, data: Block)
    | End(i: nat)
    | WriteBlock
    | Finish
    | Crash
    | Boot

  // ---- the steps ----

  function Absorb(lh: seq<Word>, b: Word): (r: seq<Word>) {
    if b in lh then lh else lh + [b]
  }

  /** The test at the head of log_write, before it takes the lock; when it holds the kernel stops. */
  predicate TooBig(g: Area, n: nat) {
    n >= LOGSIZE || n >= g.size - 1
  }

  predicate Admits(n: nat, outstanding: nat) {
    n + (outstanding + 1) * MAXOPBLOCKS <= LOGSIZE
  }

  function TxnOf(g: Area, head: Block, lh: seq<Word>, cache: map<Word, Block>): (t: Txn)
    requires |lh| <= LOGSIZE && forall i :: 0 <= i < |lh| ==> lh[i] in cache
  {
    Txn(lh, seq(|lh|, i requires 0 <= i < |lh| => cache[lh[i]]), PutHeader(head, lh),
        PutHeader(PutHeader(head, lh), []))
  }

  /** How many writes the current commit or recovery makes in all, and the next one. */
  function PhaseCount(p: Phase): (n: nat)
    requires p.Committing? || p.Recovering?
  {
    var n := |p.txn.lh|;
    if p.Recovering? then n + 1 else if n == 0 then 0 else 2 * n + 2
  }

  function PhaseWrite(g: Area, p: Phase): (w: Write)
    requires p.Committing? || p.Recovering?
    requires |p.txn.lh| == |p.txn.data| && p.k < PhaseCount(p)
  {
    if p.Recovering? then RecoveryWrite(g, p.txn, p.k) else CommitWrite(g, p.txn, p.k)
  }

  function Advance(p: Phase): (q: Phase) {
    match p
    case Committing(t, d, k) => Committing(t, d, k + 1)
    case Recovering(t, d, k) => Recovering(t, d, k + 1)
    case _ => p
  }

  predicate Typed(g: Area, s: State) {
    && Fits(g, s.disk)
    && |s.lh| <= LOGSIZE
    && (forall i :: 0 <= i < |s.lh| ==> s.lh[i] in s.cache)
    && (s.phase.Committing? || s.phase.Recovering? ==> |s.phase.txn.lh| == |s.phase.txn.data|)
  }

  /** A write needs a buffer, and a commit of NBUF blocks has pinned them all: bget stops the kernel. */
  predicate Enabled(g: Area, s: State, a: Action)
    requires Typed(g, s)
  {
    match a
    case Begin => s.phase.Running? && Admits(|s.lh|, |s.open|)
    case Test(i) => s.phase.Running? && i < |s.open| && !s.open[i].passed && !TooBig(g, |s.lh|)
    case Log(i, b, _) =>
      && s.phase.Running? && i < |s.open| && s.open[i].passed
      && b < |s.disk| && IsHome(g, b) && |s.open[i].blocks + {b}| <= MAXOPBLOCKS
    case End(i) => s.phase.Running? && i < |s.open| && !s.open[i].passed
    case WriteBlock =>
      && (s.phase.Committing? || s.phase.Recovering?) && s.phase.k < PhaseCount(s.phase)
      && (s.phase.Committing? ==> |s.phase.txn.lh| < NBUF)
      && PhaseWrite(g, s.phase).bno < |s.disk|
    case Finish => (s.phase.Committing? || s.phase.Recovering?) && s.phase.k == PhaseCount(s.phase)
    case Crash => true
    case Boot => s.phase.Down? && Bootable(g, s.disk)
  }

  function Step(g: Area, s: State, a: Action): (s': State)
    requires Typed(g, s) && Enabled(g, s, a)
  {
    match a
    case Begin => s.(open := s.open + [OpenOp(s.next, {}, false)], live := s.live + {s.next}, next := s.next + 1)
    case Test(i) => s.(open := s.open[i := s.open[i].(passed := true)])
    case Log(i, b, data) =>
      var u := Update(s.open[i].id, b, data);
      s.(lh := Absorb(s.lh, b), cache := s.cache[b := data],
         open := s.open[i := s.open[i].(blocks := s.open[i].blocks + {b}, passed := false)],
         pending := s.pending + [u], all := s.all + [u])
    case End(i) =>
      var open := s.open[..i] + s.open[i + 1..];
      s.(open := open,
         phase := if open == [] then Committing(TxnOf(g, s.disk[g.start], s.lh, s.cache), s.disk, 0) else Running)
    case WriteBlock =>
      var w := PhaseWrite(g, s.phase);
      var t := s.(disk := s.disk[w.bno := w.data], phase := Advance(s.phase));
      if s.phase.Committing? && s.phase.k == |s.phase.txn.lh| then Commit(t) else t
    case Finish =>
      var t := if s.phase.Committing? && s.phase.txn.lh == [] then Commit(s) else s;
      t.(phase := Running, lh := [], cache := map[])
    case Crash => s.(phase := Down, lh := [], cache := map[], open := [], pending := [], live := {})
    case Boot => s.(phase := Recovering(Logged(g, s.disk), s.disk, 0))
  }

  /** The history at the moment the header listing the group reaches the disk. */
  function Commit(s: State): (t: State) {
    s.(durable := s.durable + s.pending, pending := [], kept := s.kept + s.live, live := {})
  }

  ghost predicate Next(g: Area, s: State, a: Action, s': State) {
    Typed(g, s) && Enabled(g, s, a) && s' == Step(g, s, a)
  }

  ghost function StepRelation(g: Area): (r: (State, Action, State) -> bool) {
    (s, a, s') => Next(g, s, a, s')
  }

  /** A run from power-on with disk `d`. */
  ghost predicate Run(g: Area, d: Disk, tr: seq<State>, acts: seq<Action>) {
    IsRun(StepRelation(g), tr, acts) && tr[0] == PowerOn(d)
  }

  /** Power-on with disk `d`. */
  function PowerOn(d: Disk): (s: State) {
    State(d, [], map[], [], Down, 0, [], [], [], {}, {})
  }

  // ---- what the disk means ----

  predicate UpdatesOk(g: Area, size: nat, us: seq<Update>) {
    forall i :: 0 <= i < |us| ==> us[i].bno < size && IsHome(g, us[i].bno)
  }

  /** The logical disk: `base` with the updates `us` applied in order. */
  function Updated(base: Disk, us: seq<Update>): (d: Disk)
    requires forall i :: 0 <= i < |us| ==> us[i].bno < |base|
    ensures |d| == |base|
  {
    if us == [] then base
    else var u := us[|us| - 1]; Updated(base, us[..|us| - 1])[u.bno := u.data]
  }

  lemma {:induction false} UpdatedAppend(base: Disk, us: seq<Update>, vs: seq<Update>)
    requires forall i :: 0 <= i < |us| ==> us[i].bno < |base|
    requires forall i :: 0 <= i < |vs| ==> vs[i].bno < |base|
    ensures Updated(base, us + vs) == Updated(Updated(base, us), vs)
    decreases |vs|
  {
    if vs == [] {
      assert us + vs == us;
    } else {
      assert (us + vs)[..|us + vs| - 1] == us + vs[..|vs| - 1];
      UpdatedAppend(base, us, vs[..|vs| - 1]);
    }
  }

  /** `e` is `d` with the pinned blocks on top. */
  ghost predicate Overlays(g: Area, cache: map<Word, Block>, d: Disk, e: Disk) {
    |d| == |e| && forall x :: 0 <= x < |d| && IsHome(g, x) ==> e[x] == if x in cache then cache[x] else d[x]
  }

  /** The pinned blocks are exactly the listed ones. */
  ghost predicate Pins(lh: seq<Word>, cache: map<Word, Block>) {
    && (forall i :: 0 <= i < |lh| ==> lh[i] in cache)
    && (forall b :: b in cache ==> b in lh)
  }

  // ---- the invariant ----

  /** The log areas for which it holds: those with room for every list that a commit gets to write, and the area of a
      header alone, to which nothing is ever logged. */
  predicate Roomy(g: Area) {
    g.size == 1 || NBUF <= g.size
  }

  /** `k` writes into the commit of `t` begun on disk `d`, the disk is `disk` and the committed home blocks `stable`. */
  ghost predicate CommitInv(g: Area, stable: Disk, disk: Disk, t: Txn, d: Disk, k: nat) {
    && |d| == |stable| && CommitReady(g, d, t) && InRange(CommitWrites(g, t), |d|) && k <= |CommitWrites(g, t)|
    && disk == Play(d, CommitWrites(g, t), k)
    && if k <= |t.lh| then HomeEq(g, d, stable) else InstalledOn(g, d, t.lh, t.data, stable)
  }

  ghost predicate RecoverInv(g: Area, stable: Disk, disk: Disk, t: Txn, d: Disk, k: nat) {
    && |d| == |stable| && Holds(g, d, t) && InRange(RecoveryWrites(g, t), |d|) && k <= |t.lh| + 1
    && disk == Play(d, RecoveryWrites(g, t), k)
    && InstalledOn(g, d, t.lh, t.data, stable)
  }

  /** What the disk is in each phase, when the committed home blocks are `stable`. */
  ghost predicate PhaseInv(g: Area, stable: Disk, disk: Disk, p: Phase) {
    match p
    case Running => ClearLog(g, disk) && HomeEq(g, disk, stable)
    case Committing(t, d, k) =>
      if |t.lh| < NBUF then CommitInv(g, stable, disk, t, d, k)
      else k == 0 && disk == d && ClearLog(g, d) && HomeEq(g, d, stable)
    case Down => StandsFor(g, disk, stable)
    case Recovering(t, d, k) => RecoverInv(g, stable, disk, t, d, k)
  }

  ghost predicate DiskInv(g: Area, base: Disk, s: State) {
    && Fits(g, s.disk) && |s.disk| == |base| && UpdatesOk(g, |base|, s.durable)
    && PhaseInv(g, Updated(base, s.durable), s.disk, s.phase)
  }

  /** Is the current group still volatile? */
  predicate Volatile(s: State) {
    s.phase.Running? || (s.phase.Committing? && s.phase.k <= |s.phase.txn.lh|)
  }

  /** The pinned blocks on top of the committed disk are the logical disk of the current group. */
  ghost predicate OverlayInv(g: Area, base: Disk, s: State) {
    && UpdatesOk(g, |base|, s.durable) && UpdatesOk(g, |base|, s.pending)
    && (Volatile(s) ==> Overlays(g, s.cache, Updated(base, s.durable), Updated(Updated(base, s.durable), s.pending)))
    && (!Volatile(s) || s.lh == [] ==> s.pending == [])
  }

  ghost predicate ListInv(g: Area, s: State) {
    && ListOk(g, |s.disk|, s.lh)
    && Pins(s.lh, s.cache)
    && (!s.phase.Running? ==> s.open == [])
    && (s.phase.Running? && s.open == [] ==> s.lh == [])
    && (s.phase.Down? || s.phase.Recovering? ==> s.lh == [])
    && (s.phase.Recovering? ==> |s.phase.txn.data| == |s.phase.txn.lh|)
    && (s.phase.Committing? ==>
        && s.phase.txn.lh == s.lh && |s.phase.txn.data| == |s.lh|
        && forall i :: 0 <= i < |s.lh| ==> s.phase.txn.data[i] == s.cache[s.lh[i]])
  }

  function Unused(open: seq<OpenOp>): (n: int) {
    if open == [] then 0 else MAXOPBLOCKS - |open[|open| - 1].blocks| + Unused(open[..|open| - 1])
  }

  ghost predicate BudgetInv(s: State) {
    && (forall i :: 0 <= i < |s.open| ==> |s.open[i].blocks| <= MAXOPBLOCKS)
    && (forall i, b :: 0 <= i < |s.open| && b in s.open[i].blocks ==> b in s.lh)
    && |s.lh| + Unused(s.open) <= LOGSIZE
  }

  /** How many calls have passed the test and not yet logged their block. */
  function Passed(open: seq<OpenOp>): (n: nat) {
    if open == [] then 0 else (if open[|open| - 1].passed then 1 else 0) + Passed(open[..|open| - 1])
  }

  /** The test bounds the list, but for the calls that pass it together. */
  ghost predicate PassInv(g: Area, s: State) {
    && |s.open| * MAXOPBLOCKS <= LOGSIZE
    && if g.size <= 1 then s.lh == [] && Passed(s.open) == 0 else |s.lh| + Passed(s.open) <= g.size + 1
  }

  /** What holds whatever the size of the log area. */
  ghost predicate Sane(g: Area, s: State) {
    Fits(g, s.disk) && ListInv(g, s) && BudgetInv(s) && PassInv(g, s)
  }

  function OpUpdates(us: seq<Update>, op: nat): (r: seq<Update>) {
    if us == [] then []
    else OpUpdates(us[..|us| - 1], op) + (if us[|us| - 1].op == op then [us[|us| - 1]] else [])
  }

  ghost predicate OpsInv(s: State) {
    && s.live !! s.kept
    && (forall o :: o in s.live ==> o < s.next)
    && (forall o :: o in s.kept ==> o < s.next)
    && (forall i :: 0 <= i < |s.open| ==> s.open[i].id in s.live)
    && (forall i, j :: 0 <= i < j < |s.open| ==> s.open[i].id != s.open[j].id)
    && (forall i :: 0 <= i < |s.all| ==> s.all[i].op < s.next)
    && (forall i :: 0 <= i < |s.pending| ==> s.pending[i].op in s.live)
    && (forall o :: o in s.kept ==> OpUpdates(s.durable, o) == OpUpdates(s.all, o))
    && (forall o :: o !in s.kept ==> OpUpdates(s.durable, o) == [])
    && (forall o :: o in s.live ==> OpUpdates(s.pending, o) == OpUpdates(s.all, o))
  }

  ghost predicate Inv(g: Area, base: Disk, s: State) {
    Roomy(g) && Sane(g, s) && DiskInv(g, base, s) && OverlayInv(g, base, s) && OpsInv(s)
  }

  // ---- the logical disk ----

  lemma OverlayLog(g: Area, cache: map<Word, Block>, d: Disk, us: seq<Update>, u: Update)
    requires UpdatesOk(g, |d|, us) && u.bno < |d|
    requires Overlays(g, cache, d, Updated(d, us))
    ensures Overlays(g, cache[u.bno := u.data], d, Updated(d, us + [u]))
  {
    assert (us + [u])[..|us|] == us;
  }

  /** Installing the pinned blocks turns the committed disk into the logical one. */
  lemma InstallOverlay(g: Area, d: Disk, t: Txn, cache: map<Word, Block>, stable: Disk, e: Disk)
    requires CommitReady(g, d, t) && HomeEq(g, d, stable) && Overlays(g, cache, stable, e)
    requires Pins(t.lh, cache)
    requires forall i :: 0 <= i < |t.lh| ==> t.data[i] == cache[t.lh[i]]
    ensures InstalledOn(g, d, t.lh, t.data, e)
  {
    forall i | 0 <= i < |t.lh|
      ensures e[t.lh[i]] == t.data[i]
    {
      assert t.lh[i] in cache;
    }
  }

  /** In such areas every list short enough to be committed fits. */
  lemma ListFits(g: Area, s: State)
    requires Roomy(g) && Sane(g, s) && |s.lh| < NBUF
    ensures ValidList(g, |s.disk|, s.lh)
  {
  }

  lemma TxnOfValid(g: Area, size: nat, head: Block, lh: seq<Word>, cache: map<Word, Block>)
    requires ValidList(g, size, lh) && forall i :: 0 <= i < |lh| ==> lh[i] in cache
    ensures var t := TxnOf(g, head, lh, cache);
      && ValidTxn(g, size, t) && t.lh == lh
      && forall i :: 0 <= i < |lh| ==> t.data[i] == cache[lh[i]]
  {
    HeaderRoundTrip(head, lh);
    HeaderRoundTrip(PutHeader(head, lh), []);
  }

  // ---- sums of budgets ----

  lemma {:induction false} UnusedRemove(open: seq<OpenOp>, i: nat)
    requires i < |open|
    ensures Unused(open[..i] + open[i + 1..]) == Unused(open) - (MAXOPBLOCKS - |open[i].blocks|)
    decreases |open|
  {
    var n := |open| - 1;
    if i < n {
      UnusedRemove(open[..n], i);
      assert (open[..i] + open[i + 1..])[..n - 1] == open[..n][..i] + open[..n][i + 1..];
    } else {
      assert open[..i] + open[i + 1..] == open[..n];
    }
  }

  lemma {:induction false} UnusedUpdate(open: seq<OpenOp>, i: nat, op: OpenOp)
    requires i < |open|
    ensures Unused(open[i := op]) == Unused(open) + |open[i].blocks| - |op.blocks|
    decreases |open|
  {
    var n := |open| - 1;
    if i < n {
      UnusedUpdate(open[..n], i, op);
      assert open[i := op][..n] == open[..n][i := op];
    } else {
      assert open[i := op][..n] == open[..n];
    }
  }

  lemma {:induction false} UnusedAtLeast(open: seq<OpenOp>, i: nat)
    requires i < |open| && forall j :: 0 <= j < |open| ==> |open[j].blocks| <= MAXOPBLOCKS
    ensures 0 <= MAXOPBLOCKS - |open[i].blocks| <= Unused(open)
    decreases |open|
  {
    var n := |open| - 1;
    if i < n {
      UnusedAtLeast(open[..n], i);
    } else {
      UnusedNonNegative(open[..n]);
    }
  }

  lemma {:induction false} UnusedNonNegative(open: seq<OpenOp>)
    requires forall j :: 0 <= j < |open| ==> |open[j].blocks| <= MAXOPBLOCKS
    ensures 0 <= Unused(open)
    decreases |open|
  {
    if open != [] {
      UnusedNonNegative(open[..|open| - 1]);
    }
  }

  lemma {:induction false} UnusedAtMost(open: seq<OpenOp>)
    ensures Unused(open) <= |open| * MAXOPBLOCKS
    decreases |open|
  {
    if open != [] {
      UnusedAtMost(open[..|open| - 1]);
    }
  }

  // ---- updates of one system call ----

  lemma {:induction false} OpUpdatesAppend(us: seq<Update>, vs: seq<Update>, op: nat)
    ensures OpUpdates(us + vs, op) == OpUpdates(us, op) + OpUpdates(vs, op)
    decreases |vs|
  {
    if vs == [] {
      assert us + vs == us;
    } else {
      var n := |vs| - 1;
      assert (us + vs)[..|us + vs| - 1] == us + vs[..n];
      OpUpdatesAppend(us, vs[..n], op);
    }
  }

  lemma {:induction false} OpUpdatesNone(us: seq<Update>, op: nat)
    requires forall i :: 0 <= i < |us| ==> us[i].op != op
    ensures OpUpdates(us, op) == []
    decreases |us|
  {
    if us != [] {
      OpUpdatesNone(us[..|us| - 1], op);
    }
  }

  // ---- calls that have passed the test ----

  lemma {:induction false} PassedRemove(open: seq<OpenOp>, i: nat)
    requires i < |open|
    ensures Passed(open[..i] + open[i + 1..]) == Passed(open) - if open[i].passed then 1 else 0
    decreases |open|
  {
    var n := |open| - 1;
    if i < n {
      PassedRemove(open[..n], i);
      assert (open[..i] + open[i + 1..])[..n - 1] == open[..n][..i] + open[..n][i + 1..];
    } else {
      assert open[..i] + open[i + 1..] == open[..n];
    }
  }

  lemma {:induction false} PassedAtMost(open: seq<OpenOp>)
    ensures Passed(open) <= |open|
    decreases |open|
  {
    if open != [] {
      PassedAtMost(open[..|open| - 1]);
    }
  }

  lemma {:induction false} PassedUpdate(open: seq<OpenOp>, i: nat, op: OpenOp)
    requires i < |open|
    ensures Passed(open[i := op])
      == Passed(open) - (if open[i].passed then 1 else 0) + (if op.passed then 1 else 0)
    decreases |open|
  {
    var n := |open| - 1;
    if i < n {
      PassedUpdate(open[..n], i, op);
      assert open[i := op][..n] == open[..n][i := op];
    } else {
      assert open[i := op][..n] == open[..n];
    }
  }

  // ---- every step keeps what holds for all areas ----

  lemma SaneTyped(g: Area, s: State)
    requires Sane(g, s)
    ensures Typed(g, s)
  {
  }

  lemma BeginKeepsBudget(s: State, op: OpenOp)
    requires BudgetInv(s) && Admits(|s.lh|, |s.open|) && op.blocks == {}
    ensures BudgetInv(s.(open := s.open + [op]))
  {
    assert (s.open + [op])[..|s.open|] == s.open;
    UnusedAtMost(s.open);
  }

  lemma BeginSane(g: Area, s: State)
    requires Sane(g, s) && Typed(g, s) && Enabled(g, s, Begin)
    ensures Sane(g, Step(g, s, Begin))
  {
    var op := OpenOp(s.next, {}, false);
    BeginKeepsBudget(s, op);
    assert (s.open + [op])[..|s.open|] == s.open;
  }

  lemma TestKeepsBudget(s: State, i: nat)
    requires BudgetInv(s) && i < |s.open|
    ensures BudgetInv(s.(open := s.open[i := s.open[i].(passed := true)]))
  {
    UnusedUpdate(s.open, i, s.open[i].(passed := true));
  }

  lemma TestSane(g: Area, s: State, i: nat)
    requires Sane(g, s) && Typed(g, s) && Enabled(g, s, Test(i))
    ensures Sane(g, Step(g, s, Test(i)))
  {
    TestKeepsBudget(s, i);
    PassedUpdate(s.open, i, s.open[i].(passed := true));
    PassedAtMost(s.open[i := s.open[i].(passed := true)]);
  }

  lemma AbsorbKeepsList(g: Area, size: nat, lh: seq<Word>, b: Word)
    requires ListOk(g, size, lh) && |Absorb(lh, b)| <= LOGSIZE && b < size && IsHome(g, b)
    ensures ListOk(g, size, Absorb(lh, b)) && forall x :: x in Absorb(lh, b) <==> x in lh || x == b
  {
  }

  lemma LogKeepsLists(g: Area, s: State, u: Update, open: seq<OpenOp>)
    requires ListInv(g, s) && s.phase.Running? && |Absorb(s.lh, u.bno)| <= LOGSIZE
    requires u.bno < |s.disk| && IsHome(g, u.bno) && open != []
    ensures ListInv(g, s.(lh := Absorb(s.lh, u.bno), cache := s.cache[u.bno := u.data], open := open))
  {
    AbsorbKeepsList(g, |s.disk|, s.lh, u.bno);
  }

  lemma LogKeepsBudget(s: State, i: nat, op: OpenOp, b: Word)
    requires BudgetInv(s) && i < |s.open| && op.blocks == s.open[i].blocks + {b} && |op.blocks| <= MAXOPBLOCKS
    ensures BudgetInv(s.(lh := Absorb(s.lh, b), open := s.open[i := op])) && |Absorb(s.lh, b)| <= LOGSIZE
  {
    UnusedUpdate(s.open, i, op);
    if b in s.open[i].blocks {
      assert op.blocks == s.open[i].blocks;
    }
    var open := s.open[i := op];
    UnusedNonNegative(open);
  }

  lemma LogSane(g: Area, s: State, i: nat, b: Word, data: Block)
    requires Sane(g, s) && Typed(g, s) && Enabled(g, s, Log(i, b, data))
    ensures Sane(g, Step(g, s, Log(i, b, data)))
  {
    var op := s.open[i].(blocks := s.open[i].blocks + {b}, passed := false);
    LogKeepsBudget(s, i, op, b);
    LogKeepsLists(g, s, Update(op.id, b, data), s.open[i := op]);
    PassedUpdate(s.open, i, op);
    hide BudgetInv, ListInv, Passed;
  }

  lemma EndKeepsBudget(s: State, i: nat, open: seq<OpenOp>)
    requires BudgetInv(s) && i < |s.open| && open == s.open[..i] + s.open[i + 1..]
    ensures BudgetInv(s.(open := open))
  {
    UnusedRemove(s.open, i);
    UnusedAtLeast(s.open, i);
  }

  lemma EndPhase(g: Area, s: State, i: nat)
    requires Typed(g, s) && Enabled(g, s, End(i))
    ensures var s' := Step(g, s, End(i));
      && s'.open == s.open[..i] + s.open[i + 1..]
      && s'.phase
         == (if s'.open == [] then Committing(TxnOf(g, s.disk[g.start], s.lh, s.cache), s.disk, 0) else Running)
      && s' == s.(open := s'.open, phase := s'.phase)
  {
  }

  lemma EndSane(g: Area, s: State, i: nat)
    requires Sane(g, s) && Typed(g, s) && Enabled(g, s, End(i))
    ensures Sane(g, Step(g, s, End(i)))
  {
    EndPhase(g, s, i);
    EndKeepsBudget(s, i, s.open[..i] + s.open[i + 1..]);
    EndKeepsLists(g, s, i);
    PassedRemove(s.open, i);
    hide BudgetInv, Passed, ListInv, Step, TxnOf;
  }

  lemma EndKeepsLists(g: Area, s: State, i: nat)
    requires ListInv(g, s) && Typed(g, s) && Enabled(g, s, End(i))
    ensures ListInv(g, Step(g, s, End(i)))
  {
    EndPhase(g, s, i);
  }

  lemma WriteEffect(g: Area, s: State)
    requires Typed(g, s) && Enabled(g, s, WriteBlock)
    ensures var w := PhaseWrite(g, s.phase);
      var t := s.(disk := s.disk[w.bno := w.data], phase := Advance(s.phase));
      Step(g, s, WriteBlock) == if s.phase.Committing? && s.phase.k == |s.phase.txn.lh| then Commit(t) else t
  {
  }

  lemma SaneKeeps(g: Area, s: State, a: Action)
    requires Sane(g, s) && Typed(g, s) && Enabled(g, s, a)
    ensures Sane(g, Step(g, s, a))
  {
    match a
    case Begin => BeginSane(g, s);
    case Test(i) => TestSane(g, s, i);
    case Log(i, b, data) => LogSane(g, s, i, b, data);
    case End(i) => EndSane(g, s, i);
    case WriteBlock => WriteEffect(g, s);
    case Finish =>
    case Crash =>
    case Boot =>
  }

  lemma PowerOnSane(g: Area, d: Disk)
    requires Fits(g, d)
    ensures Sane(g, PowerOn(d))
  {
  }

  // ---- every step keeps the invariant ----

  lemma PowerOnInv(g: Area, base: Disk, d: Disk)
    requires Roomy(g) && StandsFor(g, d, base)
    ensures Inv(g, base, PowerOn(d))
  {
    PowerOnSane(g, d);
    assert Updated(base, []) == base;
  }

  /** What the disk has to be depends on the disk, the phase and the durable updates only. */
  lemma DiskSame(g: Area, base: Disk, s: State, s': State)
    requires DiskInv(g, base, s) && s'.disk == s.disk && s'.phase == s.phase && s'.durable == s.durable
    ensures DiskInv(g, base, s') && |s.disk| == |base|
  {
  }

  lemma BeginKeepsOps(s: State)
    requires OpsInv(s)
    ensures OpsInv(s.(open := s.open + [OpenOp(s.next, {}, false)], live := s.live + {s.next}, next := s.next + 1))
  {
    OpUpdatesNone(s.all, s.next);
    OpUpdatesNone(s.pending, s.next);
  }

  lemma BeginKeeps(g: Area, base: Disk, s: State)
    requires Inv(g, base, s) && Typed(g, s) && Enabled(g, s, Begin)
    ensures Inv(g, base, Step(g, s, Begin))
  {
    hide Sane, DiskInv, OpsInv;
    BeginSane(g, s);
    BeginKeepsOps(s);
    DiskSame(g, base, s, Step(g, s, Begin));
  }

  lemma TestKeepsOps(s: State, i: nat)
    requires OpsInv(s) && i < |s.open|
    ensures OpsInv(s.(open := s.open[i := s.open[i].(passed := true)]))
  {
  }

  lemma TestKeeps(g: Area, base: Disk, s: State, i: nat)
    requires Inv(g, base, s) && Typed(g, s) && Enabled(g, s, Test(i))
    ensures Inv(g, base, Step(g, s, Test(i)))
  {
    hide Sane, DiskInv, OpsInv;
    TestSane(g, s, i);
    TestKeepsOps(s, i);
    DiskSame(g, base, s, Step(g, s, Test(i)));
  }

  lemma LogKeepsOverlay(g: Area, base: Disk, s: State, u: Update)
    requires OverlayInv(g, base, s) && s.phase.Running? && u.bno < |base| && IsHome(g, u.bno)
    ensures OverlayInv(g, base, s.(lh := Absorb(s.lh, u.bno), cache := s.cache[u.bno := u.data],
                                   pending := s.pending + [u]))
  {
    OverlayLog(g, s.cache, Updated(base, s.durable), s.pending, u);
  }

  lemma OverlaySame(g: Area, base: Disk, s: State, s': State)
    requires OverlayInv(g, base, s) && s'.lh == s.lh && s'.cache == s.cache && s'.phase == s.phase
    requires s'.pending == s.pending && s'.durable == s.durable
    ensures OverlayInv(g, base, s')
  {
  }

  lemma OpsSame(s: State, s': State)
    requires OpsInv(s) && s'.open == s.open && s'.next == s.next && s'.all == s.all && s'.pending == s.pending
    requires s'.durable == s.durable && s'.live == s.live && s'.kept == s.kept
    ensures OpsInv(s')
  {
  }

  lemma LogKeepsOps(s: State, i: nat, op: OpenOp, u: Update)
    requires OpsInv(s) && i < |s.open| && op.id == s.open[i].id == u.op
    ensures OpsInv(s.(open := s.open[i := op], pending := s.pending + [u], all := s.all + [u]))
  {
    forall o: nat
      ensures OpUpdates(s.all + [u], o) == OpUpdates(s.all, o) + OpUpdates([u], o)
      ensures OpUpdates(s.pending + [u], o) == OpUpdates(s.pending, o) + OpUpdates([u], o)
    {
      OpUpdatesAppend(s.all, [u], o);
      OpUpdatesAppend(s.pending, [u], o);
    }
  }

  lemma LogKeeps(g: Area, base: Disk, s: State, i: nat, b: Word, data: Block)
    requires Inv(g, base, s) && Typed(g, s) && Enabled(g, s, Log(i, b, data))
    ensures Inv(g, base, Step(g, s, Log(i, b, data)))
  {
    var op := s.open[i].(blocks := s.open[i].blocks + {b}, passed := false);
    var u := Update(op.id, b, data);
    hide Sane, DiskInv, OpsInv, OverlayInv;
    LogSane(g, s, i, b, data);
    DiskSame(g, base, s, Step(g, s, Log(i, b, data)));
    LogKeepsOverlay(g, base, s, u);
    OverlaySame(g, base, s.(lh := Absorb(s.lh, b), cache := s.cache[b := data], pending := s.pending + [u]),
                Step(g, s, Log(i, b, data)));
    LogKeepsOps(s, i, op, u);
    OpsSame(s.(open := s.open[i := op], pending := s.pending + [u], all := s.all + [u]), Step(g, s, Log(i, b, data)));
  }

  /** The last call out starts a commit, which goes no further if it has pinned every buffer. */
  lemma EndKeepsDisk(g: Area, base: Disk, s: State, i: nat)
    requires Inv(g, base, s) && Typed(g, s) && Enabled(g, s, End(i))
    ensures DiskInv(g, base, Step(g, s, End(i))) && OverlayInv(g, base, Step(g, s, End(i)))
  {
    var t := TxnOf(g, s.disk[g.start], s.lh, s.cache);
    EndPhase(g, s, i);
    if |s.lh| < NBUF {
      ListFits(g, s);
      TxnOfValid(g, |s.disk|, s.disk[g.start], s.lh, s.cache);
      CommitInRange(g, s.disk, t);
    }
  }

  lemma EndKeeps(g: Area, base: Disk, s: State, i: nat)
    requires Inv(g, base, s) && Typed(g, s) && Enabled(g, s, End(i))
    ensures Inv(g, base, Step(g, s, End(i)))
  {
    hide Sane, DiskInv, OverlayInv, OpsInv, TxnOf;
    EndKeepsDisk(g, base, s, i);
    EndPhase(g, s, i);
    EndSane(g, s, i);
    EndKeepsOps(s, i, s.open[..i] + s.open[i + 1..]);
    OpsSame(s.(open := s.open[..i] + s.open[i + 1..]), Step(g, s, End(i)));
  }

  lemma EndKeepsOps(s: State, i: nat, open: seq<OpenOp>)
    requires OpsInv(s) && i < |s.open| && open == s.open[..i] + s.open[i + 1..]
    ensures OpsInv(s.(open := open))
  {
    forall j | 0 <= j < |open|
      ensures open[j] == if j < i then s.open[j] else s.open[j + 1]
    {
    }
  }

  /** The header write moves the whole group to the committed side. */
  lemma CommitKeepsOps(s: State)
    requires OpsInv(s) && s.open == []
    ensures OpsInv(Commit(s))
  {
    forall o: nat
      ensures OpUpdates(s.durable + s.pending, o) == OpUpdates(s.durable, o) + OpUpdates(s.pending, o)
      ensures o !in s.live ==> OpUpdates(s.pending, o) == []
    {
      OpUpdatesAppend(s.durable, s.pending, o);
      if o !in s.live {
        OpUpdatesNone(s.pending, o);
      }
    }
  }

  lemma CommitWriteStep(g: Area, stable: Disk, disk: Disk, t: Txn, d: Disk, k: nat, stable': Disk)
    requires CommitInv(g, stable, disk, t, d, k) && k < |CommitWrites(g, t)| && |stable'| == |stable|
    requires if k == |t.lh| then InstalledOn(g, d, t.lh, t.data, stable') else stable' == stable
    ensures var w := CommitWrite(g, t, k); w.bno < |disk| && CommitInv(g, stable', disk[w.bno := w.data], t, d, k + 1)
  {
    assert CommitWrites(g, t)[k] == CommitWrite(g, t, k);
  }

  lemma RecoveryWriteStep(g: Area, stable: Disk, disk: Disk, t: Txn, d: Disk, k: nat)
    requires RecoverInv(g, stable, disk, t, d, k) && k <= |t.lh|
    ensures var w := RecoveryWrite(g, t, k); w.bno < |disk| && RecoverInv(g, stable, disk[w.bno := w.data], t, d, k + 1)
  {
    assert RecoveryWrites(g, t)[k] == RecoveryWrite(g, t, k);
  }

  lemma HeaderWriteInstalls(g: Area, base: Disk, s: State)
    requires DiskInv(g, base, s) && OverlayInv(g, base, s) && ListInv(g, s)
    requires s.phase.Committing? && s.phase.k == |s.phase.txn.lh| < NBUF
    ensures UpdatesOk(g, |base|, s.durable + s.pending)
    ensures InstalledOn(g, s.phase.before, s.phase.txn.lh, s.phase.txn.data, Updated(base, s.durable + s.pending))
  {
    hide Play, CommitWrites, Updated, InstalledOn;
    var stable := Updated(base, s.durable);
    InstallOverlay(g, s.phase.before, s.phase.txn, s.cache, stable, Updated(stable, s.pending));
    UpdatedAppend(base, s.durable, s.pending);
  }

  lemma HeaderWriteDisk(g: Area, base: Disk, s: State)
    requires DiskInv(g, base, s) && OverlayInv(g, base, s) && ListInv(g, s) && Typed(g, s) && Enabled(g, s, WriteBlock)
    requires s.phase.Committing? && s.phase.k == |s.phase.txn.lh|
    ensures DiskInv(g, base, Step(g, s, WriteBlock))
  {
    HeaderWriteInstalls(g, base, s);
    WriteEffect(g, s);
    CommitWriteStep(g, Updated(base, s.durable), s.disk, s.phase.txn, s.phase.before, s.phase.k,
                    Updated(base, s.durable + s.pending));
  }

  lemma PlainWriteDisk(g: Area, base: Disk, s: State)
    requires DiskInv(g, base, s) && Typed(g, s) && Enabled(g, s, WriteBlock)
    requires s.phase.Committing? ==> s.phase.k != |s.phase.txn.lh|
    ensures DiskInv(g, base, Step(g, s, WriteBlock))
  {
    WriteEffect(g, s);
    if s.phase.Recovering? {
      RecoveryWriteInv(g, base, s);
    } else {
      CommitWriteInv(g, base, s);
    }
  }

  lemma RecoveryWriteInv(g: Area, base: Disk, s: State)
    requires DiskInv(g, base, s) && s.phase.Recovering? && s.phase.k <= |s.phase.txn.lh|
    ensures var w := RecoveryWrite(g, s.phase.txn, s.phase.k);
      w.bno < |s.disk| && DiskInv(g, base, s.(disk := s.disk[w.bno := w.data], phase := Advance(s.phase)))
  {
    hide RecoverInv, CommitInv, Updated, RecoveryWrite;
    RecoveryWriteStep(g, Updated(base, s.durable), s.disk, s.phase.txn, s.phase.before, s.phase.k);
  }

  lemma CommitWriteInv(g: Area, base: Disk, s: State)
    requires DiskInv(g, base, s) && s.phase.Committing? && |s.phase.txn.lh| < NBUF
    requires |s.phase.txn.data| == |s.phase.txn.lh| != s.phase.k < |CommitWrites(g, s.phase.txn)|
    ensures var w := CommitWrite(g, s.phase.txn, s.phase.k);
      w.bno < |s.disk| && DiskInv(g, base, s.(disk := s.disk[w.bno := w.data], phase := Advance(s.phase)))
  {
    hide RecoverInv, CommitInv, Updated, CommitWrite, CommitWrites;
    var stable := Updated(base, s.durable);
    CommitWriteStep(g, stable, s.disk, s.phase.txn, s.phase.before, s.phase.k, stable);
  }

  lemma WriteKeepsOverlay(g: Area, base: Disk, s: State)
    requires OverlayInv(g, base, s) && Typed(g, s) && Enabled(g, s, WriteBlock)
    ensures OverlayInv(g, base, Step(g, s, WriteBlock))
  {
    WriteEffect(g, s);
  }

  lemma WriteKeeps(g: Area, base: Disk, s: State)
    requires Inv(g, base, s) && Typed(g, s) && Enabled(g, s, WriteBlock)
    ensures Inv(g, base, Step(g, s, WriteBlock))
  {
    WriteKeepsOverlay(g, base, s);
    SaneKeeps(g, s, WriteBlock);
    WriteEffect(g, s);
    if s.phase.Committing? && s.phase.k == |s.phase.txn.lh| {
      HeaderWriteDisk(g, base, s);
      CommitKeepsOps(s);
    } else {
      PlainWriteDisk(g, base, s);
    }
  }

  lemma EmptyCommit(g: Area, base: Disk, s: State)
    requires Inv(g, base, s) && s.phase.Committing? && s.phase.txn.lh == []
    ensures Updated(base, s.durable + s.pending) == Updated(Updated(base, s.durable), s.pending)
    ensures HomeEq(g, s.disk, Updated(base, s.durable + s.pending))
  {
    UpdatedAppend(base, s.durable, s.pending);
  }

  lemma CommitFinished(g: Area, stable: Disk, disk: Disk, t: Txn, d: Disk)
    requires |t.lh| == |t.data| && t.lh != [] && CommitInv(g, stable, disk, t, d, 2 * |t.lh| + 2)
    ensures ClearLog(g, disk) && HomeEq(g, disk, stable)
  {
    CommitDone(g, d, t);
    SameInstall(g, d, t.lh, t.data, disk, stable);
  }

  lemma RecoveryFinished(g: Area, stable: Disk, disk: Disk, t: Txn, d: Disk)
    requires |t.lh| == |t.data| && RecoverInv(g, stable, disk, t, d, |t.lh| + 1)
    ensures ClearLog(g, disk) && HomeEq(g, disk, stable)
  {
    RecoveryDone(g, d, t);
    SameInstall(g, d, t.lh, t.data, disk, stable);
  }

  /** After the last write of a commit or a recovery the log is clear and every home block is the committed one. */
  lemma FinishDisk(g: Area, base: Disk, s: State)
    requires Inv(g, base, s) && Typed(g, s) && Enabled(g, s, Finish)
    requires s.phase.Committing? ==> s.phase.txn.lh != []
    ensures ClearLog(g, s.disk) && HomeEq(g, s.disk, Updated(base, s.durable))
  {
    hide Sane, OverlayInv, OpsInv, CommitInv, RecoverInv;
    if s.phase.Recovering? {
      RecoveryFinished(g, Updated(base, s.durable), s.disk, s.phase.txn, s.phase.before);
    } else {
      CommitFinished(g, Updated(base, s.durable), s.disk, s.phase.txn, s.phase.before);
    }
  }

  lemma ResetKeepsOverlay(g: Area, base: Disk, s: State)
    requires UpdatesOk(g, |base|, s.durable)
    requires s.pending == [] && s.lh == [] && s.cache == map[] && !s.phase.Committing?
    ensures OverlayInv(g, base, s)
  {
  }

  lemma FinishEmpty(g: Area, base: Disk, s: State)
    requires Inv(g, base, s) && Typed(g, s) && Enabled(g, s, Finish) && s.phase.Committing? && s.phase.txn.lh == []
    ensures Inv(g, base, Step(g, s, Finish))
  {
    EmptyCommit(g, base, s);
    CommitKeepsOps(s);
    SaneKeeps(g, s, Finish);
    ResetKeepsOverlay(g, base, Step(g, s, Finish));
  }

  lemma FinishFull(g: Area, base: Disk, s: State)
    requires Inv(g, base, s) && Typed(g, s) && Enabled(g, s, Finish)
    requires s.phase.Committing? ==> s.phase.txn.lh != []
    ensures Inv(g, base, Step(g, s, Finish))
  {
    FinishDisk(g, base, s);
    assert Step(g, s, Finish).pending == [];
    SaneKeeps(g, s, Finish);
    ResetKeepsOverlay(g, base, Step(g, s, Finish));
  }

  lemma FinishKeeps(g: Area, base: Disk, s: State)
    requires Inv(g, base, s) && Typed(g, s) && Enabled(g, s, Finish)
    ensures Inv(g, base, Step(g, s, Finish))
  {
    if s.phase.Committing? && s.phase.txn.lh == [] {
      FinishEmpty(g, base, s);
    } else {
      FinishFull(g, base, s);
    }
  }

  /** In every reachable state the disk stands for exactly the committed updates. */
  lemma AlwaysRecoverable(g: Area, base: Disk, s: State)
    requires Inv(g, base, s)
    ensures UpdatesOk(g, |base|, s.durable) && StandsFor(g, s.disk, Updated(base, s.durable))
  {
    var stable := Updated(base, s.durable);
    match s.phase
    case Running =>
      ClearStandsFor(g, s.disk, stable);
    case Down =>
    case Recovering(t, d, k) =>
      RecoveryPrefix(g, d, t, k, stable);
    case Committing(t, d, k) =>
      if |t.lh| >= NBUF {
        ClearStandsFor(g, d, stable);
      } else if k <= |t.lh| {
        CommitEarly(g, d, t, k);
        StandsForHomeEq(g, s.disk, d, stable);
      } else {
        CommitLate(g, d, t, k, stable);
      }
  }

  lemma CrashKeeps(g: Area, base: Disk, s: State)
    requires Inv(g, base, s) && Typed(g, s)
    ensures Inv(g, base, Step(g, s, Crash))
  {
    AlwaysRecoverable(g, base, s);
    SaneKeeps(g, s, Crash);
    ResetKeepsOverlay(g, base, Step(g, s, Crash));
    CrashKeepsOps(g, s);
  }

  lemma CrashKeepsOps(g: Area, s: State)
    requires OpsInv(s) && Typed(g, s)
    ensures OpsInv(Step(g, s, Crash))
  {
  }

  lemma BootKeeps(g: Area, base: Disk, s: State)
    requires Inv(g, base, s) && Typed(g, s) && Enabled(g, s, Boot)
    ensures Inv(g, base, Step(g, s, Boot))
  {
    var t := Logged(g, s.disk);
    SaneKeeps(g, s, Boot);
    LoggedHolds(g, s.disk);
    RecoveryInRange(g, s.disk, t);
    var u :| Holds(g, s.disk, u) && InstalledOn(g, s.disk, u.lh, u.data, Updated(base, s.durable));
    assert u.lh == t.lh && u.data == t.data;
  }

  lemma StepKeeps(g: Area, base: Disk, s: State, a: Action)
    requires Inv(g, base, s) && Typed(g, s) && Enabled(g, s, a)
    ensures Inv(g, base, Step(g, s, a))
  {
    match a
    case Begin => BeginKeeps(g, base, s);
    case Test(i) => TestKeeps(g, base, s, i);
    case Log(i, b, data) => LogKeeps(g, base, s, i, b, data);
    case End(i) => EndKeeps(g, base, s, i);
    case WriteBlock => WriteKeeps(g, base, s);
    case Finish => FinishKeeps(g, base, s);
    case Crash => CrashKeeps(g, base, s);
    case Boot => BootKeeps(g, base, s);
  }

  /** Every state of every run satisfies the invariant. */
  lemma RunKeeps(g: Area, base: Disk, d: Disk, tr: seq<State>, acts: seq<Action>, k: nat)
    requires Roomy(g) && StandsFor(g, d, base) && Run(g, d, tr, acts) && k <= |acts|
    ensures Inv(g, base, tr[k])
  {
    var inv := s => Inv(g, base, s);
    PowerOnInv(g, base, d);
    StepsInductive(g, base);
    Invariant(StepRelation(g), inv, tr, acts, k);
  }

  /** Whatever the area. */
  lemma RunSane(g: Area, d: Disk, tr: seq<State>, acts: seq<Action>, k: nat)
    requires Fits(g, d) && Run(g, d, tr, acts) && k <= |acts|
    ensures Sane(g, tr[k])
  {
    var inv := s => Sane(g, s);
    PowerOnSane(g, d);
    SaneInductive(g);
    Invariant(StepRelation(g), inv, tr, acts, k);
  }

  lemma SaneInductive(g: Area)
    ensures Inductive(StepRelation(g), s => Sane(g, s))
  {
    forall s: State, a: Action, s': State | Sane(g, s) && Next(g, s, a, s')
      ensures Sane(g, s')
    {
      SaneKeeps(g, s, a);
    }
  }

  lemma StepsInductive(g: Area, base: Disk)
    ensures Inductive(StepRelation(g), s => Inv(g, base, s))
  {
    forall s: State, a: Action, s': State | Inv(g, base, s) && Next(g, s, a, s')
      ensures Inv(g, base, s')
    {
      StepKeeps(g, base, s, a);
    }
  }

  // ---- theorems over whole runs ----

  /** The write about to happen is a header write that lists at least one block. */
  predicate HeaderNext(s: State) {
    s.phase.Committing? && s.phase.k == |s.phase.txn.lh| > 0
  }

  function Newly(s: State, a: Action): (us: seq<Update>) {
    if a.WriteBlock? && HeaderNext(s) then s.pending else []
  }

  /** The updates whose group's header write happened in the first `k` steps of a run, in order. */
  function HeaderWritten(tr: seq<State>, acts: seq<Action>, k: nat): (us: seq<Update>)
    requires |tr| == |acts| + 1 && k <= |acts|
  {
    if k == 0 then [] else HeaderWritten(tr, acts, k - 1) + Newly(tr[k - 1], acts[k - 1])
  }

  lemma NextDurable(g: Area, base: Disk, s: State, a: Action, s': State)
    requires Inv(g, base, s) && Next(g, s, a, s')
    ensures s'.durable == s.durable + Newly(s, a)
  {
  }

  lemma RunDurable(g: Area, base: Disk, d: Disk, tr: seq<State>, acts: seq<Action>, k: nat)
    requires Roomy(g) && StandsFor(g, d, base) && Run(g, d, tr, acts) && k < |acts|
    ensures tr[k + 1].durable == tr[k].durable + Newly(tr[k], acts[k])
  {
    RunKeeps(g, base, d, tr, acts, k);
    assert StepRelation(g)(tr[k], acts[k], tr[k + 1]);
    NextDurable(g, base, tr[k], acts[k], tr[k + 1]);
  }

  lemma HeaderWrittenNext(tr: seq<State>, acts: seq<Action>, k: nat)
    requires |tr| == |acts| + 1 && k < |acts| && tr[k].durable == HeaderWritten(tr, acts, k)
    requires tr[k + 1].durable == tr[k].durable + Newly(tr[k], acts[k])
    ensures tr[k + 1].durable == HeaderWritten(tr, acts, k + 1)
  {
  }

  lemma {:induction false} DurableIsHeaderWritten(
    g: Area, base: Disk, d: Disk, tr: seq<State>, acts: seq<Action>, k: nat)
    requires Roomy(g) && StandsFor(g, d, base) && Run(g, d, tr, acts) && k <= |acts|
    ensures tr[k].durable == HeaderWritten(tr, acts, k)
  {
    if k > 0 {
      hide HeaderWritten, Newly, StandsFor, StepRelation;
      var j := k - 1;
      RunDurable(g, base, d, tr, acts, j);
      DurableIsHeaderWritten(g, base, d, tr, acts, j);
      HeaderWrittenNext(tr, acts, j);
    }
  }

  /** Crash safety. Power on with a disk that stands for `base`; after any number `k` of steps of any run, with any
      number of crashes at any block write of commits and recoveries, the disk stands for `base` with the durable
      updates applied, which are exactly those of the groups whose header write happened; and whenever the kernel is up
      the home blocks are exactly that. */
  lemma CrashSafety(g: Area, base: Disk, d: Disk, tr: seq<State>, acts: seq<Action>, k: nat)
    requires Roomy(g) && StandsFor(g, d, base) && Run(g, d, tr, acts) && k <= |acts|
    ensures tr[k].durable == HeaderWritten(tr, acts, k) && UpdatesOk(g, |base|, tr[k].durable)
    ensures StandsFor(g, tr[k].disk, Updated(base, tr[k].durable))
    ensures tr[k].phase.Running? ==> HomeEq(g, tr[k].disk, Updated(base, tr[k].durable))
  {
    RunKeeps(g, base, d, tr, acts, k);
    DurableIsHeaderWritten(g, base, d, tr, acts, k);
    AlwaysRecoverable(g, base, tr[k]);
  }

  /** Atomicity of system calls under group commit: of every system call, either all the updates it ever made are on the
      recovered disk, or none; none if it has not ended. */
  lemma Atomicity(g: Area, base: Disk, d: Disk, tr: seq<State>, acts: seq<Action>, k: nat, op: nat)
    requires Roomy(g) && StandsFor(g, d, base) && Run(g, d, tr, acts) && k <= |acts|
    ensures var kept := OpUpdates(tr[k].durable, op);
      && (kept == [] || kept == OpUpdates(tr[k].all, op))
      && (forall i :: 0 <= i < |tr[k].open| && tr[k].open[i].id == op ==> kept == [])
  {
    RunKeeps(g, base, d, tr, acts, k);
  }

  /** While the kernel is up, a block read through the cache is the committed disk with every update of the current
      group on top, in order. */
  lemma ReadsLatest(g: Area, base: Disk, d: Disk, tr: seq<State>, acts: seq<Action>, k: nat, x: nat)
    requires Roomy(g) && StandsFor(g, d, base) && Run(g, d, tr, acts) && k <= |acts|
    requires tr[k].phase.Running? && x < |tr[k].disk| && IsHome(g, x)
    ensures UpdatesOk(g, |base|, tr[k].durable + tr[k].pending) && |base| == |tr[k].disk|
    ensures (if x in tr[k].cache then tr[k].cache[x] else tr[k].disk[x])
      == Updated(base, tr[k].durable + tr[k].pending)[x]
  {
    RunKeeps(g, base, d, tr, acts, k);
    UpdatedAppend(base, tr[k].durable, tr[k].pending);
  }

  /** Reservation, for every log area: the log never outgrows what begin_op reserved, no block is listed twice, a commit
      excludes open system calls, and an idle log is empty and admits a new system call. */
  lemma Reservation(g: Area, d: Disk, tr: seq<State>, acts: seq<Action>, k: nat)
    requires Fits(g, d) && Run(g, d, tr, acts) && k <= |acts|
    ensures var s := tr[k];
      && |s.lh| + Unused(s.open) <= LOGSIZE && Distinct(s.lh)
      && (s.phase.Committing? ==> s.open == [])
      && (s.phase.Running? && s.open == [] ==> s.lh == [] && Typed(g, s) && Enabled(g, s, Begin))
  {
    RunSane(g, d, tr, acts, k);
  }

  // ---- reachable states ----

  ghost predicate Reachable(g: Area, d: Disk, s: State) {
    exists tr, acts :: Run(g, d, tr, acts) && s == tr[|acts|]
  }

  lemma ReachableSane(g: Area, d: Disk, s: State)
    requires Fits(g, d) && Reachable(g, d, s)
    ensures Sane(g, s) && Typed(g, s)
  {
    var tr, acts :| Run(g, d, tr, acts) && s == tr[|acts|];
    RunSane(g, d, tr, acts, |acts|);
  }

  lemma ReachableInv(g: Area, base: Disk, d: Disk, s: State)
    requires Roomy(g) && StandsFor(g, d, base) && Reachable(g, d, s)
    ensures Inv(g, base, s) && Typed(g, s)
  {
    var tr, acts :| Run(g, d, tr, acts) && s == tr[|acts|];
    RunKeeps(g, base, d, tr, acts, |acts|);
    SaneTyped(g, s);
  }

  lemma Extend(g: Area, d: Disk, s: State, a: Action) returns (s': State)
    requires Fits(g, d) && Reachable(g, d, s) && Typed(g, s) && Enabled(g, s, a)
    ensures Reachable(g, d, s') && s' == Step(g, s, a) && Typed(g, s')
  {
    s' := Step(g, s, a);
    var tr, acts :| Run(g, d, tr, acts) && s == tr[|acts|];
    Extended(StepRelation(g), tr, acts, a, s');
    var tr', acts' := tr + [s'], acts + [a];
    assert Run(g, d, tr', acts') && s' == tr'[|acts'|];
    ReachableSane(g, d, s');
  }

  /** A commit or a recovery that finds buffers for its writes. */
  predicate Writing(p: Phase) {
    (p.Committing? && |p.txn.lh| < NBUF) || p.Recovering?
  }

  /** Every write of the commit or the recovery. */
  function PhaseWrites(g: Area, p: Phase): (ws: seq<Write>)
    requires (p.Committing? || p.Recovering?) && |p.txn.lh| == |p.txn.data|
  {
    if p.Recovering? then RecoveryWrites(g, p.txn) else CommitWrites(g, p.txn)
  }

  /** The disk is where the writes made so far have taken it. */
  lemma PhaseDisk(g: Area, base: Disk, s: State)
    requires Inv(g, base, s) && Typed(g, s) && Writing(s.phase)
    ensures |PhaseWrites(g, s.phase)| == PhaseCount(s.phase) && InRange(PhaseWrites(g, s.phase), |s.phase.before|)
    ensures s.phase.k <= PhaseCount(s.phase) && s.disk == Play(s.phase.before, PhaseWrites(g, s.phase), s.phase.k)
    ensures s.phase.k < PhaseCount(s.phase) ==> PhaseWrites(g, s.phase)[s.phase.k] == PhaseWrite(g, s.phase)
  {
    PhaseCounts(g, s.phase);
  }

  /** A log that is down can boot, and one that commits or recovers has a next step, except that a commit of NBUF blocks
      is stopped by bget: what Boot and WriteBlock ask of the disk, and log.c does not test, always holds. */
  lemma NeverStuck(g: Area, base: Disk, d: Disk, s: State)
    requires Roomy(g) && StandsFor(g, d, base) && Reachable(g, d, s)
    ensures Typed(g, s) && (s.phase.Down? ==> Enabled(g, s, Boot))
    ensures s.phase.Committing? || s.phase.Recovering? ==>
      && s.phase.k <= PhaseCount(s.phase)
      && (Enabled(g, s, if s.phase.k < PhaseCount(s.phase) then WriteBlock else Finish) <==> Writing(s.phase))
  {
    hide Inv, Reachable, StandsFor, CommitWrite, RecoveryWrite;
    ReachableInv(g, base, d, s);
    if Writing(s.phase) {
      WritesOn(g, base, s);
    } else {
      StuckOnlyThere(g, base, s);
    }
  }

  lemma WritesOn(g: Area, base: Disk, s: State)
    requires Inv(g, base, s) && Typed(g, s) && Writing(s.phase)
    ensures s.phase.k <= PhaseCount(s.phase)
    ensures s.phase.k < PhaseCount(s.phase) ==> PhaseWrite(g, s.phase).bno < |s.disk|
  {
    PhaseDisk(g, base, s);
    hide Inv, PhaseWrite;
  }

  lemma StuckOnlyThere(g: Area, base: Disk, s: State)
    requires Inv(g, base, s) && Typed(g, s) && !Writing(s.phase)
    ensures s.phase.Down? ==> Enabled(g, s, Boot)
    ensures s.phase.Committing? ==> s.phase.k == 0 < PhaseCount(s.phase)
  {
    hide Sane, OverlayInv, OpsInv;
  }

  function Later(p: Phase, n: nat): (q: Phase)
    requires p.Committing? || p.Recovering?
  {
    p.(k := p.k + n)
  }

  lemma LaterSame(g: Area, p: Phase, n: nat)
    requires (p.Committing? || p.Recovering?) && |p.txn.lh| == |p.txn.data|
    ensures var q := Later(p, n);
      && (q.Committing? || q.Recovering?) && q.txn == p.txn && q.before == p.before && q.k == p.k + n
      && PhaseWrites(g, q) == PhaseWrites(g, p) && PhaseCount(q) == PhaseCount(p) && (Writing(q) <==> Writing(p))
  {
  }

  lemma PhaseCounts(g: Area, p: Phase)
    requires (p.Committing? || p.Recovering?) && |p.txn.lh| == |p.txn.data|
    ensures |PhaseWrites(g, p)| == PhaseCount(p)
    ensures p.k < PhaseCount(p) ==> PhaseWrites(g, p)[p.k] == PhaseWrite(g, p)
  {
  }

  /** The disk is where the writes of the script have taken it so far, and the rest of them is within the disk. */
  ghost predicate OnScript(g: Area, s: State)
    requires (s.phase.Committing? || s.phase.Recovering?) && |s.phase.txn.lh| == |s.phase.txn.data|
  {
    var ws := PhaseWrites(g, s.phase);
    InRange(ws, |s.phase.before|) && s.phase.k <= |ws| && s.disk == Play(s.phase.before, ws, s.phase.k)
  }

  lemma WriteNext(g: Area, d: Disk, s: State) returns (t: State)
    requires Fits(g, d) && Reachable(g, d, s) && Typed(g, s) && Writing(s.phase) && OnScript(g, s)
    requires s.phase.k < PhaseCount(s.phase)
    ensures Reachable(g, d, t) && Typed(g, t) && t.phase == Later(s.phase, 1) && OnScript(g, t)
    ensures t.lh == s.lh && t.cache == s.cache && t.open == s.open
    ensures s.phase.Committing? && s.phase.k < |s.phase.txn.lh| ==> t.durable == s.durable
  {
    PhaseCounts(g, s.phase);
    WriteEffect(g, s);
    LaterSame(g, s.phase, 1);
    hide Reachable, PhaseWrites, PhaseWrite;
    t := Extend(g, d, s, WriteBlock);
    hide Step, Typed, Enabled;
  }

  /** The log makes its next `n` writes. */
  lemma {:induction false} WriteRun(g: Area, d: Disk, s: State, n: nat) returns (t: State)
    requires Fits(g, d) && Reachable(g, d, s) && Typed(g, s) && Writing(s.phase) && OnScript(g, s)
    requires s.phase.k + n <= PhaseCount(s.phase)
    ensures Reachable(g, d, t) && Typed(g, t) && t.phase == Later(s.phase, n) && OnScript(g, t)
    ensures t.lh == s.lh && t.cache == s.cache && t.open == s.open
    ensures s.phase.Committing? && s.phase.k + n <= |s.phase.txn.lh| ==> t.durable == s.durable
    ensures s.phase.k + n <= |PhaseWrites(g, s.phase)| == PhaseCount(s.phase)
    ensures t.disk == Play(s.phase.before, PhaseWrites(g, s.phase), s.phase.k + n)
    decreases n
  {
    hide Reachable, PhaseWrites, PhaseCount, Play;
    PhaseCounts(g, s.phase);
    LaterSame(g, s.phase, n);
    t := s;
    if n > 0 {
      LaterSame(g, s.phase, n - 1);
      t := WriteRun(g, d, s, n - 1);
      t := WriteNext(g, d, t);
    }
  }
}
