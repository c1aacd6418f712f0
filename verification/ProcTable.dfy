/** The process table as a transition system whose steps are the sections that hold ptable.lock: fork, exit, wait, the
    scheduler, sleep, wakeup and kill. */
module ProcTable {
  import opened Runs

  const NPROC := 64
  /** Index of initproc. */
  const INIT := 0
  /** The null parent pointer. */
  const NOBODY := -1

  datatype Status = UNUSED | EMBRYO | SLEEPING | RUNNABLE | RUNNING | ZOMBIE

  /** Sleep channels: none, the address of a process, or any other address. */
  datatype Chan = NoChan | ProcChan(i: int) | Other(id: int)

  /** Where in the kernel a process is: in fork with an entry allocated, in wait, or elsewhere. */
  datatype Pc = Idle | Fork(child: nat) | Wait

  datatype Proc = Proc(state: Status, pid: nat, parent: int, chan: Chan, killed: bool, pc: Pc)

  type Table = t: seq<Proc> | |t| == NPROC witness seq(NPROC, i => Free)

  const Free := Proc(UNUSED, 0, NOBODY, NoChan, false, Idle)

  /** `reaped` lists the pids that wait has returned. */
  datatype State = State(t: Table, nextpid: nat, reaped: seq<nat>)

  datatype Action =
    Alloc(c: nat) | AllocFail(c: nat) | SetParent(c: nat) | Ready(c: nat)
    | Exit(c: nat) | WaitScan(c: nat) | Schedule(c: nat) | Yield(c: nat)
    | Sleep(c: nat, id: int) | Wakeup(id: int) | Kill(pid: nat)

  // ---- the scans of the table ----

  /** First index from `i` on whose entry is unused, or NPROC. */
  function FirstUnused(t: Table, i: nat): (r: nat)
    requires i <= NPROC
    ensures i <= r <= NPROC && (r < NPROC ==> t[r].state == UNUSED)
    ensures forall k :: i <= k < r ==> t[k].state != UNUSED
    decreases NPROC - i
  {
    if i == NPROC || t[i].state == UNUSED then i else FirstUnused(t, i + 1)
  }

  predicate ZombieOf(p: Proc, c: int) {
    p.parent == c && p.state == ZOMBIE
  }

  function FirstZombie(t: Table, c: int, i: nat): (r: nat)
    requires i <= NPROC
    ensures i <= r <= NPROC && (r < NPROC ==> ZombieOf(t[r], c))
    ensures forall k :: i <= k < r ==> !ZombieOf(t[k], c)
    decreases NPROC - i
  {
    if i == NPROC || ZombieOf(t[i], c) then i else FirstZombie(t, c, i + 1)
  }

  predicate HasKids(t: Table, c: int) {
    exists k :: 0 <= k < NPROC && t[k].parent == c
  }

  function FirstPid(t: Table, pid: nat, i: nat): (r: nat)
    requires i <= NPROC
    ensures i <= r <= NPROC && (r < NPROC ==> t[r].pid == pid)
    ensures forall k :: i <= k < r ==> t[k].pid != pid
    decreases NPROC - i
  {
    if i == NPROC || t[i].pid == pid then i else FirstPid(t, pid, i + 1)
  }

  function WakeProc(p: Proc, chan: Chan): (r: Proc) {
    if p.state == SLEEPING && p.chan == chan then p.(state := RUNNABLE) else p
  }

  /** wakeup1: every process asleep on `chan` becomes runnable. */
  function Wake(t: Table, chan: Chan): (r: Table) {
    seq(NPROC, i requires 0 <= i < NPROC => WakeProc(t[i], chan))
  }

  function Adopt(t: Table, c: int): (r: Table) {
    seq(NPROC, i requires 0 <= i < NPROC => if t[i].parent == c then t[i].(parent := INIT) else t[i])
  }

  /** The locked section of exit: wake the parent, give the children to init, wake init if one of them is a zombie, and
      become a zombie. */
  function Exited(t: Table, c: nat): (r: Table)
    requires c < NPROC
  {
    var t1 := Wake(t, ProcChan(t[c].parent));
    var t2 := if FirstZombie(t1, c, 0) < NPROC then Wake(Adopt(t1, c), ProcChan(INIT)) else Adopt(t1, c);
    t2[c := t2[c].(state := ZOMBIE)]
  }

  /** One pass of wait: reap the first zombie child, or give up, or go to sleep. */
  function Scan(s: State, c: nat): (r: State)
    requires c < NPROC
  {
    var z := FirstZombie(s.t, c, 0);
    if z < NPROC then
      var t1 := s.t[z := s.t[z].(state := UNUSED, pid := 0, parent := NOBODY, killed := false)];
      s.(t := t1[c := t1[c].(pc := Idle)], reaped := s.reaped + [s.t[z].pid])
    else if !HasKids(s.t, c) || s.t[c].killed then
      s.(t := s.t[c := s.t[c].(pc := Idle)])
    else
      s.(t := s.t[c := s.t[c].(state := SLEEPING, chan := ProcChan(c), pc := Wait)])
  }

  /** How wait answers: with the pid of a child, with -1, or not yet. */
  datatype WaitResult = Child(pid: nat) | NoChild | Asleep

  /** Entry `z` is the first zombie child. */
  predicate FirstOf(t: Table, c: nat, z: nat) {
    z < NPROC && ZombieOf(t[z], c) && forall k :: 0 <= k < z ==> !ZombieOf(t[k], c)
  }

  /** The answer of one pass: the first zombie child, if there is one; -1 if there is none and no other child to wait
      for, or the caller is killed. */
  function WaitAnswer(t: Table, c: nat): (r: WaitResult)
    requires c < NPROC
    ensures r.Child? <==> exists z :: 0 <= z < NPROC && ZombieOf(t[z], c)
    ensures r.Child? ==> exists z :: 0 <= z < NPROC && FirstOf(t, c, z) && t[z].pid == r.pid
    ensures r.NoChild? <==>
      (forall z :: 0 <= z < NPROC ==> !ZombieOf(t[z], c))
      && ((forall z :: 0 <= z < NPROC ==> t[z].parent != c) || t[c].killed)
  {
    var z := FirstZombie(t, c, 0);
    if z < NPROC then Child(t[z].pid) else if !HasKids(t, c) || t[c].killed then NoChild else Asleep
  }

  // ---- steps ----

  predicate Running(t: Table, c: nat) {
    c < NPROC && t[c].state == RUNNING
  }

  predicate Enabled(s: State, a: Action) {
    match a
    case Alloc(c) => Running(s.t, c) && s.t[c].pc == Idle
    case AllocFail(c) =>
      Running(s.t, c) && s.t[c].pc.Fork? && s.t[c].pc.child < NPROC && s.t[s.t[c].pc.child].parent == NOBODY
    case SetParent(c) =>
      Running(s.t, c) && s.t[c].pc.Fork? && s.t[c].pc.child < NPROC && s.t[s.t[c].pc.child].parent == NOBODY
    case Ready(c) => Running(s.t, c) && s.t[c].pc.Fork? && s.t[c].pc.child < NPROC && s.t[s.t[c].pc.child].parent == c
    case Exit(c) => Running(s.t, c) && s.t[c].pc == Idle && c != INIT
    case WaitScan(c) => Running(s.t, c) && s.t[c].pc == Idle
    case Schedule(c) => c < NPROC && s.t[c].state == RUNNABLE
    case Yield(c) => Running(s.t, c)
    case Sleep(c, _) => Running(s.t, c) && s.t[c].pc == Idle
    case Wakeup(_) => true
    case Kill(_) => true
  }

  function Step(s: State, a: Action): (r: State)
    requires Enabled(s, a)
  {
    match a
    case Alloc(c) =>
      var i := FirstUnused(s.t, 0);
      if i == NPROC then s
      else
        var t1 := s.t[i := s.t[i].(state := EMBRYO, pid := s.nextpid)];
        s.(t := t1[c := t1[c].(pc := Fork(i))], nextpid := s.nextpid + 1)
    case AllocFail(c) =>
      var i := s.t[c].pc.child;
      var t1 := s.t[i := s.t[i].(state := UNUSED)];
      s.(t := t1[c := t1[c].(pc := Idle)])
    case SetParent(c) =>
      var i := s.t[c].pc.child;
      s.(t := s.t[i := s.t[i].(parent := c)])
    case Ready(c) =>
      var i := s.t[c].pc.child;
      var t1 := s.t[i := s.t[i].(state := RUNNABLE, pc := Idle)];
      s.(t := t1[c := t1[c].(pc := Idle)])
    case Exit(c) => s.(t := Exited(s.t, c))
    case WaitScan(c) => Scan(s, c)
    case Schedule(c) =>
      var waiting := s.t[c].pc == Wait;
      var s1 := s.(t := s.t[c := s.t[c].(state := RUNNING, chan := NoChan, pc := if waiting then Idle else s.t[c].pc)]);
      if waiting then Scan(s1, c) else s1
    case Yield(c) => s.(t := s.t[c := s.t[c].(state := RUNNABLE)])
    case Sleep(c, id) => s.(t := s.t[c := s.t[c].(state := SLEEPING, chan := Other(id))])
    case Wakeup(id) => s.(t := Wake(s.t, Other(id)))
    case Kill(pid) =>
      var i := FirstPid(s.t, pid, 0);
      if i == NPROC then s
      else
        var state := if s.t[i].state == SLEEPING then RUNNABLE else s.t[i].state;
        s.(t := s.t[i := s.t[i].(killed := true, state := state)])
  }

  ghost predicate Next(s: State, a: Action, s': State) {
    Enabled(s, a) && s' == Step(s, a)
  }

  /** userinit: one process, everything else unused. */
  function Boot(): (s: State) {
    State(seq(NPROC, i => if i == INIT then Free.(state := RUNNABLE, pid := 1) else Free), 2, [])
  }

  ghost predicate Run(tr: seq<State>, acts: seq<Action>) {
    IsRun(Next, tr, acts) && tr[0] == Boot()
  }

  // ---- the invariant ----

  predicate Alive(t: Table, p: int) {
    0 <= p < NPROC && t[p].state in {SLEEPING, RUNNABLE, RUNNING}
  }

  /** Parents are alive, and every process but init has one. */
  ghost predicate FamilyInv(t: Table) {
    && Alive(t, INIT)
    && forall i :: 0 <= i < NPROC ==> FamilyOf(t, i)
  }

  ghost predicate FamilyOf(t: Table, i: nat)
    requires i < NPROC
  {
    && (t[i].parent == NOBODY || (Alive(t, t[i].parent) && t[i].parent != i && i != INIT))
    && (i != INIT && t[i].state !in {UNUSED, EMBRYO} ==> t[i].parent != NOBODY)
    && (t[i].state == UNUSED ==> t[i].parent == NOBODY)
    && (t[i].state == EMBRYO && t[i].parent != NOBODY ==> t[t[i].parent].pc == Fork(i))
  }

  /** A process in fork owns its embryo; a process in wait is asleep on its own address or about to run. */
  ghost predicate PcInv(t: Table) {
    && (forall c :: 0 <= c < NPROC && t[c].pc.Fork? ==> ForkOk(t, c))
    && (forall c, d :: 0 <= c < d < NPROC && t[c].pc.Fork? ==> t[d].pc != t[c].pc)
    && (forall c :: 0 <= c < NPROC && t[c].pc == Wait ==> t[c].state in {SLEEPING, RUNNABLE})
    && (forall c :: 0 <= c < NPROC && t[c].state == SLEEPING && t[c].chan.ProcChan? ==>
          t[c].chan == ProcChan(c) && t[c].pc == Wait)
  }

  ghost predicate ForkOk(t: Table, c: nat)
    requires c < NPROC && t[c].pc.Fork?
  {
    var i := t[c].pc.child;
    i < NPROC && t[i].state == EMBRYO && t[i].parent in {NOBODY, c} && t[c].state in {RUNNING, RUNNABLE}
  }

  predicate AsleepInWait(t: Table, c: nat)
    requires c < NPROC
  {
    t[c].state == SLEEPING && t[c].chan == ProcChan(c)
  }

  /** Nobody sleeps in wait while a child is a zombie. */
  ghost predicate WaitInv(t: Table) {
    forall c, z :: 0 <= c < NPROC && 0 <= z < NPROC && AsleepInWait(t, c) ==> !ZombieOf(t[z], c)
  }

  ghost predicate PidInv(s: State) {
    && (forall i :: 0 <= i < NPROC && s.t[i].state != UNUSED ==> s.t[i].pid < s.nextpid && s.t[i].pid !in s.reaped)
    && (forall i, j :: 0 <= i < j < NPROC && s.t[i].state != UNUSED && s.t[j].state != UNUSED ==>
          s.t[i].pid != s.t[j].pid)
    && (forall p :: p in s.reaped ==> p < s.nextpid)
    && (forall i, j :: 0 <= i < j < |s.reaped| ==> s.reaped[i] != s.reaped[j])
  }

  ghost predicate Inv(s: State) {
    FamilyInv(s.t) && PcInv(s.t) && WaitInv(s.t) && PidInv(s)
  }

  // ---- steps keep the invariant ----

  /** Changes that leave the family tree, the pids and the zombies alone, put nobody to sleep in wait, and keep
      processes that are in wait or in fork there. */
  ghost predicate Light(t: Table, t': Table) {
    forall i :: 0 <= i < NPROC ==> LightAt(t[i], t'[i])
  }

  ghost predicate LightAt(p: Proc, q: Proc) {
    && q.parent == p.parent && q.pid == p.pid
    && (q.state == p.state || (p.state in {SLEEPING, RUNNABLE, RUNNING} && q.state in {SLEEPING, RUNNABLE, RUNNING}))
    && (q.state == SLEEPING && q.chan.ProcChan? ==> p.state == SLEEPING && p.chan == q.chan)
    && (q.pc == p.pc || (p.pc == Wait && q.pc == Idle && q.state == RUNNING))
    && (q.pc == Wait ==> q.state in {SLEEPING, RUNNABLE})
    && (q.pc.Fork? ==> q.state in {RUNNING, RUNNABLE})
  }

  lemma LightPc(s: State, t': Table)
    requires Inv(s) && Light(s.t, t')
    ensures PcInv(t')
  {
    hide FamilyInv, WaitInv, PidInv;
    forall c | 0 <= c < NPROC && t'[c].pc.Fork?
      ensures ForkOk(t', c)
    {
      assert ForkOk(s.t, c);
    }
  }

  lemma LightKeeps(s: State, t': Table)
    requires Inv(s) && Light(s.t, t')
    ensures Inv(s.(t := t'))
  {
    LightPc(s, t');
    hide PcInv;
    forall i | 0 <= i < NPROC
      ensures FamilyOf(t', i)
    {
      assert FamilyOf(s.t, i);
    }
    assert WaitInv(t') by {
      forall c, z | 0 <= c < NPROC && 0 <= z < NPROC && AsleepInWait(t', c)
        ensures !ZombieOf(t'[z], c)
      {
        assert AsleepInWait(s.t, c) && !ZombieOf(s.t[z], c);
      }
    }
  }

  lemma LightSteps(s: State, a: Action)
    requires Inv(s) && Enabled(s, a)
    requires a.Yield? || a.Sleep? || a.Wakeup? || a.Kill? || (a.Schedule? && s.t[a.c].pc != Wait)
    ensures Inv(Step(s, a))
  {
    assert forall c :: 0 <= c < NPROC && s.t[c].pc.Fork? ==> ForkOk(s.t, c);
    LightKeeps(s, Step(s, a).t);
  }

  /** The steps of fork: a running process `c` moves its embryo, entry `i`, from unused to runnable or back. */
  ghost predicate EmbryoStep(s: State, s': State, c: nat, i: nat) {
    && c < NPROC && i < NPROC && c != i
    && s.t[c].state == RUNNING && s.t[c].pc in {Idle, Fork(i)} && s.t[i].state in {UNUSED, EMBRYO}
    && (s.t[i].state == EMBRYO <==> s.t[c].pc == Fork(i))
    && s'.t == s.t[i := s'.t[i]][c := s.t[c].(pc := s'.t[c].pc)] && s'.reaped == s.reaped
    && s'.t[i].state in {UNUSED, EMBRYO, RUNNABLE} && s'.t[i].pc == Idle
    && s'.t[c].pc == (if s'.t[i].state == EMBRYO then Fork(i) else Idle)
    && s'.t[i].parent in {NOBODY, c} && (s'.t[i].state == UNUSED ==> s'.t[i].parent == NOBODY)
    && (s'.t[i].state == RUNNABLE ==> s'.t[i].parent == c)
    && (if s.t[i].state == UNUSED then s'.t[i].pid == s.nextpid && s'.nextpid == s.nextpid + 1
        else s'.t[i].pid == s.t[i].pid && s'.nextpid == s.nextpid)
  }

  lemma EmbryoFamily(s: State, s': State, c: nat, i: nat)
    requires Inv(s) && EmbryoStep(s, s', c, i)
    ensures FamilyInv(s'.t)
  {
    forall k | 0 <= k < NPROC
      ensures FamilyOf(s'.t, k)
    {
      assert FamilyOf(s.t, k);
    }
  }

  lemma EmbryoPc(s: State, s': State, c: nat, i: nat)
    requires Inv(s) && EmbryoStep(s, s', c, i)
    ensures PcInv(s'.t)
  {
    hide FamilyInv, PidInv, WaitInv;
    forall d | 0 <= d < NPROC && d != c && s.t[d].pc.Fork?
      ensures ForkOk(s.t, d) && s.t[d].pc.child != i
    {
      assert ForkOk(s.t, d);
    }
    forall d | 0 <= d < NPROC && s'.t[d].pc.Fork?
      ensures ForkOk(s'.t, d)
    {
      if d != c {
        assert ForkOk(s.t, d);
      }
    }
  }

  lemma EmbryoWait(s: State, s': State, c: nat, i: nat)
    requires Inv(s) && EmbryoStep(s, s', c, i)
    ensures WaitInv(s'.t)
  {
    hide FamilyInv, PidInv;
    forall d, z | 0 <= d < NPROC && 0 <= z < NPROC && AsleepInWait(s'.t, d)
      ensures !ZombieOf(s'.t[z], d)
    {
      assert AsleepInWait(s.t, d) && !ZombieOf(s.t[z], d);
    }
  }

  lemma EmbryoPid(s: State, s': State, c: nat, i: nat)
    requires Inv(s) && EmbryoStep(s, s', c, i)
    ensures PidInv(s')
  {
    hide FamilyInv, PcInv, WaitInv;
  }

  lemma ForkSteps(s: State, a: Action)
    requires Inv(s) && Enabled(s, a)
    requires a.Alloc? || a.AllocFail? || a.SetParent? || a.Ready?
    ensures Inv(Step(s, a))
  {
    var s' := Step(s, a);
    if s' != s {
      var i := if a.Alloc? then FirstUnused(s.t, 0) else s.t[a.c].pc.child;
      assert !a.Alloc? ==> ForkOk(s.t, a.c);
      assert FamilyOf(s.t, i);
      assert s.t[i].pc == Idle;
      assert EmbryoStep(s, s', a.c, i);
      EmbryoFamily(s, s', a.c, i);
      EmbryoPc(s, s', a.c, i);
      EmbryoWait(s, s', a.c, i);
      EmbryoPid(s, s', a.c, i);
    }
  }

  lemma ZombiePc(s: State, z: nat)
    requires Inv(s) && z < NPROC && s.t[z].state == ZOMBIE
    ensures s.t[z].pc == Idle && forall k :: 0 <= k < NPROC ==> s.t[k].parent != z
  {
    forall k | 0 <= k < NPROC
      ensures s.t[k].parent != z
    {
      assert FamilyOf(s.t, k);
    }
  }

  lemma ReapKeeps(s: State, c: nat, z: nat)
    requires Inv(s) && Running(s.t, c) && s.t[c].pc == Idle && z < NPROC && ZombieOf(s.t[z], c)
    ensures var t' := s.t[z := s.t[z].(state := UNUSED, pid := 0, parent := NOBODY, killed := false)];
      Inv(s.(t := t', reaped := s.reaped + [s.t[z].pid]))
  {
    var t' := s.t[z := s.t[z].(state := UNUSED, pid := 0, parent := NOBODY, killed := false)];
    ZombiePc(s, z);
    forall k | 0 <= k < NPROC
      ensures FamilyOf(t', k)
    {
      assert FamilyOf(s.t, k);
    }
    assert PcInv(t') by {
      forall d | 0 <= d < NPROC && t'[d].pc.Fork?
        ensures ForkOk(t', d)
      {
        assert ForkOk(s.t, d);
      }
    }
    assert WaitInv(t') by {
      forall d, k | 0 <= d < NPROC && 0 <= k < NPROC && AsleepInWait(t', d)
        ensures !ZombieOf(t'[k], d)
      {
        assert AsleepInWait(s.t, d) && !ZombieOf(s.t[k], d);
      }
    }
  }

  lemma WaitSleepKeeps(s: State, c: nat)
    requires Inv(s) && Running(s.t, c) && s.t[c].pc == Idle && forall z :: 0 <= z < NPROC ==> !ZombieOf(s.t[z], c)
    ensures Inv(s.(t := s.t[c := s.t[c].(state := SLEEPING, chan := ProcChan(c), pc := Wait)]))
  {
    var t' := s.t[c := s.t[c].(state := SLEEPING, chan := ProcChan(c), pc := Wait)];
    forall k | 0 <= k < NPROC
      ensures FamilyOf(t', k)
    {
      assert FamilyOf(s.t, k);
    }
    assert PcInv(t') by {
      forall d | 0 <= d < NPROC && t'[d].pc.Fork?
        ensures ForkOk(t', d)
      {
        assert ForkOk(s.t, d);
      }
    }
    assert WaitInv(t') by {
      forall d, k | 0 <= d < NPROC && 0 <= k < NPROC && AsleepInWait(t', d)
        ensures !ZombieOf(t'[k], d)
      {
        assert !ZombieOf(s.t[k], c) && (d != c ==> AsleepInWait(s.t, d) && !ZombieOf(s.t[k], d));
      }
    }
  }

  lemma ScanKeeps(s: State, c: nat)
    requires Inv(s) && Running(s.t, c) && s.t[c].pc == Idle
    ensures Inv(Scan(s, c))
  {
    hide Inv;
    var z := FirstZombie(s.t, c, 0);
    assert s.t[c := s.t[c].(pc := Idle)] == s.t;
    if z < NPROC {
      ReapKeeps(s, c, z);
      var t1 := s.t[z := s.t[z].(state := UNUSED, pid := 0, parent := NOBODY, killed := false)];
      assert t1[c := t1[c].(pc := Idle)] == t1;
    } else if HasKids(s.t, c) && !s.t[c].killed {
      WaitSleepKeeps(s, c);
    }
  }

  lemma WaitSteps(s: State, a: Action)
    requires Inv(s) && Enabled(s, a) && (a.WaitScan? || (a.Schedule? && s.t[a.c].pc == Wait))
    ensures Inv(Step(s, a))
  {
    if a.WaitScan? {
      ScanKeeps(s, a.c);
    } else {
      var t1 := s.t[a.c := s.t[a.c].(state := RUNNING, chan := NoChan, pc := Idle)];
      assert forall c :: 0 <= c < NPROC && s.t[c].pc.Fork? ==> ForkOk(s.t, c);
      LightKeeps(s, t1);
      ScanKeeps(s.(t := t1), a.c);
    }
  }

  /** What the locked section of exit does to the entries. */
  ghost predicate ExitStep(t: Table, t': Table, c: nat)
    requires c < NPROC
  {
    && (forall i :: 0 <= i < NPROC ==> ExitAt(t[i], t'[i], c, i))
    && (Alive(t, t[c].parent) ==> !AsleepInWait(t', t[c].parent))
    && ((exists z :: 0 <= z < NPROC && ZombieOf(t[z], c)) ==> !AsleepInWait(t', INIT))
  }

  ghost predicate ExitAt(p: Proc, q: Proc, c: nat, i: nat) {
    && q.parent == (if p.parent == c then INIT else p.parent) && q.pid == p.pid && q.pc == p.pc && q.chan == p.chan
    && (if i == c then q.state == ZOMBIE else q.state == p.state || (p.state == SLEEPING && q.state == RUNNABLE))
  }

  lemma ExitEntry(t: Table, c: nat, i: nat)
    requires c < NPROC && i < NPROC
    ensures ExitAt(t[i], Exited(t, c)[i], c, i)
  {
    hide FirstZombie;
  }

  lemma ExitWakes(t: Table, c: nat)
    requires c < NPROC
    ensures Alive(t, t[c].parent) && t[c].parent != c ==> !AsleepInWait(Exited(t, c), t[c].parent)
    ensures (exists z :: 0 <= z < NPROC && ZombieOf(t[z], c)) ==> !AsleepInWait(Exited(t, c), INIT)
  {
    hide FirstZombie;
    var t1 := Wake(t, ProcChan(t[c].parent));
    forall z | 0 <= z < NPROC && ZombieOf(t[z], c)
      ensures FirstZombie(t1, c, 0) < NPROC
    {
      assert ZombieOf(t1[z], c);
    }
  }

  lemma ExitDoes(s: State, c: nat)
    requires Inv(s) && Enabled(s, Exit(c))
    ensures ExitStep(s.t, Exited(s.t, c), c)
  {
    assert FamilyOf(s.t, c);
    hide Inv, Exited;
    forall i | 0 <= i < NPROC
      ensures ExitAt(s.t[i], Exited(s.t, c)[i], c, i)
    {
      ExitEntry(s.t, c, i);
    }
    ExitWakes(s.t, c);
  }

  lemma ExitFamily(s: State, t': Table, c: nat)
    requires Inv(s) && Running(s.t, c) && s.t[c].pc == Idle && c != INIT && ExitStep(s.t, t', c)
    ensures FamilyInv(t')
  {
    forall k | 0 <= k < NPROC
      ensures FamilyOf(t', k)
    {
      assert FamilyOf(s.t, k);
    }
  }

  lemma ExitPc(s: State, t': Table, c: nat)
    requires Inv(s) && Running(s.t, c) && s.t[c].pc == Idle && c != INIT && ExitStep(s.t, t', c)
    ensures PcInv(t')
  {
    hide FamilyInv, WaitInv, PidInv;
    forall d | 0 <= d < NPROC && t'[d].pc.Fork?
      ensures ForkOk(t', d)
    {
      assert ForkOk(s.t, d);
    }
    assert forall i :: 0 <= i < NPROC ==> ExitAt(s.t[i], t'[i], c, i);
  }

  lemma ExitWait(s: State, t': Table, c: nat)
    requires Inv(s) && Running(s.t, c) && s.t[c].pc == Idle && c != INIT && ExitStep(s.t, t', c)
    ensures WaitInv(t')
  {
    hide PidInv;
    forall d, z | 0 <= d < NPROC && 0 <= z < NPROC && AsleepInWait(t', d)
      ensures !ZombieOf(t'[z], d)
    {
      assert ExitAt(s.t[d], t'[d], c, d) && ExitAt(s.t[z], t'[z], c, z);
      assert AsleepInWait(s.t, d) && !ZombieOf(s.t[z], d);
      assert FamilyOf(s.t, c);
      assert s.t[z].state == ZOMBIE && s.t[z].parent == c ==> ZombieOf(s.t[z], c);
    }
  }

  lemma ExitPid(s: State, t': Table, c: nat)
    requires Inv(s) && Running(s.t, c) && c != INIT && ExitStep(s.t, t', c)
    ensures PidInv(s.(t := t'))
  {
    hide FamilyInv, WaitInv, PcInv;
  }

  lemma ExitKeeps(s: State, c: nat)
    requires Inv(s) && Enabled(s, Exit(c))
    ensures Inv(Step(s, Exit(c)))
  {
    ExitDoes(s, c);
    var t' := Exited(s.t, c);
    hide ExitStep, Exited;
    ExitFamily(s, t', c);
    ExitPc(s, t', c);
    ExitWait(s, t', c);
    ExitPid(s, t', c);
  }

  lemma StepKeeps(s: State, a: Action)
    requires Inv(s) && Enabled(s, a)
    ensures Inv(Step(s, a))
  {
    hide Inv, Step;
    match a
    case Exit(c) => ExitKeeps(s, c);
    case WaitScan(_) => WaitSteps(s, a);
    case Schedule(c) =>
      if s.t[c].pc == Wait {
        WaitSteps(s, a);
      } else {
        LightSteps(s, a);
      }
    case Alloc(_) => ForkSteps(s, a);
    case AllocFail(_) => ForkSteps(s, a);
    case SetParent(_) => ForkSteps(s, a);
    case Ready(_) => ForkSteps(s, a);
    case _ => LightSteps(s, a);
  }

  lemma BootInv()
    ensures Inv(Boot())
  {
    var t := Boot().t;
    forall i | 0 <= i < NPROC
      ensures FamilyOf(t, i)
    {
    }
  }

  lemma RunInv(tr: seq<State>, acts: seq<Action>, k: nat)
    requires Run(tr, acts) && k <= |acts|
    ensures Inv(tr[k])
  {
    BootInv();
    assert Inductive(Next, Inv) by {
      forall s: State, a: Action, s': State | Inv(s) && Next(s, a, s')
        ensures Inv(s')
      {
        StepKeeps(s, a);
      }
    }
    Invariant(Next, Inv, tr, acts, k);
  }

  // ---- what every run keeps ----

  /** A process sleeps in wait only while none of its children is a zombie; every process that has started and is not
      init has a parent, which is alive; and a zombie's parent is not asleep in wait, so it will come to reap it. */
  lemma ExitWaitProtocol(tr: seq<State>, acts: seq<Action>, k: nat)
    requires Run(tr, acts) && k <= |acts|
    ensures forall c, z :: 0 <= c < NPROC && 0 <= z < NPROC && AsleepInWait(tr[k].t, c) ==> !ZombieOf(tr[k].t[z], c)
    ensures forall i :: 0 <= i < NPROC && i != INIT && tr[k].t[i].state in {SLEEPING, RUNNABLE, RUNNING, ZOMBIE} ==>
      Alive(tr[k].t, tr[k].t[i].parent)
    ensures forall z :: 0 <= z < NPROC && z != INIT && tr[k].t[z].state == ZOMBIE ==>
      Alive(tr[k].t, tr[k].t[z].parent) && !AsleepInWait(tr[k].t, tr[k].t[z].parent)
  {
    RunInv(tr, acts, k);
    var t := tr[k].t;
    forall i | 0 <= i < NPROC && i != INIT && t[i].state in {SLEEPING, RUNNABLE, RUNNING, ZOMBIE}
      ensures Alive(t, t[i].parent)
    {
      assert FamilyOf(t, i);
    }
    forall z | 0 <= z < NPROC && z != INIT && t[z].state == ZOMBIE
      ensures Alive(t, t[z].parent) && !AsleepInWait(t, t[z].parent)
    {
      assert FamilyOf(t, z) && ZombieOf(t[z], t[z].parent);
    }
  }

  /** No pid is returned by two waits, and none is returned while a process still has it. */
  lemma ReapedOnce(tr: seq<State>, acts: seq<Action>, k: nat)
    requires Run(tr, acts) && k <= |acts|
    ensures forall i, j :: 0 <= i < j < |tr[k].reaped| ==> tr[k].reaped[i] != tr[k].reaped[j]
    ensures forall i :: 0 <= i < NPROC && tr[k].t[i].state != UNUSED ==> tr[k].t[i].pid !in tr[k].reaped
    ensures forall i, j :: 0 <= i < j < NPROC && tr[k].t[i].state != UNUSED && tr[k].t[j].state != UNUSED ==>
      tr[k].t[i].pid != tr[k].t[j].pid
  {
    RunInv(tr, acts, k);
  }

  /** The pid that wait returns in a step, if it does: in a pass by the caller, or by a sleeper that goes on. */
  function Returned(s: State, a: Action): (r: seq<nat>)
    requires Enabled(s, a)
  {
    if a.WaitScan? || (a.Schedule? && s.t[a.c].pc == Wait) then
      var r := WaitAnswer(s.t, a.c);
      if r.Child? then [r.pid] else []
    else []
  }

  lemma ScanReturns(s: State, a: Action)
    requires Enabled(s, a)
    ensures Step(s, a).reaped == s.reaped + Returned(s, a)
  {
    hide FirstZombie, HasKids, FirstUnused, FirstPid, Exited, Wake;
    if a.Schedule? && s.t[a.c].pc == Wait {
      var t := s.t[a.c := s.t[a.c].(state := RUNNING, chan := NoChan, pc := Idle)];
      ScanSame(s.t, t, a.c);
    }
  }

  /** A pass depends on states, parents and pids. */
  lemma ScanSame(t: Table, t': Table, c: nat)
    requires c < NPROC
    requires forall i :: 0 <= i < NPROC ==>
      t'[i].parent == t[i].parent && t'[i].pid == t[i].pid && (t'[i].state == ZOMBIE <==> t[i].state == ZOMBIE)
    ensures FirstZombie(t', c, 0) == FirstZombie(t, c, 0)
  {
    var (z, z') := (FirstZombie(t, c, 0), FirstZombie(t', c, 0));
    assert z < NPROC ==> ZombieOf(t'[z], c);
    assert z' < NPROC ==> ZombieOf(t[z'], c);
  }

  ghost function AllReturned(tr: seq<State>, acts: seq<Action>, k: nat): (r: seq<nat>)
    requires Run(tr, acts) && k <= |acts|
  {
    if k == 0 then []
    else
      assert Next(tr[k - 1], acts[k - 1], tr[k]);
      AllReturned(tr, acts, k - 1) + Returned(tr[k - 1], acts[k - 1])
  }

  /** The pids reaped are exactly those that calls of wait have returned, in order. */
  lemma {:induction false} ReapedAreReturned(tr: seq<State>, acts: seq<Action>, k: nat)
    requires Run(tr, acts) && k <= |acts|
    ensures tr[k].reaped == AllReturned(tr, acts, k)
  {
    hide Step, Enabled, Returned;
    if k > 0 {
      assert Next(tr[k - 1], acts[k - 1], tr[k]);
      ReapedAreReturned(tr, acts, k - 1);
      ScanReturns(tr[k - 1], acts[k - 1]);
    }
  }

  // ---- waking elsewhere ----

  /** After wakeup nobody sleeps on the channel; those who did can run, and nobody else is affected. */
  lemma WakeupMeans(s: State, id: int, i: nat)
    requires i < NPROC
    ensures var (p, q) := (s.t[i], Step(s, Wakeup(id)).t[i]);
      && !(q.state == SLEEPING && q.chan == Other(id)) && q == p.(state := q.state)
      && (q.state != p.state <==> p.state == SLEEPING && p.chan == Other(id))
      && (q.state != p.state ==> q.state == RUNNABLE)
  {
  }

  // ---- what exit does to every entry ----

  predicate HasZombie(t: Table, c: int) {
    exists z :: 0 <= z < NPROC && ZombieOf(t[z], c)
  }

  /** The caller becomes a zombie, its children go to init, and those asleep on its parent, or on init if one of the
      children is a zombie, are made runnable. Nothing else changes. */
  lemma ExitedIs(t: Table, c: nat, i: nat)
    requires c < NPROC && i < NPROC
    ensures var p := t[i];
      var woken := p.state == SLEEPING
        && (p.chan == ProcChan(t[c].parent) || (p.chan == ProcChan(INIT) && HasZombie(t, c)));
      Exited(t, c)[i] == p.(parent := if p.parent == c then INIT else p.parent,
                            state := if i == c then ZOMBIE else if woken then RUNNABLE else p.state)
  {
    hide FirstZombie;
    var t1 := Wake(t, ProcChan(t[c].parent));
    var z := FirstZombie(t1, c, 0);
    assert z < NPROC ==> ZombieOf(t[z], c);
    forall k | 0 <= k < NPROC && ZombieOf(t[k], c)
      ensures ZombieOf(t1[k], c)
    {
    }
  }
}
