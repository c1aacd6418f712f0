/** The loops over the process table, in place, each proved to do one step of the protocol. */
module Proc {
  import opened ProcTable

  class Ptable {
    var t: Table
    var nextpid: nat
    ghost var reaped: seq<nat>

    ghost function View(): (s: State)
      reads this
    {
      State(t, nextpid, reaped)
    }

    method Wakeup1(chan: Chan)
      modifies `t
      ensures t == Wake(old(t), chan)
      ensures forall k :: 0 <= k < NPROC ==>
        var p := old(t)[k]; t[k] == if p.state == SLEEPING && p.chan == chan then p.(state := RUNNABLE) else p
    {
      var i := 0;
      while i < NPROC
        invariant 0 <= i <= NPROC
        invariant forall k :: 0 <= k < NPROC ==> t[k] == if k < i then WakeProc(old(t)[k], chan) else old(t)[k]
      {
        if t[i].state == SLEEPING && t[i].chan == chan {
          t := t[i := t[i].(state := RUNNABLE)];
        }
        i := i + 1;
      }
    }

    /** The entry that fork gets, or NPROC. */
    method Allocproc(c: nat) returns (i: nat)
      requires Enabled(View(), Alloc(c))
      modifies this
      ensures View() == Step(old(View()), Alloc(c))
      ensures i <= NPROC && forall k :: 0 <= k < i ==> old(t)[k].state != UNUSED
      ensures i == NPROC ==> View() == old(View())
      ensures i < NPROC ==>
        && old(t)[i].state == UNUSED && t[i].state == EMBRYO && t[i].pid == old(nextpid) && nextpid == old(nextpid) + 1
        && t[c].pc == Fork(i) && forall k :: 0 <= k < NPROC && k != i && k != c ==> t[k] == old(t)[k]
    {
      hide FirstUnused;
      i := 0;
      while i < NPROC
        invariant 0 <= i <= NPROC && forall k :: 0 <= k < i ==> t[k].state != UNUSED
      {
        if t[i].state == UNUSED {
          UnusedAt(t, i);
          t := t[i := t[i].(state := EMBRYO, pid := nextpid)];
          nextpid := nextpid + 1;
          t := t[c := t[c].(pc := Fork(i))];
          return;
        }
        i := i + 1;
      }
      UnusedAt(t, NPROC);
    }

    /** Give the children of `c` to init, waking it for each zombie. */
    method Abandon(c: nat)
      requires c < NPROC
      modifies `t
      ensures t
        == if FirstZombie(old(t), c, 0) < NPROC then Wake(Adopt(old(t), c), ProcChan(INIT)) else Adopt(old(t), c)
    {
      hide FirstZombie;
      ghost var woke := false;
      var i := 0;
      while i < NPROC
        invariant 0 <= i <= NPROC
        invariant forall k :: 0 <= k < NPROC ==> t[k] == Halfway(old(t)[k], c, k < i, woke)
        invariant if woke then FirstZombie(old(t), c, 0) < NPROC else forall k :: 0 <= k < i ==> !ZombieOf(old(t)[k], c)
      {
        if t[i].parent == c {
          t := t[i := t[i].(parent := INIT)];
          if t[i].state == ZOMBIE {
            assert ZombieOf(old(t)[i], c);
            Wakeup1(ProcChan(INIT));
            woke := true;
          }
        }
        i := i + 1;
      }
    }

    method Exit(c: nat)
      requires Enabled(View(), ProcTable.Exit(c))
      modifies this
      ensures View() == Step(old(View()), ProcTable.Exit(c))
      ensures t[c].state == ZOMBIE
      ensures forall i :: 0 <= i < NPROC ==> t[i].parent == if old(t)[i].parent == c then INIT else old(t)[i].parent
      ensures forall i :: 0 <= i < NPROC && i != c ==>
        t[i].state == if old(t)[i].state == SLEEPING && (old(t)[i].chan == ProcChan(old(t)[c].parent)
                        || (old(t)[i].chan == ProcChan(INIT) && HasZombie(old(t), c)))
                      then RUNNABLE else old(t)[i].state
    {
      hide FirstZombie, Wake, Adopt;
      forall i | 0 <= i < NPROC {
        ExitedIs(t, c, i);
      }
      Wakeup1(ProcChan(t[c].parent));
      Abandon(c);
      t := t[c := t[c].(state := ZOMBIE)];
    }

    /** wait's search: the first zombie child, or NPROC, and then whether there is any child at all. */
    method FindZombie(c: nat) returns (z: nat, havekids: bool)
      requires c < NPROC
      ensures z == FirstZombie(t, c, 0)
      ensures z == NPROC ==> (havekids <==> HasKids(t, c))
    {
      havekids := false;
      z := 0;
      while z < NPROC
        invariant 0 <= z <= NPROC && FirstZombie(t, c, z) == FirstZombie(t, c, 0)
        invariant havekids <==> exists k :: 0 <= k < z && t[k].parent == c
      {
        if t[z].parent == c {
          havekids := true;
          if t[z].state == ZOMBIE {
            return;
          }
        }
        z := z + 1;
      }
    }

    /** One pass over the children, until wait returns or sleeps. */
    method WaitPass(c: nat) returns (r: WaitResult)
      requires c < NPROC && t[c].state == RUNNING
      modifies this
      ensures View() == Scan(old(View()), c) && r == WaitAnswer(old(t), c)
      ensures r.Child? <==> exists z :: 0 <= z < NPROC && ZombieOf(old(t)[z], c)
      ensures r.Child? ==> exists z :: 0 <= z < NPROC && ReapedAt(old(t), t, c, z, r.pid)
      ensures reaped == old(reaped) + if r.Child? then [r.pid] else []
      ensures r.NoChild? <==> !HasZombie(old(t), c) && (!HasKids(old(t), c) || old(t)[c].killed)
      ensures r.Asleep? <==> t[c].state == SLEEPING
      ensures !r.Child? ==> forall k :: 0 <= k < NPROC && k != c ==> t[k] == old(t)[k]
    {
      hide FirstZombie, HasKids;
      var z, havekids := FindZombie(c);
      if z < NPROC {
        r := Child(t[z].pid);
        reaped := reaped + [t[z].pid];
        t := t[z := t[z].(pid := 0, parent := NOBODY, killed := false, state := UNUSED)];
        t := t[c := t[c].(pc := Idle)];
        assert ReapedAt(old(t), t, c, z, r.pid);
        return;
      }
      if !havekids || t[c].killed {
        t := t[c := t[c].(pc := Idle)];
        return NoChild;
      }
      t := t[c := t[c].(chan := ProcChan(c), state := SLEEPING, pc := Wait)];
      r := Asleep;
    }

    method Kill(pid: nat) returns (found: bool)
      modifies this
      ensures View() == Step(old(View()), ProcTable.Kill(pid))
      ensures found <==> exists i :: 0 <= i < NPROC && old(t)[i].pid == pid
      ensures !found ==> View() == old(View())
      ensures found ==> exists i :: 0 <= i < NPROC && old(t)[i].pid == pid && KilledAt(old(t), t, i)
    {
      hide FirstPid;
      var i := 0;
      while i < NPROC
        invariant 0 <= i <= NPROC && View() == old(View()) && forall k :: 0 <= k < i ==> t[k].pid != pid
      {
        if t[i].pid == pid {
          PidAt(t, pid, i);
          t := t[i := t[i].(killed := true)];
          if t[i].state == SLEEPING {
            t := t[i := t[i].(state := RUNNABLE)];
          }
          assert KilledAt(old(t), t, i);
          return true;
        }
        i := i + 1;
      }
      PidAt(t, pid, NPROC);
      return false;
    }
  }

  lemma PidAt(t: Table, pid: nat, i: nat)
    requires i <= NPROC && (forall k :: 0 <= k < i ==> t[k].pid != pid) && (i < NPROC ==> t[i].pid == pid)
    ensures FirstPid(t, pid, 0) == i
  {
  }

  lemma UnusedAt(t: Table, i: nat)
    requires i <= NPROC && (forall k :: 0 <= k < i ==> t[k].state != UNUSED) && (i < NPROC ==> t[i].state == UNUSED)
    ensures FirstUnused(t, 0) == i
  {
  }

  /** The zombie in entry `z`, a child of `c`, is gone, and no other process is affected. */
  predicate ReapedAt(t: Table, t': Table, c: nat, z: nat, pid: nat) {
    && z < NPROC && ZombieOf(t[z], c) && t[z].pid == pid && z != c && t'[z].state == UNUSED && t'[z].parent == NOBODY
    && forall k :: 0 <= k < NPROC && k != z && k != c ==> t'[k] == t[k]
  }

  /** The process in entry `i` is marked, and does not sleep. */
  predicate KilledAt(t: Table, t': Table, i: nat) {
    && i < NPROC && t'[i].killed && t'[i].state == (if t[i].state == SLEEPING then RUNNABLE else t[i].state)
    && t' == t[i := t'[i]]
  }

  /** An entry during exit's loop: adopted if passed, and woken if init has been. */
  function Halfway(p: ProcTable.Proc, c: int, passed: bool, woke: bool): (r: ProcTable.Proc) {
    var q := if passed && p.parent == c then p.(parent := INIT) else p;
    if woke then WakeProc(q, ProcChan(INIT)) else q
  }
}
