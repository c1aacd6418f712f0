/** Pipes. The ring buffer, in place, carries a stream of bytes across the wrap-around of its counters; the sections
    that hold the pipe's lock, as a transition system, let readers and writers sleep only while there is nothing to
    do. */
module Pipe {
  import opened Basics
  import opened Runs

  const PIPESIZE := 512

  /** How a section of pipewrite or piperead ends: by returning, by returning -1, or by going to sleep. */
  datatype Outcome = Returns | Fails | Sleeps

  // ---- the ring ----

  class Ring {
    const data: array<Byte>
    var nread: Word
    var nwrite: Word
    var readopen: bool
    var writeopen: bool
    /** All bytes ever stored, and how many of them have been read. */
    ghost var stored: seq<Byte>
    ghost var taken: nat

    ghost predicate Valid()
      reads this, data
    {
      && data.Length == PIPESIZE && taken <= |stored| <= taken + PIPESIZE
      && nread == Wrap(taken) && nwrite == Wrap(|stored|)
      && forall k :: taken <= k < |stored| ==> data[k % PIPESIZE] == stored[k]
    }

    constructor ()
      ensures Valid() && fresh(data) && View() == Stream([], 0, true, true)
    {
      data := new Byte[PIPESIZE](_ => 0);
      readopen, writeopen := true, true;
      nread, nwrite, stored, taken := 0, 0, [], 0;
    }

    ghost function View(): (p: Stream)
      reads this
    {
      Stream(stored, taken, readopen, writeopen)
    }

    /** The tests for a full and an empty ring, on counters that wrap. */
    lemma Counters()
      requires Valid()
      ensures nwrite == Wrap(nread + PIPESIZE) <==> |stored| == taken + PIPESIZE
      ensures nread == nwrite <==> |stored| == taken
      ensures nwrite % PIPESIZE == |stored| % PIPESIZE && nread % PIPESIZE == taken % PIPESIZE
    {
      WrapSame(taken, |stored|);
      WrapSame(taken + PIPESIZE, |stored|);
      WrapAdd(taken, PIPESIZE);
      WrapIndex(taken);
      WrapIndex(|stored|);
    }

    /** The loop of pipewrite from byte `i` on, until all is stored or the ring is full. */
    method Put(src: seq<Byte>, start: nat) returns (i: nat)
      requires Valid() && start <= |src|
      modifies this, data
      ensures Valid() && taken == old(taken) && readopen == old(readopen) && writeopen == old(writeopen)
      ensures i == start + Min(|src| - start, PIPESIZE - (|old(stored)| - taken))
      ensures stored == old(stored) + src[start..i]
    {
      i := start;
      while i < |src|
        invariant start <= i <= |src| && Valid() && taken == old(taken) && nread == old(nread)
        invariant readopen == old(readopen) && writeopen == old(writeopen)
        invariant stored == old(stored) + src[start..i]
      {
        Counters();
        if nwrite == Wrap(nread + PIPESIZE) {
          return;
        }
        Slots(taken, |stored|);
        data[nwrite % PIPESIZE] := src[i];
        WrapAdd(|stored|, 1);
        nwrite := Wrap(nwrite + 1);
        stored := stored + [src[i]];
        i := i + 1;
      }
    }

    /** The loop of piperead: up to `n` bytes. */
    method Get(n: nat) returns (dst: seq<Byte>)
      requires Valid()
      modifies this`nread, this`taken
      ensures Valid() && taken == old(taken) + Min(n, |stored| - old(taken))
      ensures dst == stored[old(taken)..taken]
    {
      dst := [];
      while |dst| < n
        invariant |dst| <= n && Valid() && old(taken) <= taken && dst == stored[old(taken)..taken]
        decreases n - |dst|
      {
        Counters();
        if nread == nwrite {
          break;
        }
        dst := dst + [data[nread % PIPESIZE]];
        WrapAdd(taken, 1);
        nread := Wrap(nread + 1);
        taken := taken + 1;
      }
    }

    /** pipeclose of one end: whether both are closed now, so that the pipe is to be freed. */
    method Close(writable: bool) returns (unused: bool)
      requires Valid()
      modifies this`readopen, this`writeopen
      ensures Valid() && stored == old(stored) && taken == old(taken)
      ensures writeopen == (old(writeopen) && !writable) && readopen == (old(readopen) && writable)
      ensures unused <==> !readopen && !writeopen
    {
      if writable {
        writeopen := false;
      } else {
        readopen := false;
      }
      unused := !readopen && !writeopen;
    }

    /** pipewrite from taking the lock to giving it up, with bytes `start` on still to store. */
    method WriteSection(src: seq<Byte>, start: nat, killed: bool) returns (i: nat, out: Outcome, wakes: bool)
      requires Valid() && start <= |src|
      modifies this, data
      ensures Valid() && start <= i <= |src|
      ensures WriteSpec(old(View()), src[start..], killed) == (View(), src[i..], out, wakes)
      ensures stored == old(stored) + src[start..i] && taken == old(taken) && (i < |src| ==> View().Full())
      ensures out.Returns? <==> i == |src|
      ensures out.Fails? <==> i < |src| && (!readopen || killed)
    {
      i := Put(src, start);
      assert src[start..][..i - start] == src[start..i] && src[start..][i - start..] == src[i..];
      if i < |src| && (!readopen || killed) {
        return i, Fails, false;
      }
      out, wakes := if i < |src| then Sleeps else Returns, true;
    }

    /** piperead likewise. */
    method ReadSection(n: nat, killed: bool) returns (dst: seq<Byte>, out: Outcome, wakes: bool)
      requires Valid()
      modifies this`nread, this`taken
      ensures Valid() && ReadSpec(old(View()), n, killed) == (View(), dst, out, wakes)
      ensures dst == stored[old(taken)..taken]
      ensures out.Returns? ==> |dst| == Min(n, |stored| - old(taken))
      ensures out.Returns? && n > 0 && dst == [] ==> |stored| == old(taken) && !writeopen
      ensures !out.Returns? <==> |stored| == old(taken) && writeopen
      ensures out.Fails? ==> killed
      ensures out.Sleeps? ==> !killed && dst == []
    {
      dst := [];
      Counters();
      if nread == nwrite && writeopen {
        return [], if killed then Fails else Sleeps, false;
      }
      dst := Get(n);
      out, wakes := Returns, true;
    }
  }

  // ---- a pipe as a stream ----

  /** The bytes stored so far, how many have been read, and which ends are open. */
  datatype Stream = Stream(stored: seq<Byte>, taken: nat, readopen: bool, writeopen: bool)
  {
    predicate Ok() {
      taken <= |stored| <= taken + PIPESIZE
    }
    predicate Full() {
      |stored| == taken + PIPESIZE
    }
    predicate Empty() {
      |stored| == taken
    }
  }

  /** A section of pipewrite with `rest` to store: what is left, how it ends, and whether it wakes the readers. */
  function WriteSpec(p: Stream, rest: seq<Byte>, killed: bool): (r: (Stream, seq<Byte>, Outcome, bool))
    requires p.Ok()
  {
    var k := Min(|rest|, PIPESIZE - (|p.stored| - p.taken));
    var q := p.(stored := p.stored + rest[..k]);
    if k == |rest| then (q, [], Returns, true)
    else if !p.readopen || killed then (q, rest[k..], Fails, false)
    else (q, rest[k..], Sleeps, true)
  }

  /** A section of piperead for up to `n` bytes: the bytes, how it ends, and whether it wakes the writers. */
  function ReadSpec(p: Stream, n: nat, killed: bool): (r: (Stream, seq<Byte>, Outcome, bool))
    requires p.Ok()
  {
    if p.Empty() && p.writeopen then (p, [], if killed then Fails else Sleeps, false)
    else
      var k := Min(n, |p.stored| - p.taken);
      (p.(taken := p.taken + k), p.stored[p.taken..p.taken + k], Returns, true)
  }

  /** A section of pipewrite stores bytes in order, as many as there is room for, and stops short only on a full pipe:
      then it gives up exactly if nobody can read or it was killed, and otherwise sleeps. A write that returns has
      stored all its bytes. */
  lemma WriteMeans(p: Stream, rest: seq<Byte>, killed: bool)
    requires p.Ok()
    ensures var (q, left, out, wakes) := WriteSpec(p, rest, killed);
      && q.Ok() && q.stored + left == p.stored + rest && p.stored <= q.stored
      && q == p.(stored := q.stored) && (left != [] ==> q.Full())
      && (out.Returns? <==> left == []) && (out.Fails? <==> left != [] && (!p.readopen || killed))
      && (wakes <==> !out.Fails?)
  {
  }

  /** A section of piperead takes bytes in order, as many as are asked for and there. A read that returns nothing,
      though asked for something, has met the end of the stream: nothing is left and nobody can write. It stays for
      more exactly if the pipe is empty and somebody can write. */
  lemma ReadMeans(p: Stream, n: nat, killed: bool)
    requires p.Ok()
    ensures var (q, dst, out, wakes) := ReadSpec(p, n, killed);
      && q.Ok() && q == p.(taken := p.taken + |dst|) && q.taken <= |p.stored| && dst == p.stored[p.taken..q.taken]
      && (out.Returns? ==> |dst| == Min(n, |p.stored| - p.taken)) && (!out.Returns? ==> dst == [])
      && (out.Returns? && n > 0 && dst == [] ==> p.Empty() && !p.writeopen)
      && (out.Returns? <==> !p.Empty() || !p.writeopen) && (out.Fails? <==> p.Empty() && p.writeopen && killed)
      && (wakes <==> out.Returns?)
  {
  }

  lemma WrapSame(a: nat, b: nat)
    requires a <= b + PIPESIZE && b <= a + PIPESIZE
    ensures Wrap(a) == Wrap(b) <==> a == b
  {
    assert a == a / WORD_LIMIT * WORD_LIMIT + Wrap(a) && b == b / WORD_LIMIT * WORD_LIMIT + Wrap(b);
  }

  lemma WrapAdd(a: nat, n: nat)
    ensures Wrap(Wrap(a) + n) == Wrap(a + n)
  {
    assert a == a / WORD_LIMIT * WORD_LIMIT + Wrap(a);
    Multiple(a / WORD_LIMIT, Wrap(a) + n);
  }

  lemma {:induction false} Multiple(q: nat, r: nat)
    ensures Wrap(q * WORD_LIMIT + r) == Wrap(r)
  {
    if q > 0 {
      Multiple(q - 1, r);
      assert q * WORD_LIMIT + r == (q - 1) * WORD_LIMIT + r + WORD_LIMIT;
    }
  }

  lemma WrapIndex(a: nat)
    ensures Wrap(a) % PIPESIZE == a % PIPESIZE
  {
    var q := a / WORD_LIMIT;
    assert WORD_LIMIT == 0x80_0000 * PIPESIZE;
    assert a == q * 0x80_0000 * PIPESIZE + Wrap(a);
  }

  /** The slot written next holds none of the bytes still to be read. */
  lemma Slots(taken: nat, n: nat)
    requires taken <= n < taken + PIPESIZE
    ensures forall k :: taken <= k < n ==> k % PIPESIZE != n % PIPESIZE
  {
    forall k | taken <= k < n
      ensures k % PIPESIZE != n % PIPESIZE
    {
      assert k == k / PIPESIZE * PIPESIZE + k % PIPESIZE && n == n / PIPESIZE * PIPESIZE + n % PIPESIZE;
    }
  }

  // ---- readers and writers ----

  /** A process outside the pipe's functions, in pipewrite with `rest` to store, or in piperead for `n` bytes; the
      latter two either asleep or waiting for the lock. */
  datatype Thread = Out | Writer(rest: seq<Byte>, asleep: bool) | Reader(n: nat, asleep: bool)

  /** `got` are the bytes that reads have returned, in the order of the reads. */
  datatype State = State(p: Stream, th: seq<Thread>, got: seq<Byte>)

  datatype Action =
    StartWrite(t: nat, src: seq<Byte>) | StartRead(t: nat, n: nat)
    | RunWrite(t: nat, killed: bool) | RunRead(t: nat, killed: bool)
    | Close(writable: bool) | Kick(t: nat)

  function Awake(th: Thread): (r: Thread) {
    match th
    case Out => Out
    case Writer(rest, _) => Writer(rest, false)
    case Reader(n, _) => Reader(n, false)
  }

  function WakeReaders(th: seq<Thread>): (r: seq<Thread>) {
    seq(|th|, i requires 0 <= i < |th| => if th[i].Reader? then Awake(th[i]) else th[i])
  }

  function WakeWriters(th: seq<Thread>): (r: seq<Thread>) {
    seq(|th|, i requires 0 <= i < |th| => if th[i].Writer? then Awake(th[i]) else th[i])
  }

  predicate Enabled(s: State, a: Action) {
    s.p.Ok() &&
    match a
    case StartWrite(t, _) => t < |s.th| && s.th[t].Out?
    case StartRead(t, _) => t < |s.th| && s.th[t].Out?
    case RunWrite(t, _) => t < |s.th| && s.th[t].Writer? && !s.th[t].asleep
    case RunRead(t, _) => t < |s.th| && s.th[t].Reader? && !s.th[t].asleep
    case Close(_) => true
    case Kick(t) => t < |s.th|
  }

  /** Kick is what kill does to a sleeper: it is made runnable whatever it waits for. */
  function Step(s: State, a: Action): (r: State)
    requires Enabled(s, a)
  {
    match a
    case StartWrite(t, src) => s.(th := s.th[t := Writer(src, false)])
    case StartRead(t, n) => s.(th := s.th[t := Reader(n, false)])
    case RunWrite(t, killed) =>
      var (p, rest, out, wakes) := WriteSpec(s.p, s.th[t].rest, killed);
      var th := if wakes then WakeReaders(s.th) else s.th;
      s.(p := p, th := th[t := if out == Sleeps then Writer(rest, true) else Out])
    case RunRead(t, killed) =>
      var (p, dst, out, wakes) := ReadSpec(s.p, s.th[t].n, killed);
      var th := if wakes then WakeWriters(s.th) else s.th;
      s.(p := p, th := th[t := if out == Sleeps then Reader(s.th[t].n, true) else Out], got := s.got + dst)
    case Close(writable) =>
      if writable then s.(p := s.p.(writeopen := false), th := WakeReaders(s.th))
      else s.(p := s.p.(readopen := false), th := WakeWriters(s.th))
    case Kick(t) => s.(th := s.th[t := Awake(s.th[t])])
  }

  ghost predicate Next(s: State, a: Action, s': State) {
    Enabled(s, a) && s' == Step(s, a)
  }

  /** A new pipe and `n` processes. */
  function Start(n: nat): (s: State) {
    State(Stream([], 0, true, true), seq(n, i => Out), [])
  }

  ghost predicate Run(n: nat, tr: seq<State>, acts: seq<Action>) {
    IsRun(Next, tr, acts) && tr[0] == Start(n)
  }

  // ---- the stream ----

  ghost predicate StreamInv(s: State) {
    s.p.Ok() && s.got == s.p.stored[..s.p.taken]
  }

  lemma StreamKept(s: State, a: Action)
    requires StreamInv(s) && Enabled(s, a)
    ensures StreamInv(Step(s, a))
  {
    if a.RunRead? {
      var q := Step(s, a).p;
      assert q.stored[..q.taken] == s.p.stored[..s.p.taken] + q.stored[s.p.taken..q.taken];
    } else {
      assert Step(s, a).p.stored[..s.p.taken] == s.p.stored[..s.p.taken];
    }
  }

  /** In every interleaving the bytes read are a prefix of the bytes stored, and at most PIPESIZE are in between. */
  lemma ReadsPrefix(n: nat, tr: seq<State>, acts: seq<Action>, k: nat)
    requires Run(n, tr, acts) && k <= |acts|
    ensures tr[k].got <= tr[k].p.stored && |tr[k].got| <= |tr[k].p.stored| <= |tr[k].got| + PIPESIZE
  {
    RunStream(n, tr, acts, k);
  }

  lemma RunStream(n: nat, tr: seq<State>, acts: seq<Action>, k: nat)
    requires Run(n, tr, acts) && k <= |acts|
    ensures StreamInv(tr[k])
  {
    assert Inductive(Next, StreamInv) by {
      forall s: State, a: Action, s': State | StreamInv(s) && Next(s, a, s')
        ensures StreamInv(s')
      {
        StreamKept(s, a);
      }
    }
    Invariant(Next, StreamInv, tr, acts, k);
  }

  /** In every run, a read that is done, other than by being killed on an empty pipe, gets the next bytes of the
      stream, as many as it asked for and there are. If it asked for some and gets none, the write end is closed and
      everything ever stored has been read. A read goes to sleep only if it has everything and somebody can write. */
  lemma Delivered(n: nat, tr: seq<State>, acts: seq<Action>, k: nat)
    requires Run(n, tr, acts) && k < |acts| && acts[k].RunRead?
    ensures Enabled(tr[k], acts[k])
    ensures var (s, s', t) := (tr[k], tr[k + 1], acts[k].t);
      var waits := s.got == s.p.stored && s.p.writeopen;
      && t < |s'.th| && s'.p.stored == s.p.stored && s.got <= s'.got <= s.p.stored
      && (!waits ==> s'.th[t].Out? && |s'.got| == |s.got| + Min(s.th[t].n, |s.p.stored| - |s.got|))
      && (!waits && s.th[t].n > 0 && s'.got == s.got ==> !s.p.writeopen && s.got == s.p.stored)
      && (waits ==> s'.got == s.got && (s'.th[t].Out? <==> acts[k].killed))
  {
    RunStream(n, tr, acts, k);
    RunStream(n, tr, acts, k + 1);
    assert Next(tr[k], acts[k], tr[k + 1]);
    ReadMeans(tr[k].p, tr[k].th[acts[k].t].n, acts[k].killed);
  }

  /** The bytes that thread `t` has stored in the steps from `j` to `k`. */
  ghost function StoredBy(tr: seq<State>, acts: seq<Action>, t: nat, j: nat, k: nat): (r: seq<Byte>)
    requires j <= k <= |acts| && |tr| == |acts| + 1
    decreases k
  {
    if j == k then []
    else
      StoredBy(tr, acts, t, j, k - 1)
      + if acts[k - 1].RunWrite? && acts[k - 1].t == t && |tr[k - 1].p.stored| <= |tr[k].p.stored|
        then tr[k].p.stored[|tr[k - 1].p.stored|..] else []
  }

  /** A write under way has stored a first part of its bytes, in order, and has the rest to store. */
  lemma {:induction false} WriteProgress(n: nat, tr: seq<State>, acts: seq<Action>, j: nat, k: nat)
    requires Run(n, tr, acts) && j < k <= |acts| && acts[j].StartWrite?
    requires forall i :: j < i <= k ==> acts[j].t < |tr[i].th| && tr[i].th[acts[j].t].Writer?
    ensures acts[j].t < |tr[k].th| && tr[k].th[acts[j].t].Writer?
    ensures StoredBy(tr, acts, acts[j].t, j + 1, k) + tr[k].th[acts[j].t].rest == acts[j].src
    decreases k
  {
    assert Next(tr[k - 1], acts[k - 1], tr[k]);
    if k > j + 1 {
      WriteProgress(n, tr, acts, j, k - 1);
      WriteStep(n, tr, acts, acts[j].t, k - 1);
    }
  }

  lemma WriteStep(n: nat, tr: seq<State>, acts: seq<Action>, t: nat, k: nat)
    requires Run(n, tr, acts) && k < |acts| && t < |tr[k].th| && tr[k].th[t].Writer?
    ensures Next(tr[k], acts[k], tr[k + 1]) && t < |tr[k + 1].th|
    ensures var (s, s') := (tr[k], tr[k + 1]);
      && |s.p.stored| <= |s'.p.stored|
      && (acts[k].RunWrite? && acts[k].t == t ==>
            s'.p.stored[|s.p.stored|..] + (if s'.th[t].Writer? then s'.th[t].rest else []) <= s.th[t].rest)
      && (acts[k].RunWrite? && acts[k].t == t && s'.th[t].Writer? ==>
            s'.p.stored[|s.p.stored|..] + s'.th[t].rest == s.th[t].rest)
      && (!(acts[k].RunWrite? && acts[k].t == t) ==> s'.th[t].Writer? && s'.th[t].rest == s.th[t].rest)
  {
    assert Next(tr[k], acts[k], tr[k + 1]);
    if acts[k].RunWrite? {
      WriteMeans(tr[k].p, tr[k].th[acts[k].t].rest, acts[k].killed);
    }
  }

  /** In every run, a write that is done has stored all its bytes, in order; or it has filled the pipe, stored a first
      part of them, and was killed or nobody can read. */
  lemma WriteWhole(n: nat, tr: seq<State>, acts: seq<Action>, j: nat, k: nat)
    requires Run(n, tr, acts) && j < k < |acts| && acts[j].StartWrite?
    requires forall i :: j < i <= k ==> acts[j].t < |tr[i].th| && tr[i].th[acts[j].t].Writer?
    requires acts[j].t < |tr[k + 1].th| && tr[k + 1].th[acts[j].t].Out?
    ensures acts[k].RunWrite? && acts[k].t == acts[j].t
    ensures var all := StoredBy(tr, acts, acts[j].t, j + 1, k + 1);
      all == acts[j].src || (all < acts[j].src && tr[k + 1].p.Full() && (acts[k].killed || !tr[k].p.readopen))
  {
    var t := acts[j].t;
    WriteProgress(n, tr, acts, j, k);
    WriteStep(n, tr, acts, t, k);
    WriteMeans(tr[k].p, tr[k].th[t].rest, acts[k].killed);
  }

  /** Closing an end closes that end only, loses nothing, and leaves nobody asleep at the other. */
  lemma CloseMeans(s: State, writable: bool)
    requires s.p.Ok()
    ensures var s' := Step(s, Close(writable));
      && s'.got == s.got && s'.p == Stream(s.p.stored, s.p.taken, s.p.readopen && writable, s.p.writeopen && !writable)
      && |s'.th| == |s.th|
      && forall i :: 0 <= i < |s.th| ==>
           s'.th[i] == if (if writable then s.th[i].Reader? else s.th[i].Writer?) then Awake(s.th[i]) else s.th[i]
  {
  }

  // ---- wake-ups ----

  ghost predicate WritersInv(s: State) {
    forall i :: 0 <= i < |s.th| && s.th[i].Writer? && s.th[i].asleep ==> s.p.Full() && s.p.readopen
  }

  ghost predicate ReadersInv(s: State) {
    forall i :: 0 <= i < |s.th| && s.th[i].Reader? && s.th[i].asleep ==> s.p.Empty() && s.p.writeopen
  }

  predicate ReaderAsleep(s: State) {
    exists i :: 0 <= i < |s.th| && s.th[i].Reader? && s.th[i].asleep
  }

  /** A writer gives up on a full pipe, having filled it while a reader sleeps. */
  predicate LeavesReaders(s: State, a: Action) {
    Enabled(s, a) && a.RunWrite? && (a.killed || !s.p.readopen) && |s.th[a.t].rest| > PIPESIZE && ReaderAsleep(s)
  }

  /** Exactly the steps that leave readers behind break the rule for readers; none breaks the rule for writers. */
  lemma WakeupsKept(s: State, a: Action)
    requires WritersInv(s) && ReadersInv(s) && Enabled(s, a)
    ensures WritersInv(Step(s, a))
    ensures ReadersInv(Step(s, a)) <==> !LeavesReaders(s, a)
  {
    var s' := Step(s, a);
    if LeavesReaders(s, a) {
      var i :| 0 <= i < |s.th| && s.th[i].Reader? && s.th[i].asleep;
      assert s'.th[i] == s.th[i] && !s'.p.Empty();
    }
  }

  /** In a run without such a step, writers sleep only on a full pipe that can be read and readers only on an empty
      pipe that can be written; so never both. */
  lemma {:induction false} Wakeups(n: nat, tr: seq<State>, acts: seq<Action>, k: nat)
    requires Run(n, tr, acts) && k <= |acts|
    requires forall i :: 0 <= i < k ==> !LeavesReaders(tr[i], acts[i])
    ensures WritersInv(tr[k]) && ReadersInv(tr[k])
    ensures forall i, j :: 0 <= i < |tr[k].th| && 0 <= j < |tr[k].th| && tr[k].th[i].Writer? && tr[k].th[j].Reader? ==>
      !(tr[k].th[i].asleep && tr[k].th[j].asleep)
  {
    if k > 0 {
      Wakeups(n, tr, acts, k - 1);
      assert Next(tr[k - 1], acts[k - 1], tr[k]);
      WakeupsKept(tr[k - 1], acts[k - 1]);
    }
  }

  /** In every run at all, the rule for writers holds. */
  lemma WriterWakeups(n: nat, tr: seq<State>, acts: seq<Action>, k: nat)
    requires Run(n, tr, acts) && k <= |acts|
    ensures WritersInv(tr[k])
  {
    assert Inductive(Next, WritersInv);
    Invariant(Next, WritersInv, tr, acts, k);
  }

  /** A reader goes to sleep, a writer with more than fits is killed: the reader sleeps on a full pipe. */
  lemma LeftBehind(src: seq<Byte>) returns (tr: seq<State>, acts: seq<Action>)
    requires |src| > PIPESIZE
    ensures Run(2, tr, acts) && tr[|acts|].th == [Reader(1, true), Out] && tr[|acts|].p.Full()
  {
    acts := [StartRead(0, 1), RunRead(0, false), StartWrite(1, src), RunWrite(1, true)];
    var s1 := Step(Start(2), acts[0]);
    var s2 := Step(s1, acts[1]);
    var s3 := Step(s2, acts[2]);
    var s4 := Step(s3, acts[3]);
    tr := [Start(2), s1, s2, s3, s4];
  }
}
