/** The on-disk redo log: its header, the exact block writes of a commit and of a recovery, and what survives when
    either is cut short after any number of those writes. */
module Redo {
  import opened Basics
  import opened Blocks

  /** Where the log lies: a header block at `start`, then `size - 1` data blocks. */
  datatype Area = Area(start: nat, size: nat)

  predicate IsHome(g: Area, x: nat) {
    !(g.start <= x < g.start + g.size)
  }

  // ---- the header block ----

  function PutEntries(b: Block, lh: seq<Word>): (r: Block)
    requires |lh| <= LOGSIZE
  {
    if lh == [] then b
    else PutWord(PutEntries(b, lh[..|lh| - 1]), |lh|, lh[|lh| - 1])
  }

  /** The header block that lists `lh`; words past the list keep whatever the block held. */
  function PutHeader(b: Block, lh: seq<Word>): (r: Block)
    requires |lh| <= LOGSIZE
  {
    PutEntries(PutWord(b, 0, |lh|), lh)
  }

  predicate HeaderOk(b: Block) {
    GetWord(b, 0) <= LOGSIZE
  }

  function HeaderOf(b: Block): (lh: seq<Word>)
    requires HeaderOk(b)
    ensures |lh| == GetWord(b, 0)
  {
    seq(GetWord(b, 0), i requires 0 <= i < GetWord(b, 0) => GetWord(b, i + 1))
  }

  lemma {:induction false} PutEntriesWords(b: Block, lh: seq<Word>, j: nat)
    requires |lh| <= LOGSIZE && j < WORDS
    ensures GetWord(PutEntries(b, lh), j) == if 1 <= j <= |lh| then lh[j - 1] else GetWord(b, j)
    decreases |lh|
  {
    if lh != [] {
      var n := |lh| - 1;
      PutEntriesWords(b, lh[..n], j);
      PutWordGet(PutEntries(b, lh[..n]), |lh|, lh[n]);
    }
  }

  lemma HeaderRoundTrip(b: Block, lh: seq<Word>)
    requires |lh| <= LOGSIZE
    ensures HeaderOk(PutHeader(b, lh)) && HeaderOf(PutHeader(b, lh)) == lh
  {
    var c := PutWord(b, 0, |lh|);
    PutWordGet(b, 0, |lh|);
    PutEntriesWords(c, lh, 0);
    forall i | 0 <= i < |lh|
      ensures GetWord(PutHeader(b, lh), i + 1) == lh[i]
    {
      PutEntriesWords(c, lh, i + 1);
    }
    assert HeaderOf(PutHeader(b, lh)) == lh;
  }

  // ---- transactions ----

  predicate Distinct(lh: seq<Word>) {
    forall i, j :: 0 <= i < j < |lh| ==> lh[i] != lh[j]
  }

  /** A block list that fits the header and names distinct home blocks of a disk of `size` blocks. */
  predicate ListOk(g: Area, size: nat, lh: seq<Word>) {
    && |lh| <= LOGSIZE && Distinct(lh)
    && forall i :: 0 <= i < |lh| ==> lh[i] < size && IsHome(g, lh[i])
  }

  /** One that also fits the log area. */
  predicate ValidList(g: Area, size: nat, lh: seq<Word>) {
    ListOk(g, size, lh) && |lh| < g.size
  }

  predicate Fits(g: Area, d: Disk) {
    0 < g.size && g.start + g.size <= |d| <= WORD_LIMIT
  }

  /** A disk a kernel can boot from: the log fits and its header lists a valid transaction, perhaps the empty one. */
  predicate Bootable(g: Area, d: Disk) {
    && Fits(g, d)
    && HeaderOk(d[g.start])
    && ValidList(g, |d|, HeaderOf(d[g.start]))
  }

  /** Equal except perhaps in the log. */
  ghost predicate HomeEq(g: Area, d: Disk, e: Disk) {
    |d| == |e| && forall x :: 0 <= x < |d| && IsHome(g, x) ==> d[x] == e[x]
  }

  // ---- the writes, in the order they reach the disk ----

  /** A transaction about to be committed: the listed blocks, their new contents, and the two header blocks its commit
      writes, one listing the blocks and one listing none. */
  datatype Txn = Txn(lh: seq<Word>, data: seq<Block>, full: Block, clear: Block)

  predicate ValidTxn(g: Area, size: nat, t: Txn) {
    && ValidList(g, size, t.lh) && |t.data| == |t.lh|
    && HeaderOk(t.full) && HeaderOf(t.full) == t.lh
    && HeaderOk(t.clear) && HeaderOf(t.clear) == []
  }

  /** The `i`-th write of a commit: blocks to the log, then the header, then blocks home, then the cleared header. */
  function CommitWrite(g: Area, t: Txn, i: nat): (w: Write)
    requires |t.lh| == |t.data| && i < 2 * |t.lh| + 2
  {
    var n := |t.lh|;
    if i < n then Write(g.start + 1 + i, t.data[i])
    else if i == n then Write(g.start, t.full)
    else if i < 2 * n + 1 then Write(t.lh[i - n - 1], t.data[i - n - 1])
    else Write(g.start, t.clear)
  }

  /** All the writes of a commit; an empty transaction makes none. */
  function CommitWrites(g: Area, t: Txn): (ws: seq<Write>)
    requires |t.lh| == |t.data|
    ensures |ws| == if t.lh == [] then 0 else 2 * |t.lh| + 2
  {
    if t.lh == [] then []
    else seq(2 * |t.lh| + 2, i requires 0 <= i < 2 * |t.lh| + 2 => CommitWrite(g, t, i))
  }

  function LogData(g: Area, d: Disk, n: nat): (data: seq<Block>)
    requires Fits(g, d) && n < g.size
    ensures |data| == n
  {
    seq(n, i requires 0 <= i < n => d[g.start + 1 + i])
  }

  /** The log of disk `d` holds the transaction `t`. */
  predicate Holds(g: Area, d: Disk, t: Txn) {
    && Fits(g, d) && ValidTxn(g, |d|, t)
    && d[g.start] == t.full && LogData(g, d, |t.lh|) == t.data
  }

  /** The `i`-th write of a recovery that found `t` in the log: logged blocks home, then the cleared header. */
  function RecoveryWrite(g: Area, t: Txn, i: nat): (w: Write)
    requires |t.lh| == |t.data| && i <= |t.lh|
  {
    if i < |t.lh| then Write(t.lh[i], t.data[i]) else Write(g.start, t.clear)
  }

  function RecoveryWrites(g: Area, t: Txn): (ws: seq<Write>)
    requires |t.lh| == |t.data|
    ensures |ws| == |t.lh| + 1
  {
    seq(|t.lh| + 1, i requires 0 <= i <= |t.lh| => RecoveryWrite(g, t, i))
  }

  // ---- what a disk stands for ----

  /** `e` is `d` with the contents `data` put in the blocks `lh`, as far as home blocks go. */
  ghost predicate InstalledOn(g: Area, d: Disk, lh: seq<Word>, data: seq<Block>, e: Disk)
    requires |lh| == |data|
  {
    && |e| == |d|
    && (forall i :: 0 <= i < |lh| && lh[i] < |d| ==> e[lh[i]] == data[i])
    && (forall x :: 0 <= x < |d| && IsHome(g, x) && x !in lh ==> e[x] == d[x])
  }

  /** The disk `d` stands for the home blocks of `home`: those it has once the transaction in its log is installed. */
  ghost predicate StandsFor(g: Area, d: Disk, home: Disk) {
    exists t :: Holds(g, d, t) && InstalledOn(g, d, t.lh, t.data, home)
  }

  lemma SameInstall(g: Area, d: Disk, lh: seq<Word>, data: seq<Block>, e: Disk, f: Disk)
    requires |lh| == |data| && InstalledOn(g, d, lh, data, e) && InstalledOn(g, d, lh, data, f)
    ensures HomeEq(g, e, f)
  {
    forall x | 0 <= x < |d| && IsHome(g, x)
      ensures e[x] == f[x]
    {
      if x in lh {
        var i :| 0 <= i < |lh| && lh[i] == x;
      }
    }
  }

  /** What a disk stands for is unique. */
  lemma StandsForUnique(g: Area, d: Disk, e: Disk, f: Disk)
    requires StandsFor(g, d, e) && StandsFor(g, d, f)
    ensures HomeEq(g, e, f)
  {
    var t :| Holds(g, d, t) && InstalledOn(g, d, t.lh, t.data, e);
    var u :| Holds(g, d, u) && InstalledOn(g, d, u.lh, u.data, f);
    SameInstall(g, d, t.lh, t.data, e, f);
  }

  lemma StandsForHomeEq(g: Area, d: Disk, e: Disk, f: Disk)
    requires StandsFor(g, d, e) && HomeEq(g, e, f)
    ensures StandsFor(g, d, f)
  {
    var t :| Holds(g, d, t) && InstalledOn(g, d, t.lh, t.data, e);
    assert InstalledOn(g, d, t.lh, t.data, f);
  }

  /** The transaction in the log of a bootable disk. */
  function Logged(g: Area, d: Disk): (t: Txn)
    requires Bootable(g, d)
  {
    var lh := HeaderOf(d[g.start]);
    Txn(lh, LogData(g, d, |lh|), d[g.start], PutHeader(d[g.start], []))
  }

  lemma LoggedHolds(g: Area, d: Disk)
    requires Bootable(g, d)
    ensures Holds(g, d, Logged(g, d))
  {
    HeaderRoundTrip(d[g.start], []);
  }

  predicate ClearLog(g: Area, d: Disk) {
    Bootable(g, d) && HeaderOf(d[g.start]) == []
  }

  /** With a clear log, a disk stands for its own home blocks and for nothing else. */
  lemma ClearStandsFor(g: Area, d: Disk, home: Disk)
    requires ClearLog(g, d)
    ensures StandsFor(g, d, home) <==> HomeEq(g, d, home)
  {
    var t := Txn([], [], d[g.start], d[g.start]);
    assert LogData(g, d, 0) == [];
    assert Holds(g, d, t);
    if StandsFor(g, d, home) {
      var u :| Holds(g, d, u) && InstalledOn(g, d, u.lh, u.data, home);
    } else if HomeEq(g, d, home) {
      assert InstalledOn(g, d, t.lh, t.data, home);
    }
  }

  // ---- recovery ----

  lemma RecoveryInRange(g: Area, d: Disk, t: Txn)
    requires Fits(g, d) && ValidTxn(g, |d|, t)
    ensures InRange(RecoveryWrites(g, t), |d|)
    ensures forall j :: 0 <= j < |RecoveryWrites(g, t)| ==> RecoveryWrites(g, t)[j] == RecoveryWrite(g, t, j)
  {
  }

  /** A listed block after a recovery got past it. */
  lemma RecoveryNewAt(g: Area, d: Disk, t: Txn, k: nat, i: nat)
    requires Fits(g, d) && ValidTxn(g, |d|, t) && i < k <= |t.lh| + 1 && i < |t.lh|
    ensures InRange(RecoveryWrites(g, t), |d|)
    ensures Play(d, RecoveryWrites(g, t), k)[t.lh[i]] == t.data[i]
  {
    RecoveryInRange(g, d, t);
    PlayWritten(d, RecoveryWrites(g, t), k, i);
  }

  /** A block that is not listed is untouched until the header is cleared. */
  lemma RecoveryOldAt(g: Area, d: Disk, t: Txn, k: nat, x: nat)
    requires Fits(g, d) && ValidTxn(g, |d|, t) && k <= |t.lh| + 1 && x < |d| && x !in t.lh
    requires k <= |t.lh| || x != g.start
    ensures InRange(RecoveryWrites(g, t), |d|)
    ensures Play(d, RecoveryWrites(g, t), k)[x] == d[x]
  {
    RecoveryInRange(g, d, t);
    PlayUntouched(d, RecoveryWrites(g, t), k, x);
  }

  lemma RecoveryClears(g: Area, d: Disk, t: Txn)
    requires Fits(g, d) && ValidTxn(g, |d|, t)
    ensures InRange(RecoveryWrites(g, t), |d|)
    ensures Play(d, RecoveryWrites(g, t), |t.lh| + 1)[g.start] == t.clear
  {
    RecoveryInRange(g, d, t);
    PlayWritten(d, RecoveryWrites(g, t), |t.lh| + 1, |t.lh|);
  }

  lemma RecoveryInstalls(g: Area, d: Disk, t: Txn, e: Disk)
    requires Fits(g, d) && ValidTxn(g, |d|, t) && InRange(RecoveryWrites(g, t), |d|)
    requires e == Play(d, RecoveryWrites(g, t), |t.lh| + 1)
    ensures InstalledOn(g, d, t.lh, t.data, e)
  {
    forall i | 0 <= i < |t.lh|
      ensures e[t.lh[i]] == t.data[i]
    {
      RecoveryNewAt(g, d, t, |t.lh| + 1, i);
    }
    forall x | 0 <= x < |d| && IsHome(g, x) && x !in t.lh
      ensures e[x] == d[x]
    {
      RecoveryOldAt(g, d, t, |t.lh| + 1, x);
    }
  }

  /** A completed recovery installs the transaction and clears the header. */
  lemma RecoveryDone(g: Area, d: Disk, t: Txn)
    requires Fits(g, d) && ValidTxn(g, |d|, t)
    ensures InRange(RecoveryWrites(g, t), |d|)
    ensures var e := Play(d, RecoveryWrites(g, t), |t.lh| + 1);
      ClearLog(g, e) && InstalledOn(g, d, t.lh, t.data, e)
  {
    RecoveryClears(g, d, t);
    RecoveryInstalls(g, d, t, Play(d, RecoveryWrites(g, t), |t.lh| + 1));
  }

  /** Crash during recovery: after any prefix of its writes, the disk stands for the same home blocks. */
  lemma RecoveryPrefix(g: Area, d: Disk, t: Txn, k: nat, home: Disk)
    requires Holds(g, d, t) && InstalledOn(g, d, t.lh, t.data, home) && k <= |t.lh| + 1
    ensures InRange(RecoveryWrites(g, t), |d|)
    ensures StandsFor(g, Play(d, RecoveryWrites(g, t), k), home)
  {
    RecoveryClears(g, d, t);
    var e := Play(d, RecoveryWrites(g, t), k);
    if k > |t.lh| {
      RecoveryDone(g, d, t);
      SameInstall(g, d, t.lh, t.data, e, home);
      ClearStandsFor(g, e, home);
    } else {
      forall x | 0 <= x < |d| && x !in t.lh
        ensures e[x] == d[x]
      {
        RecoveryOldAt(g, d, t, k, x);
      }
      SameLog(g, d, e, t);
      assert InstalledOn(g, e, t.lh, t.data, home);
    }
  }

  lemma SameLog(g: Area, d: Disk, e: Disk, t: Txn)
    requires Holds(g, d, t) && |e| == |d|
    requires forall x :: 0 <= x < |d| && x !in t.lh ==> e[x] == d[x]
    ensures Holds(g, e, t)
  {
    forall x | g.start <= x < g.start + g.size
      ensures x !in t.lh && e[x] == d[x]
    {
      assert !IsHome(g, x);
    }
    assert LogData(g, e, |t.lh|) == LogData(g, d, |t.lh|);
  }

  // ---- commit ----

  predicate CommitReady(g: Area, d: Disk, t: Txn) {
    ClearLog(g, d) && ValidTxn(g, |d|, t)
  }

  lemma CommitInRange(g: Area, d: Disk, t: Txn)
    requires CommitReady(g, d, t)
    ensures InRange(CommitWrites(g, t), |d|)
    ensures forall j :: 0 <= j < |CommitWrites(g, t)| ==> CommitWrites(g, t)[j] == CommitWrite(g, t, j)
  {
  }

  /** The header block after `k` writes of a commit. */
  lemma CommitHeaderAt(g: Area, d: Disk, t: Txn, k: nat)
    requires CommitReady(g, d, t) && k <= |CommitWrites(g, t)|
    ensures InRange(CommitWrites(g, t), |d|)
    ensures Play(d, CommitWrites(g, t), k)[g.start]
      == if k <= |t.lh| then d[g.start] else if k <= 2 * |t.lh| + 1 then t.full else t.clear
  {
    CommitInRange(g, d, t);
    if k <= |t.lh| {
      PlayUntouched(d, CommitWrites(g, t), k, g.start);
    } else {
      PlayWritten(d, CommitWrites(g, t), k, if k <= 2 * |t.lh| + 1 then |t.lh| else k - 1);
    }
  }

  lemma CommitLoggedAt(g: Area, d: Disk, t: Txn, k: nat, i: nat)
    requires CommitReady(g, d, t) && |t.lh| < k <= |CommitWrites(g, t)| && i < |t.lh|
    ensures InRange(CommitWrites(g, t), |d|)
    ensures Play(d, CommitWrites(g, t), k)[g.start + 1 + i] == t.data[i]
  {
    CommitInRange(g, d, t);
    PlayWritten(d, CommitWrites(g, t), k, i);
  }

  /** The logged blocks stay put from the header write on. */
  lemma CommitLogAt(g: Area, d: Disk, t: Txn, k: nat)
    requires CommitReady(g, d, t) && |t.lh| < k <= |CommitWrites(g, t)|
    ensures InRange(CommitWrites(g, t), |d|)
    ensures LogData(g, Play(d, CommitWrites(g, t), k), |t.lh|) == t.data
  {
    CommitHeaderAt(g, d, t, k);
    var data := LogData(g, Play(d, CommitWrites(g, t), k), |t.lh|);
    forall i | 0 <= i < |t.lh|
      ensures data[i] == t.data[i]
    {
      CommitLoggedAt(g, d, t, k, i);
    }
  }

  /** A home block outside the list, or before the installs, is old. */
  lemma CommitOldAt(g: Area, d: Disk, t: Txn, k: nat, x: nat)
    requires CommitReady(g, d, t) && k <= |CommitWrites(g, t)| && x < |d| && IsHome(g, x)
    requires x !in t.lh || k <= |t.lh|
    ensures InRange(CommitWrites(g, t), |d|)
    ensures Play(d, CommitWrites(g, t), k)[x] == d[x]
  {
    CommitInRange(g, d, t);
    PlayUntouched(d, CommitWrites(g, t), k, x);
  }

  /** An installed block is new. */
  lemma CommitNewAt(g: Area, d: Disk, t: Txn, k: nat, i: nat)
    requires CommitReady(g, d, t) && k <= |CommitWrites(g, t)| && i < |t.lh| && |t.lh| + 1 + i < k
    ensures InRange(CommitWrites(g, t), |d|)
    ensures Play(d, CommitWrites(g, t), k)[t.lh[i]] == t.data[i]
  {
    CommitInRange(g, d, t);
    PlayWritten(d, CommitWrites(g, t), k, |t.lh| + 1 + i);
  }

  /** A completed commit: header clear again, transaction installed. */
  lemma CommitDone(g: Area, d: Disk, t: Txn)
    requires CommitReady(g, d, t)
    ensures InRange(CommitWrites(g, t), |d|)
    ensures var e := Play(d, CommitWrites(g, t), |CommitWrites(g, t)|);
      ClearLog(g, e) && InstalledOn(g, d, t.lh, t.data, e)
  {
    var k := |CommitWrites(g, t)|;
    CommitHeaderAt(g, d, t, k);
    forall x | 0 <= x < |d| && IsHome(g, x) && x !in t.lh
      ensures Play(d, CommitWrites(g, t), k)[x] == d[x]
    {
      CommitOldAt(g, d, t, k, x);
    }
    forall i | 0 <= i < |t.lh|
      ensures Play(d, CommitWrites(g, t), k)[t.lh[i]] == t.data[i]
    {
      CommitNewAt(g, d, t, k, i);
    }
  }

  /** Crash before the header write: the disk stands for what it stood for without the transaction. */
  lemma CommitEarly(g: Area, d: Disk, t: Txn, k: nat)
    requires CommitReady(g, d, t) && k <= |t.lh|
    ensures k <= |CommitWrites(g, t)| && InRange(CommitWrites(g, t), |d|)
    ensures StandsFor(g, Play(d, CommitWrites(g, t), k), d)
  {
    CommitHeaderAt(g, d, t, k);
    forall x | 0 <= x < |d| && IsHome(g, x)
      ensures Play(d, CommitWrites(g, t), k)[x] == d[x]
    {
      CommitOldAt(g, d, t, k, x);
    }
    ClearStandsFor(g, Play(d, CommitWrites(g, t), k), d);
  }

  /** Crash after the header write: the disk stands for the whole transaction. */
  lemma CommitLate(g: Area, d: Disk, t: Txn, k: nat, home: Disk)
    requires CommitReady(g, d, t) && |t.lh| < k <= |CommitWrites(g, t)|
    requires InstalledOn(g, d, t.lh, t.data, home)
    ensures InRange(CommitWrites(g, t), |d|)
    ensures StandsFor(g, Play(d, CommitWrites(g, t), k), home)
  {
    CommitHeaderAt(g, d, t, k);
    var e := Play(d, CommitWrites(g, t), k);
    if k == |CommitWrites(g, t)| {
      CommitDone(g, d, t);
      SameInstall(g, d, t.lh, t.data, e, home);
      ClearStandsFor(g, e, home);
    } else {
      CommitLogAt(g, d, t, k);
      forall x | 0 <= x < |d| && IsHome(g, x) && x !in t.lh
        ensures e[x] == d[x]
      {
        CommitOldAt(g, d, t, k, x);
      }
      assert Holds(g, e, t) && InstalledOn(g, e, t.lh, t.data, home);
    }
  }
}
