/** Copying blocks between the log and their homes through the buffer cache, one bread, bwrite and brelse at a time,
    while other processes may be reading other blocks; and what sequences of such copies do to the disk. */
module LogCopy {
  import opened Basics
  import opened Blocks
  import opened Redo
  import opened Bio

  /** Some buffer caches block `x` and is dirty. */
  predicate Pinned(buf: seq<Buf>, x: nat) {
    exists i :: 0 <= i < |buf| && Matches(buf[i], 1, x) && buf[i].dirty
  }

  predicate SomeFree(buf: seq<Buf>) {
    exists i :: 0 <= i < |buf| && Evictable(buf[i])
  }

  predicate TwoFree(buf: seq<Buf>) {
    exists i, j :: 0 <= i < j < |buf| && Evictable(buf[i]) && Evictable(buf[j])
  }

  /** The blocks that the log is about to use, and the buffers that other processes are using. */
  datatype Others = Others(own: set<nat>, held: map<nat, Buf>)

  /** Another process reads some other block in the buffer. */
  predicate InUse(b: Buf, h: Buf, own: set<nat>) {
    b == h && b.refcnt > 0 && !b.dirty && !(b.dev == 1 && b.blockno in own)
  }

  /** The log has no buffer in use, and exactly the blocks `pins` are pinned. */
  ghost predicate Rests(buf: seq<Buf>, pins: set<nat>, o: Others) {
    && (forall i :: 0 <= i < |buf| ==> if i in o.held then InUse(buf[i], o.held[i], o.own) else buf[i].refcnt == 0)
    && (forall i :: 0 <= i < |buf| && buf[i].dirty ==> buf[i].dev == 1 && buf[i].blockno in pins)
    && (forall x :: x in pins ==> Pinned(buf, x))
  }

  /** Blocks whose disk contents are stale are among `pins`. */
  ghost predicate StaleIn(disk: seq<Block>, logical: seq<Block>, pins: set<nat>) {
    forall x :: Stale(disk, logical, x) ==> x in pins
  }

  /** A cache at rest in which every block that is not pinned is in step with the disk. */
  ghost predicate Calm(c: Cache, pins: set<nat>, o: Others)
    reads c, c.disk
  {
    c.Valid() && Rests(c.buf, pins, o) && StaleIn(c.disk.blocks, c.logical, pins)
  }

  /** bread by a process that does not have to wait for the buffer. */
  method Bread(c: Cache, x: nat, pid: nat) returns (ok: bool, b: nat)
    requires c.Valid() && pid != 0 && x < |c.disk.blocks|
    requires forall i :: 0 <= i < NBUF && Matches(c.buf[i], 1, x) ==> c.buf[i].holder == 0
    modifies c`buf, c.disk
    ensures c.Valid() && c.disk.blocks == old(c.disk.blocks) && c.disk.history == old(c.disk.history)
    ensures ok == (Cached(old(c.buf), 1, x) || SomeFree(old(c.buf)))
    ensures !ok ==> c.buf == old(c.buf)
    ensures ok ==>
      && b < NBUF && c.buf[b].data == c.logical[x]
      && (if Cached(old(c.buf), 1, x) then Matches(old(c.buf)[b], 1, x) else Evictable(old(c.buf)[b]))
      && c.buf == old(c.buf)[b := Buf(1, x, true, old(c.buf)[b].dirty, old(c.buf)[b].refcnt + 1, pid, c.buf[b].data)]
  {
    ok, b := c.Bget(1, x);
    if ok {
      c.Lock(b, pid);
      ok := c.Fill(b, pid);
    }
  }

  /** A clean block can be read into a resting cache exactly when some buffer is free, and takes a free buffer. */
  lemma FirstRoom(buf: seq<Buf>, pins: set<nat>, o: Others, x: nat)
    requires Rests(buf, pins, o) && x !in pins && x in o.own
    ensures Cached(buf, 1, x) || SomeFree(buf) <==> SomeFree(buf)
    ensures forall i :: 0 <= i < |buf| && Matches(buf[i], 1, x) ==> Evictable(buf[i])
  {
  }

  /** With one block in use, another can be read exactly when it is pinned or a second buffer was free. */
  lemma SecondRoom(buf: seq<Buf>, pins: set<nat>, o: Others, b: nat, c: Buf, y: nat)
    requires Rests(buf, pins, o) && b < |buf| && Evictable(buf[b]) && !Evictable(c) && !Matches(c, 1, y) && y in o.own
    ensures Cached(buf[b := c], 1, y) || SomeFree(buf[b := c]) <==> y in pins || TwoFree(buf)
    ensures forall i :: 0 <= i < |buf| && Matches(buf[b := c][i], 1, y) ==> buf[i].refcnt == 0
  {
    var buf' := buf[b := c];
    if y in pins {
      var i :| 0 <= i < |buf| && Matches(buf[i], 1, y) && buf[i].dirty;
      assert Matches(buf'[i], 1, y);
    } else if TwoFree(buf) {
      var i, j :| 0 <= i < j < |buf| && Evictable(buf[i]) && Evictable(buf[j]);
      var k := if i == b then j else i;
      assert Evictable(buf'[k]);
    }
  }

  /** Which buffer the second block gets. */
  lemma SecondBuffer(buf: seq<Buf>, pins: set<nat>, o: Others, b: nat, c: Buf, b2: nat, y: nat)
    requires Rests(buf, pins, o) && b < |buf| && Evictable(buf[b]) && !Evictable(c) && !Matches(c, 1, y) && y in o.own
    requires Unique(buf[b := c]) && b2 < |buf|
    requires if Cached(buf[b := c], 1, y) then Matches(buf[b := c][b2], 1, y) else Evictable(buf[b := c][b2])
    ensures b2 != b && buf[b2].refcnt == 0 && (buf[b2].dirty <==> y in pins)
    ensures buf[b2].dirty ==> Matches(buf[b2], 1, y)
    ensures forall i :: 0 <= i < |buf| && Matches(buf[i], 1, y) && buf[i].dirty ==> i == b2
  {
    var buf' := buf[b := c];
    forall i | 0 <= i < |buf| && Matches(buf[i], 1, y) && buf[i].dirty
      ensures i == b2
    {
      assert Matches(buf'[i], 1, y);
      UniqueAt(buf', i, b2);
    }
    if y in pins {
      var i :| 0 <= i < |buf| && Matches(buf[i], 1, y) && buf[i].dirty;
    }
  }

  /** After the copy both buffers are given back and the destination is clean. */
  lemma Settles(buf: seq<Buf>, pins: set<nat>, o: Others, b1: nat, c1: Buf, b2: nat, c2: Buf, dst: nat)
    requires Rests(buf, pins, o) && b1 < |buf| && b2 < |buf| && b1 != b2
    requires Evictable(buf[b1]) && buf[b2].refcnt == 0 && (buf[b2].dirty ==> Matches(buf[b2], 1, c2.blockno))
    requires Evictable(c1) && c2.refcnt == 0 && c2.dev == 1 && c1.blockno !in pins
    requires dst == c1.blockno || dst == c2.blockno
    requires c2.dirty <==> c2.blockno in pins - {dst}
    requires forall i :: 0 <= i < |buf| && Matches(buf[i], 1, c2.blockno) && buf[i].dirty ==> i == b2
    ensures Rests(buf[b1 := c1][b2 := c2], pins - {dst}, o) && SomeFree(buf[b1 := c1][b2 := c2])
    ensures !c2.dirty ==> TwoFree(buf[b1 := c1][b2 := c2])
  {
    var buf' := buf[b1 := c1][b2 := c2];
    assert buf'[b1] == c1 && buf'[b2] == c2;
    forall x | x in pins - {dst}
      ensures Pinned(buf', x)
    {
      var i :| 0 <= i < |buf| && Matches(buf[i], 1, x) && buf[i].dirty;
      assert Matches(buf'[i], 1, x) && buf'[i].dirty;
    }
    if !c2.dirty {
      assert Evictable(buf'[if b1 < b2 then b1 else b2]) && Evictable(buf'[if b1 < b2 then b2 else b1]);
    }
  }

  /** Nobody holds the buffer of a block that the log uses. */
  lemma NotHeld(c: Cache, pins: set<nat>, o: Others, x: nat)
    requires c.Valid() && Rests(c.buf, pins, o) && x in o.own
    ensures forall i :: 0 <= i < NBUF && Matches(c.buf[i], 1, x) ==> c.buf[i].holder == 0
  {
  }

  /** bread two blocks, the first of them not pinned. */
  method BreadPair(c: Cache, x: nat, y: nat, pid: nat, ghost pins: set<nat>, ghost o: Others)
    returns (ok: bool, b1: nat, b2: nat)
    requires c.Valid() && Rests(c.buf, pins, o) && pid != 0 && x in o.own && y in o.own
    requires x != y && x < |c.disk.blocks| && y < |c.disk.blocks| && x !in pins
    modifies c`buf, c.disk
    ensures c.Valid() && c.disk.blocks == old(c.disk.blocks) && c.disk.history == old(c.disk.history)
    ensures ok == (if y in pins then SomeFree(old(c.buf)) else TwoFree(old(c.buf)))
    ensures ok ==>
      && b1 < NBUF && b2 < NBUF && b1 != b2
      && Evictable(old(c.buf)[b1]) && old(c.buf)[b2].refcnt == 0 && (old(c.buf)[b2].dirty <==> y in pins)
      && (old(c.buf)[b2].dirty ==> Matches(old(c.buf)[b2], 1, y))
      && (forall i :: 0 <= i < NBUF && Matches(old(c.buf)[i], 1, y) && old(c.buf)[i].dirty ==> i == b2)
      && c.buf == old(c.buf)[b1 := Buf(1, x, true, false, 1, pid, c.logical[x])]
                            [b2 := Buf(1, y, true, y in pins, 1, pid, c.logical[y])]
  {
    hide Ring, Permutation;
    ghost var buf0 := c.buf;
    b2 := 0;
    FirstRoom(buf0, pins, o, x);
    NotHeld(c, pins, o, x);
    ok, b1 := Bread(c, x, pid);
    if ok {
      ghost var buf1 := c.buf;
      SecondRoom(buf0, pins, o, b1, buf1[b1], y);
      ok, b2 := Bread(c, y, pid);
      if ok {
        SecondBuffer(buf0, pins, o, b1, buf1[b1], b2, y);
      }
    }
  }

  /** Copy one block: bread `first`, bread `second`, copy between them, bwrite the destination, brelse both. */
  method Transfer(c: Cache, first: nat, second: nat, intoFirst: bool, pid: nat, ghost pins: set<nat>, ghost o: Others)
    returns (ok: bool)
    requires Calm(c, pins, o) && pid != 0 && first in o.own && second in o.own
    requires first != second && first < |c.disk.blocks| && second < |c.disk.blocks| && first !in pins
    modifies c, c.disk
    ensures c.Valid() && ok == (if second in pins then SomeFree(old(c.buf)) else TwoFree(old(c.buf)))
    ensures !ok ==> c.disk.blocks == old(c.disk.blocks) && c.disk.history == old(c.disk.history)
    ensures ok ==>
      var (src, dst) := if intoFirst then (second, first) else (first, second);
      && Calm(c, pins - {dst}, o) && SomeFree(c.buf) && (second !in pins || !intoFirst ==> TwoFree(c.buf))
      && c.logical == old(c.logical)[dst := old(c.logical)[src]]
      && c.disk.blocks == old(c.disk.blocks)[dst := old(c.logical)[src]]
      && c.disk.history == old(c.disk.history) + [Write(dst, old(c.logical)[src])]
  {
    hide Ring, Permutation, Rests, SomeFree, TwoFree, Unique;
    ghost var (buf0, blocks0, logical0) := (c.buf, c.disk.blocks, c.logical);
    ghost var dst := if intoFirst then first else second;
    assert !Stale(blocks0, logical0, first) && (second !in pins ==> !Stale(blocks0, logical0, second));
    var b1, b2;
    ok, b1, b2 := BreadPair(c, first, second, pid, pins, o);
    if !ok { return; }
    if intoFirst {
      MoveData(c, b2, b1, pid);
    } else {
      MoveData(c, b1, b2, pid);
    }
    assert c.buf == buf0[b1 := c.buf[b1]][b2 := c.buf[b2]];
    Settles(buf0, pins, o, b1, c.buf[b1], b2, c.buf[b2], dst);
    StaleLess(blocks0, logical0, pins, dst, logical0[if intoFirst then second else first]);
  }

  lemma StaleLess(disk: seq<Block>, logical: seq<Block>, pins: set<nat>, x: nat, data: Block)
    requires StaleIn(disk, logical, pins) && x < |disk| == |logical|
    ensures StaleIn(disk[x := data], logical[x := data], pins - {x})
  {
    forall y | Stale(disk[x := data], logical[x := data], y)
      ensures y in pins - {x}
    {
      assert Stale(disk, logical, y);
    }
  }

  /** memmove, bwrite the destination, brelse both. */
  method MoveData(c: Cache, src: nat, dst: nat, pid: nat)
    requires c.Valid() && pid != 0 && src < NBUF && dst < NBUF && src != dst
    requires c.buf[src].holder == pid && c.buf[src].valid && c.buf[src].refcnt == 1
    requires c.buf[dst].holder == pid && c.buf[dst].valid && c.buf[dst].refcnt == 1
    requires !c.buf[src].dirty ==> c.buf[src].data == c.disk.blocks[c.buf[src].blockno]
    requires c.buf[src].blockno != c.buf[dst].blockno
    modifies c, c.disk
    ensures c.Valid() && var (s, d) := (old(c.buf)[src], old(c.buf)[dst]);
      && c.buf == old(c.buf)[src := s.(holder := 0, refcnt := 0)]
                            [dst := d.(dirty := false, holder := 0, refcnt := 0, data := s.data)]
      && c.logical == old(c.logical)[d.blockno := s.data]
      && c.disk.blocks == old(c.disk.blocks)[d.blockno := s.data]
      && c.disk.history == old(c.disk.history) + [Write(d.blockno, s.data)]
  {
    ghost var (s, d) := (c.buf[src], c.buf[dst]);
    Overwrite(c, dst, c.buf[src].data, pid);
    ReleasePair(c, src, dst, pid);
    UpdateOrder(old(c.buf), src, s.(holder := 0, refcnt := 0), dst, d.(data := s.data, dirty := false), c.buf[dst]);
  }

  method ReleasePair(c: Cache, a: nat, b: nat, pid: nat)
    requires c.Valid() && pid != 0 && a < NBUF && b < NBUF && a != b
    requires c.buf[a].holder == c.buf[b].holder == pid && c.buf[a].refcnt == c.buf[b].refcnt == 1
    requires c.buf[a].valid && (!c.buf[a].dirty ==> c.buf[a].data == c.disk.blocks[c.buf[a].blockno])
    requires c.buf[b].valid && (!c.buf[b].dirty ==> c.buf[b].data == c.disk.blocks[c.buf[b].blockno])
    modifies c`buf, c`next, c`prev, c`order, c`pos
    ensures c.Valid()
    ensures c.buf == old(c.buf)[a := old(c.buf)[a].(holder := 0, refcnt := 0)]
                               [b := old(c.buf)[b].(holder := 0, refcnt := 0)]
  {
    var ok := c.Brelse(a, pid);
    ok := c.Brelse(b, pid);
  }

  lemma UpdateOrder(buf: seq<Buf>, i: nat, x: Buf, j: nat, y: Buf, z: Buf)
    requires i < |buf| && j < |buf| && i != j
    ensures buf[j := y][i := x][j := z] == buf[i := x][j := z]
  {
  }

  /** Store new contents in a held buffer and bwrite it. */
  method Overwrite(c: Cache, b: nat, data: Block, pid: nat)
    requires c.Valid() && pid != 0 && b < NBUF && c.buf[b].holder == pid && c.buf[b].valid
    modifies c`buf, c`logical, c.disk
    ensures c.Valid() && var x := old(c.buf)[b].blockno;
      && x < |old(c.logical)| && c.buf == old(c.buf)[b := old(c.buf)[b].(data := data, dirty := false)]
      && c.logical == old(c.logical)[x := data]
      && c.disk.blocks == old(c.disk.blocks)[x := data]
      && c.disk.history == old(c.disk.history) + [Write(x, data)]
  {
    c.Update(b, pid, data);
    var ok := c.Bwrite(b, pid);
  }

  // ---- the writes of each loop ----

  function LogWrites(g: Area, lh: seq<Word>, blocks: seq<Block>): (ws: seq<Write>)
    requires forall i :: 0 <= i < |lh| ==> lh[i] < |blocks|
    ensures |ws| == |lh|
  {
    seq(|lh|, i requires 0 <= i < |lh| => Write(g.start + 1 + i, blocks[lh[i]]))
  }

  function InstallWrites(g: Area, lh: seq<Word>, blocks: seq<Block>): (ws: seq<Write>)
    requires g.start + |lh| < |blocks|
    ensures |ws| == |lh|
  {
    seq(|lh|, i requires 0 <= i < |lh| => Write(lh[i], blocks[g.start + 1 + i]))
  }

  /** Disk contents, logical contents and write history at one moment. */
  datatype View = View(blocks: seq<Block>, logical: seq<Block>, history: seq<Write>)

  ghost function Seen(c: Cache): (v: View)
    reads c, c.disk
  {
    View(c.disk.blocks, c.logical, c.disk.history)
  }

  /** The writes `ws`, all of them, lead from `v` to `w`. */
  ghost predicate Leads(v: View, ws: seq<Write>, w: View) {
    && InRange(ws, |v.blocks|) && |v.blocks| == |v.logical|
    && w.blocks == Play(v.blocks, ws, |ws|) && w.logical == Play(v.logical, ws, |ws|)
    && w.history == v.history + ws
  }

  lemma LeadsThrough(u: View, a: seq<Write>, v: View, b: seq<Write>, w: View)
    requires Leads(u, a, v) && Leads(v, b, w)
    ensures Leads(u, a + b, w)
  {
    PlayAppend(u.blocks, a, b, |b|);
    PlayAppend(u.logical, a, b, |b|);
  }

  lemma LeadsOne(v: View, x: nat, data: Block)
    requires |v.blocks| == |v.logical| && x < |v.blocks|
    ensures Leads(v, [Write(x, data)], View(v.blocks[x := data], v.logical[x := data], v.history + [Write(x, data)]))
  {
    assert Play(v.blocks, [Write(x, data)], 0) == v.blocks;
    assert Play(v.logical, [Write(x, data)], 0) == v.logical;
  }

  /** The first `k` of the writes `ws` have been made since `v`. */
  ghost predicate Played(c: Cache, v: View, ws: seq<Write>, k: nat)
    reads c, c.disk
  {
    && k <= |ws| && InRange(ws, |v.blocks|) && |v.blocks| == |v.logical|
    && c.disk.blocks == Play(v.blocks, ws, k) && c.logical == Play(v.logical, ws, k)
    && c.disk.history == v.history + ws[..k]
  }

  lemma PlayedNothing(c: Cache, ws: seq<Write>)
    requires InRange(ws, |c.disk.blocks|) && |c.disk.blocks| == |c.logical|
    ensures Played(c, Seen(c), ws, 0)
  {
  }

  lemma PlayedLeads(c: Cache, v: View, ws: seq<Write>)
    requires Played(c, v, ws, |ws|)
    ensures Leads(v, ws, Seen(c))
  {
    assert ws[..|ws|] == ws;
  }

  /** One copy, as the next write of a script that is being played. */
  method CopyNext(c: Cache, first: nat, second: nat, intoFirst: bool, pid: nat, ghost pins: set<nat>,
                  ghost o: Others, ghost v: View, ghost ws: seq<Write>, ghost k: nat)
    returns (ok: bool)
    requires Calm(c, pins, o) && pid != 0 && first in o.own && second in o.own
    requires first != second && first < |c.disk.blocks| && second < |c.disk.blocks| && first !in pins
    requires k < |ws| && Played(c, v, ws, k)
    requires ws[k] == Write(if intoFirst then first else second, c.logical[if intoFirst then second else first])
    modifies c, c.disk
    ensures c.Valid() && ok == (if second in pins then SomeFree(old(c.buf)) else TwoFree(old(c.buf)))
    ensures !ok ==> c.disk.blocks == old(c.disk.blocks) && c.disk.history == old(c.disk.history)
    ensures ok ==>
      && Calm(c, pins - {if intoFirst then first else second}, o) && SomeFree(c.buf)
      && (second !in pins || !intoFirst ==> TwoFree(c.buf))
      && Played(c, v, ws, k + 1) && c.logical == old(c.logical)[ws[k].bno := ws[k].data]
  {
    ok := Transfer(c, first, second, intoFirst, pid, pins, o);
    assert ws[..k + 1] == ws[..k] + [ws[k]];
  }

  /** After one clean block has been read, changed on disk and given back, the cache rests as before. */
  lemma SettlesOne(buf: seq<Buf>, pins: set<nat>, o: Others, b: nat, c: Buf)
    requires Rests(buf, pins, o) && b < |buf| && Evictable(buf[b]) && Evictable(c)
    ensures Rests(buf[b := c], pins, o) && SomeFree(buf[b := c]) && (TwoFree(buf) ==> TwoFree(buf[b := c]))
  {
    var buf' := buf[b := c];
    assert Evictable(buf'[b]);
    if TwoFree(buf) {
      var i, j :| 0 <= i < j < |buf| && Evictable(buf[i]) && Evictable(buf[j]);
      assert Evictable(buf'[i]) && Evictable(buf'[j]);
    }
    forall x | x in pins
      ensures Pinned(buf', x)
    {
      var i :| 0 <= i < |buf| && Matches(buf[i], 1, x) && buf[i].dirty;
      assert Matches(buf'[i], 1, x) && buf'[i].dirty;
    }
  }

  /** Overwrite the one block read into a resting cache and give it back. */
  method Replace(c: Cache, b: nat, x: nat, data: Block, pid: nat, ghost pins: set<nat>, ghost o: Others,
                 ghost buf: seq<Buf>)
    requires c.Valid() && pid != 0 && Rests(buf, pins, o) && |buf| == NBUF && b < NBUF && Evictable(buf[b])
    requires x !in pins && StaleIn(c.disk.blocks, c.logical, pins)
    requires c.buf == buf[b := Buf(1, x, true, false, 1, pid, c.buf[b].data)]
    modifies c, c.disk
    ensures Calm(c, pins, o) && SomeFree(c.buf) && x < |old(c.logical)|
    ensures c.logical == old(c.logical)[x := data] && c.disk.blocks == old(c.disk.blocks)[x := data]
    ensures c.disk.history == old(c.disk.history) + [Write(x, data)]
  {
    ghost var buf1 := c.buf;
    StaleLess(c.disk.blocks, c.logical, pins, x, data);
    assert pins - {x} == pins;
    Overwrite(c, b, data, pid);
    ghost var buf2 := c.buf;
    var ok := c.Brelse(b, pid);
    UpdateTwice(buf, b, buf1[b], buf2[b]);
    UpdateTwice(buf, b, buf2[b], c.buf[b]);
    SettlesOne(buf, pins, o, b, c.buf[b]);
  }

  lemma UpdateTwice(buf: seq<Buf>, b: nat, x: Buf, y: Buf)
    requires b < |buf|
    ensures buf[b := x][b := y] == buf[b := y]
  {
  }

  /** The transaction that a commit of `lh` writes when the blocks have the contents `logical`. */
  function TxnIn(g: Area, lh: seq<Word>, logical: seq<Block>): (t: Txn)
    requires |lh| <= LOGSIZE && g.start < |logical| && forall i :: 0 <= i < |lh| ==> lh[i] < |logical|
  {
    Txn(lh, seq(|lh|, i requires 0 <= i < |lh| => logical[lh[i]]), PutHeader(logical[g.start], lh),
        PutHeader(PutHeader(logical[g.start], lh), []))
  }

  lemma CommitParts(g: Area, t: Txn, l: seq<Block>, m: seq<Block>)
    requires ValidList(g, |l|, t.lh) && |t.data| == |t.lh| > 0 && g.start + |t.lh| < |m|
    requires forall i :: 0 <= i < |t.lh| ==> l[t.lh[i]] == t.data[i]
    requires forall i :: 0 <= i < |t.lh| ==> t.data[i] == m[g.start + 1 + i]
    ensures CommitWrites(g, t)
      == LogWrites(g, t.lh, l) + [Write(g.start, t.full)] + InstallWrites(g, t.lh, m) + [Write(g.start, t.clear)]
  {
  }

  /** The logical contents of the log area after its blocks and header have been written. */
  lemma SealedLog(g: Area, lh: seq<Word>, l: seq<Block>, full: Block, m: seq<Block>)
    requires ValidList(g, |l|, lh) && Fits(g, l) && InRange(LogWrites(g, lh, l), |l|)
    requires m == Play(l, LogWrites(g, lh, l), |lh|)[g.start := full]
    ensures Play(l, LogWrites(g, lh, l), |lh|)[g.start] == l[g.start]
    ensures forall i :: 0 <= i < |lh| ==> l[lh[i]] == m[g.start + 1 + i]
  {
    var ws := LogWrites(g, lh, l);
    PlayUntouched(l, ws, |lh|, g.start);
    forall i | 0 <= i < |lh|
      ensures l[lh[i]] == m[g.start + 1 + i]
    {
      assert ws[i].bno == g.start + 1 + i;
      PlayWritten(l, ws, |lh|, i);
    }
  }

  lemma InstallKeepsHeader(g: Area, lh: seq<Word>, m: seq<Block>)
    requires ValidList(g, |m|, lh) && Fits(g, m)
    ensures InRange(InstallWrites(g, lh, m), |m|)
    ensures Play(m, InstallWrites(g, lh, m), |lh|)[g.start] == m[g.start]
  {
    PlayUntouched(m, InstallWrites(g, lh, m), |lh|, g.start);
  }

  /** The four parts of a commit make up its writes. */
  lemma CommitChain(g: Area, lh: seq<Word>, v0: View, v1: View, v2: View, v3: View, v4: View)
    requires Fits(g, v0.logical) && ValidList(g, |v0.logical|, lh) && lh != []
    requires Leads(v0, LogWrites(g, lh, v0.logical), v1)
    requires Leads(v1, [Write(g.start, PutHeader(v1.logical[g.start], lh))], v2)
    requires Leads(v2, InstallWrites(g, lh, v2.logical), v3)
    requires Leads(v3, [Write(g.start, PutHeader(v3.logical[g.start], []))], v4)
    ensures Leads(v0, CommitWrites(g, TxnIn(g, lh, v0.logical)), v4)
  {
    var t := TxnIn(g, lh, v0.logical);
    var (lw, iw) := (LogWrites(g, lh, v0.logical), InstallWrites(g, lh, v2.logical));
    LeadsLast(v1, g.start, PutHeader(v1.logical[g.start], lh), v2);
    SealedLog(g, lh, v0.logical, PutHeader(v1.logical[g.start], lh), v2.logical);
    InstallKeepsHeader(g, lh, v2.logical);
    CommitParts(g, t, v0.logical, v2.logical);
    LeadsThrough(v0, lw, v1, [Write(g.start, t.full)], v2);
    LeadsThrough(v0, lw + [Write(g.start, t.full)], v2, iw, v3);
    LeadsThrough(v0, lw + [Write(g.start, t.full)] + iw, v3, [Write(g.start, t.clear)], v4);
  }

  lemma LeadsLast(v: View, x: nat, data: Block, w: View)
    requires Leads(v, [Write(x, data)], w) && x < |v.logical|
    ensures w.logical == v.logical[x := data]
  {
    assert Play(v.logical, [Write(x, data)], 0) == v.logical;
  }

  lemma AllInStep(c: Cache, o: Others)
    requires Calm(c, {}, o)
    ensures c.disk.blocks == c.logical
  {
    forall x | 0 <= x < |c.disk.blocks|
      ensures c.disk.blocks[x] == c.logical[x]
    {
      assert !Stale(c.disk.blocks, c.logical, x);
    }
  }

  lemma SomeOfTwo(buf: seq<Buf>)
    ensures TwoFree(buf) ==> SomeFree(buf)
  {
  }

  /** Installing and clearing make up the writes of a recovery. */
  lemma RecoveryChain(g: Area, lh: seq<Word>, v0: View, v1: View, v2: View)
    requires v0.blocks == v0.logical && Bootable(g, v0.blocks) && lh == HeaderOf(v0.blocks[g.start])
    requires Leads(v0, InstallWrites(g, lh, v0.logical), v1)
    requires Leads(v1, [Write(g.start, PutHeader(v1.logical[g.start], []))], v2)
    ensures Leads(v0, RecoveryWrites(g, Logged(g, v0.blocks)), v2)
  {
    var t := Logged(g, v0.blocks);
    InstallKeepsHeader(g, lh, v0.logical);
    var iw := InstallWrites(g, lh, v0.logical);
    RecoveryParts(g, t, v0.logical);
    LeadsThrough(v0, iw, v1, [Write(g.start, t.clear)], v2);
  }

  lemma RecoveryParts(g: Area, t: Txn, l: seq<Block>)
    requires |t.data| == |t.lh| && g.start + |t.lh| < |l|
    requires forall i :: 0 <= i < |t.lh| ==> t.data[i] == l[g.start + 1 + i]
    ensures RecoveryWrites(g, t) == InstallWrites(g, t.lh, l) + [Write(g.start, t.clear)]
  {
  }

  // ---- what the commit of the class means after a crash ----

  lemma TxnInReady(g: Area, lh: seq<Word>, v: View)
    requires ClearLog(g, v.blocks) && |v.logical| == |v.blocks| && ValidList(g, |v.blocks|, lh)
    ensures CommitReady(g, v.blocks, TxnIn(g, lh, v.logical))
  {
    var h := v.logical[g.start];
    HeaderRoundTrip(h, lh);
    HeaderRoundTrip(PutHeader(h, lh), []);
  }

  /** Cut the writes of `Log.Commit` short anywhere: the disk stands for its old home blocks if the header write was not
      reached, and for the logical contents of the listed blocks, all of them, if it was. */
  lemma CommitCrash(g: Area, lh: seq<Word>, v: View, k: nat)
    requires ClearLog(g, v.blocks) && |v.logical| == |v.blocks| && ValidList(g, |v.blocks|, lh)
    requires k <= |CommitWrites(g, TxnIn(g, lh, v.logical))|
    requires forall x :: 0 <= x < |v.blocks| && IsHome(g, x) && x !in lh ==> v.logical[x] == v.blocks[x]
    ensures InRange(CommitWrites(g, TxnIn(g, lh, v.logical)), |v.blocks|)
    ensures StandsFor(g, Play(v.blocks, CommitWrites(g, TxnIn(g, lh, v.logical)), k),
                      if k <= |lh| then v.blocks else v.logical)
  {
    var t := TxnIn(g, lh, v.logical);
    TxnInReady(g, lh, v);
    if k <= |lh| {
      CommitEarly(g, v.blocks, t, k);
    } else {
      CommitLate(g, v.blocks, t, k, v.logical);
    }
  }

  function Members(s: seq<nat>): (r: set<nat>) {
    set i | 0 <= i < |s| :: s[i]
  }

  // ---- when there is a free buffer ----

  /** Buffers that some process is using. */
  function Using(buf: seq<Buf>): (r: set<nat>) {
    set i: nat | i < |buf| && buf[i].refcnt > 0
  }

  /** Dirty buffers of the first `k` blocks listed. */
  function Dirty(buf: seq<Buf>, lh: seq<Word>, k: nat): (r: set<nat>)
    requires k <= |lh|
  {
    set i: nat | i < |buf| && buf[i].dirty && buf[i].blockno in lh[..k]
  }

  /** Exactly the listed blocks are pinned. */
  ghost predicate PinsListed(buf: seq<Buf>, lh: seq<Word>) {
    && (forall i :: 0 <= i < |buf| && buf[i].dirty ==> buf[i].dev == 1 && buf[i].blockno in lh)
    && (forall k :: 0 <= k < |lh| ==> Pinned(buf, lh[k]))
  }

  lemma DirtyAt(buf: seq<Buf>, lh: seq<Word>, k: nat, j: nat, i: nat)
    requires Unique(buf) && Redo.Distinct(lh) && PinsListed(buf, lh) && k < |lh|
    requires j < |buf| && Matches(buf[j], 1, lh[k]) && buf[j].dirty
    ensures i in Dirty(buf, lh, k + 1) <==> i in Dirty(buf, lh, k) || i == j
  {
    assert lh[..k + 1] == lh[..k] + [lh[k]];
    if i < |buf| && buf[i].dirty && buf[i].blockno == lh[k] {
      UniqueAt(buf, i, j);
    }
  }

  lemma DirtyNext(buf: seq<Buf>, lh: seq<Word>, k: nat)
    requires Unique(buf) && Redo.Distinct(lh) && PinsListed(buf, lh) && k < |lh|
    ensures |Dirty(buf, lh, k + 1)| == |Dirty(buf, lh, k)| + 1
  {
    assert Pinned(buf, lh[k]);
    var j: nat :| j < |buf| && Matches(buf[j], 1, lh[k]) && buf[j].dirty;
    forall i: nat
      ensures i in Dirty(buf, lh, k + 1) <==> i in Dirty(buf, lh, k) || i == j
    {
      DirtyAt(buf, lh, k, j, i);
    }
    assert j !in Dirty(buf, lh, k);
    hide Dirty, PinsListed, Unique, Redo.Distinct;
    assert Dirty(buf, lh, k + 1) == Dirty(buf, lh, k) + {j};
  }

  lemma {:induction false} DirtyCard(buf: seq<Buf>, lh: seq<Word>, k: nat)
    requires Unique(buf) && Redo.Distinct(lh) && PinsListed(buf, lh) && k <= |lh|
    ensures |Dirty(buf, lh, k)| == k
  {
    if k == 0 {
      assert Dirty(buf, lh, 0) == {};
    } else {
      DirtyCard(buf, lh, k - 1);
      DirtyNext(buf, lh, k - 1);
    }
  }

  ghost function Below(n: nat): (r: set<nat>)
    ensures |r| == n && forall i: nat :: i in r <==> i < n
  {
    if n == 0 then {} else Below(n - 1) + {n - 1}
  }

  lemma Complement(all: set<nat>, d: set<nat>, u: set<nat>)
    requires d <= all && u <= all && d !! u
    ensures (exists i :: i in all && i !in d && i !in u) <==> |d| + |u| < |all|
  {
    UnionCard(d, u);
    SubsetCard(d + u, all);
    if forall i :: i in all ==> i in d || i in u {
      assert d + u == all;
    }
  }

  lemma EvictableIff(buf: seq<Buf>, lh: seq<Word>, i: nat)
    requires PinsListed(buf, lh) && i < |buf|
    ensures Evictable(buf[i]) <==> i !in Dirty(buf, lh, |lh|) && i !in Using(buf)
  {
    assert lh[..|lh|] == lh;
  }

  /** With exactly the listed blocks pinned and nobody using those, some buffer is free exactly when the blocks listed
      and the buffers in use are fewer than the buffers. */
  lemma RoomIff(buf: seq<Buf>, lh: seq<Word>)
    requires |buf| == NBUF && Unique(buf) && Redo.Distinct(lh) && PinsListed(buf, lh)
    requires forall i :: 0 <= i < NBUF && buf[i].refcnt > 0 ==> !buf[i].dirty
    ensures SomeFree(buf) <==> |lh| + |Using(buf)| < NBUF
  {
    var (all, d, u) := (Below(NBUF), Dirty(buf, lh, |lh|), Using(buf));
    DirtyCard(buf, lh, |lh|);
    Complement(all, d, u);
    hide PinsListed, Unique, Redo.Distinct;
    if SomeFree(buf) {
      var i: nat :| i < |buf| && Evictable(buf[i]);
      EvictableIff(buf, lh, i);
      assert i in all;
    } else if i :| i in all && i !in d && i !in u {
      EvictableIff(buf, lh, i);
    }
  }

  /** bread and brelse of one block of a cache with no pinned block. */
  method Peek(c: Cache, x: nat, pid: nat, ghost o: Others) returns (ok: bool, data: Block)
    requires Calm(c, {}, o) && pid != 0 && x < |c.disk.blocks| && x in o.own
    modifies c, c.disk
    ensures c.Valid() && ok == SomeFree(old(c.buf)) && c.logical == old(c.logical)
    ensures c.disk.blocks == old(c.disk.blocks) && c.disk.history == old(c.disk.history)
    ensures ok ==> data == c.logical[x] && Calm(c, {}, o) && (TwoFree(old(c.buf)) ==> TwoFree(c.buf))
  {
    hide Ring, Permutation, Unique, Rests, SomeFree, TwoFree;
    ghost var buf0 := c.buf;
    FirstRoom(buf0, {}, o, x);
    NotHeld(c, {}, o, x);
    assert !Stale(c.disk.blocks, c.logical, x);
    var b;
    data := ZeroBlock;
    ok, b := Bread(c, x, pid);
    if !ok { return; }
    ghost var buf1 := c.buf;
    data := c.buf[b].data;
    ok := c.Brelse(b, pid);
    UpdateTwice(buf0, b, buf1[b], c.buf[b]);
    SettlesOne(buf0, {}, o, b, c.buf[b]);
  }

  /** The loop of write_head. */
  method EncodeHeader(b: Block, lh: seq<Word>) returns (h: Block)
    requires |lh| <= LOGSIZE
    ensures h == PutHeader(b, lh)
  {
    h := PutWord(b, 0, |lh|);
    var i := 0;
    while i < |lh|
      invariant 0 <= i <= |lh| && h == PutEntries(PutWord(b, 0, |lh|), lh[..i])
    {
      assert lh[..i + 1][..i] == lh[..i];
      h := PutWord(h, i + 1, lh[i]);
      i := i + 1;
    }
    assert lh[..|lh|] == lh;
  }

  /** The loop of read_head. */
  method DecodeHeader(b: Block) returns (lh: seq<Word>)
    requires HeaderOk(b)
    ensures lh == HeaderOf(b)
  {
    var n := GetWord(b, 0);
    lh := [];
    var i := 0;
    while i < n
      invariant 0 <= i <= n && |lh| == i && forall j :: 0 <= j < i ==> lh[j] == GetWord(b, j + 1)
    {
      lh := lh + [GetWord(b, i + 1)];
      i := i + 1;
    }
  }
}
