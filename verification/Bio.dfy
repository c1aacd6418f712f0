/** The disk of memide.c and the buffer cache of bio.c: NBUF buffers on a doubly linked ring in order of last use,
    reference counts, sleep locks, and pinning of blocks that are logged but not yet committed. */
module Bio {
  import opened Basics
  import opened Blocks

  /** The list head, numbered just past the buffers `0..NBUF`; pointers between buffers are these numbers. */
  const HEAD: nat := NBUF

  /** `holder` is the pid holding the sleep lock, 0 when nobody does. */
  datatype Buf = Buf(dev: nat, blockno: nat, valid: bool, dirty: bool, refcnt: nat, holder: nat, data: Block)

  const EmptyBuf := Buf(0, 0, false, false, 0, 0, ZeroBlock)

  class Disk {
    var blocks: seq<Block>
    /** Every block write since power-on. */
    ghost var history: seq<Write>

    constructor (image: seq<Block>)
      ensures blocks == image && history == []
    {
      blocks, history := image, [];
    }

    predicate CanTransfer(b: Buf, pid: nat)
      reads this
    {
      pid != 0 && b.holder == pid && (b.dirty || !b.valid) && b.dev == 1 && b.blockno < |blocks|
    }

    /** Sync a buffer with the disk: write it if dirty, else read it. Refusal is a panic. */
    method Iderw(b: Buf, pid: nat) returns (ok: bool, r: Buf)
      modifies this
      ensures ok == old(CanTransfer(b, pid)) && |blocks| == |old(blocks)|
      ensures !ok ==> r == b
      ensures ok ==> r == b.(valid := true, dirty := false, data := r.data) && r.data == blocks[b.blockno]
      ensures ok && b.dirty ==>
        blocks == old(blocks)[b.blockno := b.data] && history == old(history) + [Write(b.blockno, b.data)]
      ensures !ok || !b.dirty ==> blocks == old(blocks) && history == old(history)
    {
      r := b;
      if pid == 0 || b.holder != pid { return false, r; }
      if b.valid && !b.dirty { return false, r; }
      if b.dev != 1 { return false, r; }
      if b.blockno >= |blocks| { return false, r; }
      if b.dirty {
        r := r.(dirty := false);
        blocks := blocks[b.blockno := b.data];
        history := history + [Write(b.blockno, b.data)];
      } else {
        r := r.(data := blocks[b.blockno]);
      }
      r := r.(valid := true);
      return true, r;
    }
  }

  // ---- the ring ----

  /** The `i`-th buffer from the head; the head itself before the first and after the last. */
  function At(order: seq<nat>, i: int): (b: nat) {
    if 0 <= i < |order| then order[i] else HEAD
  }

  /** `order` lists every buffer exactly once; `pos` is its inverse. */
  ghost predicate Permutation(order: seq<nat>, pos: seq<nat>) {
    && |order| == NBUF && |pos| == NBUF
    && (forall i :: 0 <= i < NBUF ==> order[i] < NBUF && pos[order[i]] == i)
    && (forall b :: 0 <= b < NBUF ==> pos[b] < NBUF && order[pos[b]] == b)
  }

  /** The `i`-th buffer and the one after it point at each other. */
  ghost predicate Linked(next: seq<nat>, prev: seq<nat>, order: seq<nat>, i: int) {
    && At(order, i) < |next| && next[At(order, i)] == At(order, i + 1)
    && At(order, i + 1) < |prev| && prev[At(order, i + 1)] == At(order, i)
  }

  predicate Distinct(order: seq<nat>) {
    forall i, j :: 0 <= i < j < |order| ==> order[i] != order[j]
  }

  /** Following `next` from the head visits the buffers of `order` and comes back; `prev` does so backwards. */
  ghost predicate Ring(next: seq<nat>, prev: seq<nat>, order: seq<nat>) {
    && |next| == |prev| == NBUF + 1 && Distinct(order)
    && (forall i :: 0 <= i < |order| ==> order[i] < NBUF)
    && (forall i :: -1 <= i < |order| ==> Linked(next, prev, order, i))
  }

  /** `order` with its `p`-th buffer moved to the front. */
  function ToFront(order: seq<nat>, p: nat): (r: seq<nat>)
    requires p < |order|
  {
    [order[p]] + (order[..p] + order[p + 1..])
  }

  function ToFrontPos(order: seq<nat>, pos: seq<nat>, p: nat): (r: seq<nat>)
    requires p < |order|
  {
    seq(|pos|, b requires 0 <= b < |pos| => if pos[b] < p then pos[b] + 1 else if pos[b] == p then 0 else pos[b])
  }

  lemma ToFrontPermutes(order: seq<nat>, pos: seq<nat>, p: nat)
    requires Permutation(order, pos) && p < NBUF
    ensures Permutation(ToFront(order, p), ToFrontPos(order, pos, p))
  {
    var r := ToFront(order, p);
    assert forall i :: 0 <= i < NBUF ==> r[i] == if i == 0 then order[p] else if i <= p then order[i - 1] else order[i];
  }

  /** `b->next->prev = b->prev; b->prev->next = b->next` takes a buffer off the ring. */
  lemma UnlinkKeepsRing(next: seq<nat>, prev: seq<nat>, order: seq<nat>, p: nat)
    requires Ring(next, prev, order) && p < |order|
    ensures next[order[p]] <= NBUF && prev[order[p]] <= NBUF
    ensures Ring(next[prev[order[p]] := next[order[p]]], prev[next[order[p]] := prev[order[p]]],
                 order[..p] + order[p + 1..])
  {
    var b := order[p];
    assert Linked(next, prev, order, p - 1) && Linked(next, prev, order, p);
    var next', prev', r := next[prev[b] := next[b]], prev[next[b] := prev[b]], order[..p] + order[p + 1..];
    forall i | -1 <= i < |r|
      ensures Linked(next', prev', r, i)
    {
      var j := if i < p then i else i + 1;
      assert Linked(next, prev, order, j);
      if i != p - 1 {
        assert At(r, i) == At(order, j) && At(r, i + 1) == At(order, j + 1);
      }
    }
  }

  /** `b->next = head.next; b->prev = &head; head.next->prev = b; head.next = b` puts a buffer at the front. */
  lemma PushKeepsRing(next: seq<nat>, prev: seq<nat>, order: seq<nat>, b: nat)
    requires Ring(next, prev, order) && b < NBUF && b !in order
    ensures next[HEAD] <= NBUF
    ensures Ring(next[b := next[HEAD]][HEAD := b], prev[b := HEAD][next[HEAD] := b], [b] + order)
  {
    assert Linked(next, prev, order, -1);
    var next', prev', r := next[b := next[HEAD]][HEAD := b], prev[b := HEAD][next[HEAD] := b], [b] + order;
    forall i | -1 <= i < |r|
      ensures Linked(next', prev', r, i)
    {
      if i >= 1 {
        assert Linked(next, prev, order, i - 1);
        assert At(r, i) == At(order, i - 1) && At(r, i + 1) == At(order, i);
      }
    }
  }

  // ---- what the cache means ----

  predicate Matches(b: Buf, dev: nat, blockno: nat) {
    b.dev == dev && b.blockno == blockno
  }

  predicate Cached(buf: seq<Buf>, dev: nat, blockno: nat) {
    exists i :: 0 <= i < |buf| && Matches(buf[i], dev, blockno)
  }

  /** May bget recycle the buffer? */
  predicate Evictable(b: Buf) {
    b.refcnt == 0 && !b.dirty
  }

  predicate SameBlock(buf: seq<Buf>, i: nat, j: nat) {
    i < |buf| && j < |buf| && buf[i].dev != 0 && Matches(buf[j], buf[i].dev, buf[i].blockno)
  }

  predicate Unique(buf: seq<Buf>) {
    forall i, j :: 0 <= i < j < |buf| ==> !SameBlock(buf, i, j)
  }

  lemma UniqueAt(buf: seq<Buf>, i: nat, j: nat)
    requires Unique(buf) && SameBlock(buf, i, j)
    ensures i == j
  {
    assert SameBlock(buf, j, i);
  }

  lemma UniqueSame(buf: seq<Buf>, buf': seq<Buf>)
    requires Unique(buf) && |buf'| == |buf|
    requires forall i :: 0 <= i < |buf| ==> Matches(buf'[i], buf[i].dev, buf[i].blockno)
    ensures Unique(buf')
  {
    forall i, j | 0 <= i < j < |buf'|
      ensures !SameBlock(buf', i, j)
    {
      assert !SameBlock(buf, i, j);
    }
  }

  /** Buffer `i` holds block `x` and cannot be recycled. */
  predicate Keeps(buf: seq<Buf>, i: nat, x: nat) {
    i < |buf| && Matches(buf[i], 1, x) && buf[i].valid && !Evictable(buf[i])
  }

  /** The disk does not have the logical contents of block `x`. */
  predicate Stale(disk: seq<Block>, logical: seq<Block>, x: nat) {
    x < |disk| && x < |logical| && disk[x] != logical[x]
  }

  /** Every valid buffer holds the logical contents of its block, and a block whose disk contents are stale is held by a
      buffer that cannot be recycled. */
  ghost predicate Coherent(buf: seq<Buf>, disk: seq<Block>, logical: seq<Block>) {
    && |logical| == |disk|
    && (forall i :: 0 <= i < |buf| && buf[i].valid ==>
          buf[i].dev == 1 && buf[i].blockno < |disk| && buf[i].data == logical[buf[i].blockno])
    && (forall i :: 0 <= i < |buf| && buf[i].dirty ==> buf[i].valid)
    && (forall i :: 0 <= i < |buf| && buf[i].holder != 0 ==> buf[i].refcnt > 0)
    && (forall x :: Stale(disk, logical, x) ==> exists i :: Keeps(buf, i, x))
  }

  /** Recycling a buffer for a block that is not cached loses nothing. */
  lemma RecycleKeeps(buf: seq<Buf>, disk: seq<Block>, logical: seq<Block>, b: nat, dev: nat, blockno: nat)
    requires Unique(buf) && Coherent(buf, disk, logical) && b < |buf| && Evictable(buf[b]) && !Cached(buf, dev, blockno)
    ensures var buf' := buf[b := buf[b].(dev := dev, blockno := blockno, valid := false, dirty := false, refcnt := 1)];
      Unique(buf') && Coherent(buf', disk, logical)
  {
    var buf' := buf[b := buf[b].(dev := dev, blockno := blockno, valid := false, dirty := false, refcnt := 1)];
    forall i, j | 0 <= i < j < |buf'|
      ensures !SameBlock(buf', i, j)
    {
      assert !SameBlock(buf, i, j);
    }
    forall x | Stale(disk, logical, x)
      ensures exists i :: Keeps(buf', i, x)
    {
      var i :| Keeps(buf, i, x);
      assert Keeps(buf', i, x);
    }
  }

  /** Any change to one buffer that keeps its block, contents and pinning, or leaves its block in step with the disk. */
  lemma ChangeKeeps(buf: seq<Buf>, disk: seq<Block>, logical: seq<Block>, b: nat, c: Buf)
    requires Unique(buf) && Coherent(buf, disk, logical) && b < |buf| && Matches(c, buf[b].dev, buf[b].blockno)
    requires c.valid ==> c.dev == 1 && c.blockno < |disk| && c.data == logical[c.blockno]
    requires (c.dirty ==> c.valid) && (c.holder != 0 ==> c.refcnt > 0) && (buf[b].valid ==> c.valid)
    requires c.valid && Evictable(c) ==> c.data == disk[c.blockno]
    ensures Unique(buf[b := c]) && Coherent(buf[b := c], disk, logical)
  {
    var buf' := buf[b := c];
    UniqueSame(buf, buf');
    forall x | Stale(disk, logical, x)
      ensures exists i :: Keeps(buf', i, x)
    {
      var i :| Keeps(buf, i, x);
      assert Keeps(buf', i, x);
    }
  }

  /** The holder of a buffer changes its contents. */
  lemma UpdateKeeps(buf: seq<Buf>, disk: seq<Block>, logical: seq<Block>, b: nat, data: Block)
    requires Unique(buf) && Coherent(buf, disk, logical) && b < |buf| && buf[b].valid && buf[b].refcnt > 0
    ensures var buf' := buf[b := buf[b].(data := data)];
      Unique(buf') && Coherent(buf', disk, logical[buf[b].blockno := data])
  {
    var buf', logical' := buf[b := buf[b].(data := data)], logical[buf[b].blockno := data];
    UniqueSame(buf, buf');
    forall i | 0 <= i < |buf'| && buf'[i].valid
      ensures buf'[i].data == logical'[buf'[i].blockno]
    {
      if buf[i].blockno == buf[b].blockno {
        UniqueAt(buf, i, b);
      }
    }
    forall x | Stale(disk, logical', x)
      ensures exists i :: Keeps(buf', i, x)
    {
      if x == buf[b].blockno {
        assert Keeps(buf', b, x);
      } else {
        assert Stale(disk, logical, x);
        var i :| Keeps(buf, i, x);
        assert Keeps(buf', i, x);
      }
    }
  }

  /** A buffer is written to disk. */
  lemma WriteKeeps(buf: seq<Buf>, disk: seq<Block>, logical: seq<Block>, b: nat)
    requires Unique(buf) && Coherent(buf, disk, logical) && b < |buf| && buf[b].valid
    ensures var buf' := buf[b := buf[b].(dirty := false)];
      Unique(buf') && Coherent(buf', disk[buf[b].blockno := buf[b].data], logical)
  {
    var buf', disk' := buf[b := buf[b].(dirty := false)], disk[buf[b].blockno := buf[b].data];
    UniqueSame(buf, buf');
    forall x | Stale(disk', logical, x)
      ensures exists i :: Keeps(buf', i, x)
    {
      assert Stale(disk, logical, x);
      var i :| Keeps(buf, i, x);
      assert Keeps(buf', i, x);
    }
  }

  /** A buffer that has not been filled belongs to a block that is in step with the disk. */
  lemma UncachedInStep(buf: seq<Buf>, disk: seq<Block>, logical: seq<Block>, b: nat)
    requires Unique(buf) && Coherent(buf, disk, logical) && b < |buf| && !buf[b].valid && buf[b].dev == 1
    ensures !Stale(disk, logical, buf[b].blockno)
  {
    var x := buf[b].blockno;
    if Stale(disk, logical, x) {
      var i :| Keeps(buf, i, x);
      UniqueAt(buf, i, b);
    }
  }

  class Cache {
    const disk: Disk
    var buf: seq<Buf>
    var next: seq<nat>
    var prev: seq<nat>
    /** The ring, most recently released first, and where each buffer is on it. */
    ghost var order: seq<nat>
    ghost var pos: seq<nat>
    /** The logical contents of every block: what the last holder to change it left in it. */
    ghost var logical: seq<Block>

    ghost predicate Valid()
      reads this, disk
    {
      && |buf| == NBUF && Ring(next, prev, order) && Permutation(order, pos)
      && Unique(buf) && Coherent(buf, disk.blocks, logical)
    }

    /** binit: the ring is built by pushing each buffer in turn. */
    constructor (d: Disk)
      ensures Valid() && disk == d && logical == d.blocks && buf == seq(NBUF, i => EmptyBuf)
      ensures order == seq(NBUF, i requires 0 <= i < NBUF => NBUF - 1 - i)
    {
      disk := d;
      buf := seq(NBUF, i => EmptyBuf);
      logical := d.blocks;
      var nx: seq<nat>, pv: seq<nat> := seq(NBUF + 1, i => HEAD), seq(NBUF + 1, i => HEAD);
      ghost var r: seq<nat> := [];
      assert Linked(nx, pv, r, -1);
      var b := 0;
      while b < NBUF
        invariant 0 <= b <= NBUF && |r| == b && Ring(nx, pv, r)
        invariant forall i :: 0 <= i < b ==> r[i] == b - 1 - i
      {
        PushKeepsRing(nx, pv, r, b);
        var front := nx[HEAD];
        nx := nx[b := front];
        pv := pv[b := HEAD];
        pv := pv[front := b];
        nx := nx[HEAD := b];
        r := [b] + r;
        b := b + 1;
      }
      next, prev := nx, pv;
      order, pos := r, seq(NBUF, i requires 0 <= i < NBUF => NBUF - 1 - i);
    }

    /** The first loop of bget: from the most recently used end, the buffer of a block, or HEAD. */
    method Find(dev: nat, blockno: nat) returns (b: nat)
      requires Valid()
      ensures b <= NBUF && (b == HEAD <==> !Cached(buf, dev, blockno))
      ensures b < NBUF ==> Matches(buf[b], dev, blockno)
    {
      assert Linked(next, prev, order, -1);
      b := next[HEAD];
      ghost var i: int := 0;
      while b != HEAD
        invariant 0 <= i <= NBUF && b == At(order, i)
        invariant forall j :: 0 <= j < i ==> !Matches(buf[order[j]], dev, blockno)
        decreases NBUF - i
      {
        if Matches(buf[b], dev, blockno) {
          return;
        }
        assert Linked(next, prev, order, i);
        b := next[b];
        i := i + 1;
      }
      forall k | 0 <= k < NBUF
        ensures !Matches(buf[k], dev, blockno)
      {
        assert order[pos[k]] == k;
      }
    }

    /** The second loop of bget: from the least recently used end, the first buffer that may be recycled, or HEAD. */
    method Victim() returns (b: nat)
      requires Valid()
      ensures b <= NBUF && (b == HEAD <==> forall i :: 0 <= i < NBUF ==> !Evictable(buf[i]))
      ensures b < NBUF ==> Evictable(buf[b]) && forall i :: pos[b] < i < NBUF ==> !Evictable(buf[order[i]])
    {
      assert Linked(next, prev, order, NBUF - 1);
      b := prev[HEAD];
      ghost var i: int := NBUF - 1;
      while b != HEAD
        invariant -1 <= i < NBUF && b == At(order, i)
        invariant forall j :: i < j < NBUF ==> !Evictable(buf[order[j]])
        decreases i
      {
        if Evictable(buf[b]) {
          return;
        }
        assert Linked(next, prev, order, i - 1);
        b := prev[b];
        i := i - 1;
      }
      forall k | 0 <= k < NBUF
        ensures !Evictable(buf[k])
      {
        assert order[pos[k]] == k;
      }
    }

    /** bget under bcache.lock: find the block or recycle the least recently used free buffer; panic if there is none.
        */
    method Bget(dev: nat, blockno: nat) returns (ok: bool, b: nat)
      requires Valid()
      modifies this`buf
      ensures Valid() && b <= NBUF && (b < NBUF <==> ok)
      ensures ok == (Cached(old(buf), dev, blockno) || exists i :: 0 <= i < NBUF && Evictable(old(buf)[i]))
      ensures !ok ==> buf == old(buf)
      ensures Cached(old(buf), dev, blockno) ==>
        && Matches(old(buf)[b], dev, blockno)
        && buf == old(buf)[b := old(buf)[b].(refcnt := old(buf)[b].refcnt + 1)]
      ensures ok && !Cached(old(buf), dev, blockno) ==>
        && Evictable(old(buf)[b]) && (forall i :: pos[b] < i < NBUF ==> !Evictable(old(buf)[order[i]]))
        && buf
           == old(buf)[b := old(buf)[b].(dev := dev, blockno := blockno, valid := false, dirty := false, refcnt := 1)]
    {
      b := Find(dev, blockno);
      if b != HEAD {
        ChangeKeeps(buf, disk.blocks, logical, b, buf[b].(refcnt := buf[b].refcnt + 1));
        buf := buf[b := buf[b].(refcnt := buf[b].refcnt + 1)];
        return true, b;
      }
      b := Victim();
      if b != HEAD {
        RecycleKeeps(buf, disk.blocks, logical, b, dev, blockno);
        buf := buf[b := buf[b].(dev := dev, blockno := blockno, valid := false, dirty := false, refcnt := 1)];
        return true, b;
      }
      return false, b;
    }

    /** The end of acquiresleep: nobody holds the buffer any more and `pid` takes it. */
    method Lock(b: nat, pid: nat)
      requires Valid() && b < NBUF && pid != 0 && buf[b].holder == 0 && buf[b].refcnt > 0
      modifies this`buf
      ensures Valid() && buf == old(buf)[b := old(buf)[b].(holder := pid)]
    {
      ChangeKeeps(buf, disk.blocks, logical, b, buf[b].(holder := pid));
      buf := buf[b := buf[b].(holder := pid)];
    }

    /** The rest of bread: read the block from disk if the buffer does not hold it yet. Either way the caller sees the
        logical contents of the block. */
    method Fill(b: nat, pid: nat) returns (ok: bool)
      requires Valid() && b < NBUF && pid != 0 && buf[b].holder == pid
      modifies this`buf, disk
      ensures Valid() && disk.blocks == old(disk.blocks) && disk.history == old(disk.history)
      ensures ok == (old(buf)[b].valid || (old(buf)[b].dev == 1 && old(buf)[b].blockno < |disk.blocks|))
      ensures !ok ==> buf == old(buf)
      ensures ok ==>
        && buf[b].blockno < |logical| && buf[b].data == logical[buf[b].blockno]
        && buf == old(buf)[b := old(buf)[b].(valid := true, data := buf[b].data)]
    {
      if buf[b].valid {
        assert buf == buf[b := buf[b].(valid := true, data := buf[b].data)];
        return true;
      }
      var x := buf[b].blockno;
      if buf[b].dev == 1 {
        UncachedInStep(buf, disk.blocks, logical, b);
      }
      var r;
      ok, r := disk.Iderw(buf[b], pid);
      if ok {
        ChangeKeeps(buf, disk.blocks, logical, b, r);
        buf := buf[b := r];
      }
    }

    /** The holder stores `data` in the buffer. */
    method Update(b: nat, pid: nat, data: Block)
      requires Valid() && b < NBUF && pid != 0 && buf[b].holder == pid && buf[b].valid
      modifies this`buf, this`logical
      ensures Valid() && buf == old(buf)[b := old(buf)[b].(data := data)]
      ensures logical == old(logical)[buf[b].blockno := data]
    {
      UpdateKeeps(buf, disk.blocks, logical, b, data);
      logical := logical[buf[b].blockno := data];
      buf := buf[b := buf[b].(data := data)];
    }

    /** log_write's `b->flags |= B_DIRTY`: the buffer stays until its block is written home. */
    method Pin(b: nat)
      requires Valid() && b < NBUF && buf[b].valid
      modifies this`buf
      ensures Valid() && buf == old(buf)[b := old(buf)[b].(dirty := true)]
    {
      ChangeKeeps(buf, disk.blocks, logical, b, buf[b].(dirty := true));
      buf := buf[b := buf[b].(dirty := true)];
    }

    method Bwrite(b: nat, pid: nat) returns (ok: bool)
      requires Valid() && b < NBUF && pid != 0 && buf[b].valid
      modifies this`buf, disk
      ensures Valid() && ok == (old(buf)[b].holder == pid)
      ensures !ok ==> buf == old(buf) && disk.blocks == old(disk.blocks) && disk.history == old(disk.history)
      ensures ok ==>
        && buf == old(buf)[b := old(buf)[b].(dirty := false)]
        && buf[b].blockno < |old(disk.blocks)| && disk.blocks == old(disk.blocks)[buf[b].blockno := buf[b].data]
        && disk.history == old(disk.history) + [Write(buf[b].blockno, buf[b].data)]
    {
      if buf[b].holder != pid {
        return false;
      }
      WriteKeeps(buf, disk.blocks, logical, b);
      var r;
      ok, r := disk.Iderw(buf[b].(dirty := true), pid);
      buf := buf[b := r];
    }

    /** The pointer surgery of brelse. */
    method MoveToFront(b: nat)
      requires Ring(next, prev, order) && Permutation(order, pos) && b < NBUF
      modifies this`next, this`prev, this`order, this`pos
      ensures Ring(next, prev, order) && Permutation(order, pos) && order == ToFront(old(order), old(pos)[b])
    {
      ghost var p, rest := pos[b], order[..pos[b]] + order[pos[b] + 1..];
      UnlinkKeepsRing(next, prev, order, p);
      assert Linked(next, prev, order, p) && next[b] != b;
      prev := prev[next[b] := prev[b]];
      next := next[prev[b] := next[b]];
      PushKeepsRing(next, prev, rest, b);
      next := next[b := next[HEAD]];
      prev := prev[b := HEAD];
      prev := prev[next[HEAD] := b];
      next := next[HEAD := b];
      ToFrontPermutes(order, pos, p);
      order, pos := ToFront(order, p), ToFrontPos(order, pos, p);
    }

    /** Give the buffer back. A changed buffer must have been written or pinned first. The last release moves it to the
        most recently used end of the ring. */
    method Brelse(b: nat, pid: nat) returns (ok: bool)
      requires Valid() && b < NBUF && pid != 0
      requires buf[b].valid && !buf[b].dirty ==> buf[b].data == disk.blocks[buf[b].blockno]
      modifies this`buf, this`next, this`prev, this`order, this`pos
      ensures Valid() && ok == (old(buf)[b].holder == pid)
      ensures !ok ==> buf == old(buf) && order == old(order)
      ensures ok ==>
        && old(buf)[b].refcnt > 0 && buf == old(buf)[b := old(buf)[b].(holder := 0, refcnt := old(buf)[b].refcnt - 1)]
        && old(pos)[b] < |old(order)|
        && order == if buf[b].refcnt > 0 then old(order)
                    else [b] + (old(order)[..old(pos)[b]] + old(order)[old(pos)[b] + 1..])
    {
      if buf[b].holder != pid {
        return false;
      }
      var c := buf[b].(holder := 0, refcnt := buf[b].refcnt - 1);
      ChangeKeeps(buf, disk.blocks, logical, b, c);
      buf := buf[b := c];
      if c.refcnt == 0 {
        MoveToFront(b);
      }
      return true;
    }
  }
}
