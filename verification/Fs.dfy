/** Block allocation, the block map, truncation, and reading and writing files, in place on the file system's tables. */
module Fs {
  import opened Basics
  import opened Blocks
  import opened FsImage
  import opened FsContents
  import opened FsLog

  const T_DEV := 3
  /** Most bytes that filewrite stores in one operation. */
  const CHUNK := (MAXOPBLOCKS - 1 - 1 - 2) / 2 * 512

  /** The test for a sum that does not fit a word. */
  lemma WrapsIff(a: Word, b: Word)
    ensures Wrap(a + b) < a <==> a + b >= WORD_LIMIT
  {
  }

  /** What is on disk, as the log sees it: block contents, the free map, inodes, and the blocks passed to log_write. */
  datatype Snapshot = Snapshot(block: seq<Block>, bitmap: seq<bool>, dinode: seq<Inode>, logged: set<nat>)

  /** Every block whose contents changed, be they data, bits of the free map or inodes, has been passed to log_write. */
  ghost predicate Journaled(l: Layout, a: Snapshot, b: Snapshot) {
    && |b.block| == |a.block| && |b.bitmap| == |a.bitmap| && |b.dinode| == |a.dinode| && a.logged <= b.logged
    && (forall x :: 0 <= x < |a.block| && b.block[x] != a.block[x] ==> x in b.logged)
    && (forall x :: 0 <= x < |a.bitmap| && b.bitmap[x] != a.bitmap[x] ==> x / BPB + l.bmapstart in b.logged)
    && (forall n :: 0 <= n < |a.dinode| && b.dinode[n] != a.dinode[n] ==> n / IPB + l.inodestart in b.logged)
  }

  lemma JournaledSame(l: Layout, a: Snapshot)
    ensures Journaled(l, a, a)
  {
  }

  lemma JournaledStore(l: Layout, a: Snapshot, b: Snapshot, x: nat, data: Block)
    requires Journaled(l, a, b) && x < |b.block|
    ensures Journaled(l, a, b.(block := b.block[x := data], logged := b.logged + {x}))
  {
  }

  lemma JournaledTwice(l: Layout, a: Snapshot, b: Snapshot, c: Snapshot)
    requires Journaled(l, a, b) && Journaled(l, b, c)
    ensures Journaled(l, a, c)
  {
  }

  /** Bits are only cleared, and what is logged are exactly their blocks of the free map. */
  ghost predicate Clears(l: Layout, a: Snapshot, b: Snapshot) {
    Marks(b.bitmap, a.bitmap) && b.logged == a.logged + Maps(l, Bits(a.bitmap, b.bitmap))
  }

  lemma ClearsNothing(l: Layout, a: Snapshot)
    ensures Clears(l, a, a)
  {
    NoBits(a.bitmap);
  }

  lemma ClearsTwice(l: Layout, a: Snapshot, b: Snapshot, c: Snapshot)
    requires Clears(l, a, b) && Clears(l, b, c)
    ensures Clears(l, a, c)
  {
    assert Bits(a.bitmap, c.bitmap) == Bits(a.bitmap, b.bitmap) + Bits(b.bitmap, c.bitmap);
    MapsUnion(l, Bits(a.bitmap, b.bitmap), Bits(b.bitmap, c.bitmap));
  }

  lemma ClearsOne(l: Layout, a: Snapshot, b: Snapshot, c: Snapshot, x: nat)
    requires Clears(l, a, b) && x < |b.bitmap| && b.bitmap[x] && c.bitmap == b.bitmap[x := false]
    requires c.logged == b.logged + {x / BPB + l.bmapstart}
    ensures Clears(l, a, c)
  {
    assert Bits(b.bitmap, c.bitmap) == {x};
    MapsOne(l, x);
    ClearsTwice(l, a, b, c);
  }

  /** Blocks that belong to file `n`, the indirect block among them. */
  ghost function BlocksOf(owner: map<nat, Slot>, n: nat): (r: set<nat>) {
    set b | b in owner && owner[b].n == n
  }

  lemma ClearsFile(l: Layout, m: Image, a: Snapshot, b: Snapshot, owner: map<nat, Slot>, n: nat)
    requires Owned(l, m, a.bitmap, owner) && Clears(l, a, b) && Freed(owner, n, a.bitmap, b.bitmap)
    ensures b.logged == a.logged + Maps(l, BlocksOf(owner, n))
  {
    assert Bits(a.bitmap, b.bitmap) == BlocksOf(owner, n);
  }

  datatype Outcome = Done(count: nat) | Refused | ToDriver(major: int) | Panicked

  class FileSystem {
    const l: Layout
    /** Device numbers with a driver in devsw. */
    const drivers: set<int>
    var bitmap: seq<bool>
    var inode: seq<Inode>
    var block: seq<Block>
    /** Inodes as last copied to their blocks. */
    var dinode: seq<Inode>
    ghost var owner: map<nat, Slot>
    /** Blocks passed to log_write since begin_op. */
    ghost var logged: set<nat>

    ghost function Now(): (m: Image)
      reads this
    {
      Image(inode, block)
    }

    ghost function Snap(): (r: Snapshot)
      reads this
    {
      Snapshot(block, bitmap, dinode, logged)
    }

    ghost function Here(): (r: Moment)
      reads this
    {
      Moment(Now(), bitmap, logged)
    }

    ghost predicate Owns()
      reads this
    {
      Owned(l, Now(), bitmap, owner) && |dinode| == l.ninodes
    }

    ghost predicate Valid()
      reads this
    {
      Owns() && AllNoHoles(l, Now())
    }

    /** A disk just formatted: only the metadata is in use. */
    constructor (layout: Layout, devices: set<int>)
      requires layout.Ok()
      ensures l == layout && drivers == devices && Valid() && inode == dinode && owner == map[] && logged == {}
      ensures forall b :: 0 <= b < l.size ==> (bitmap[b] <==> b < l.datastart)
    {
      l, drivers, owner, logged := layout, devices, map[], {};
      bitmap := seq(layout.size, b => b < layout.datastart);
      block := seq(layout.size, b => ZeroBlock);
      var empty := Inode(0, 0, 0, 0, 0, seq(NDIRECT + 1, i => 0));
      inode := seq(layout.ninodes, n => empty);
      dinode := seq(layout.ninodes, n => empty);
    }

    /** A disk as an earlier run has left it. */
    constructor Mounted(layout: Layout, devices: set<int>, bits: seq<bool>, m: Image, ghost own: map<nat, Slot>)
      requires Owned(layout, m, bits, own) && AllNoHoles(layout, m)
      ensures l == layout && drivers == devices && Valid() && inode == dinode && owner == own
      ensures Here() == Moment(m, bits, {})
    {
      l, drivers, owner, logged := layout, devices, own, {};
      bitmap, block, inode, dinode := bits, m.block, m.inode, m.inode;
    }

    function MapBlock(b: nat): (r: nat) {
      b / BPB + l.bmapstart
    }

    function InodeBlock(n: nat): (r: nat) {
      n / IPB + l.inodestart
    }

    method Balloc() returns (ok: bool, b: Word)
      requires l.Ok() && |bitmap| == |block| == l.size
      modifies `bitmap, `block, `logged
      ensures Journaled(l, old(Snap()), Snap())
      ensures !ok ==> Full(bitmap) && bitmap == old(bitmap) && block == old(block) && logged == old(logged)
      ensures ok ==> Free(l, old(bitmap), b) && forall c :: 0 <= c < b ==> old(bitmap)[c]
      ensures ok ==> bitmap == old(bitmap)[b := true] && block == old(block)[b := ZeroBlock]
      ensures ok ==> logged == old(logged) + {MapBlock(b), b}
    {
      var base := 0;
      while base < l.size
        invariant 0 <= base && base % BPB == 0
        invariant bitmap == old(bitmap) && block == old(block) && logged == old(logged)
        invariant forall c :: 0 <= c < base && c < l.size ==> bitmap[c]
      {
        var bi := 0;
        while bi < BPB && base + bi < l.size
          invariant 0 <= bi <= BPB
          invariant bitmap == old(bitmap) && block == old(block) && logged == old(logged)
          invariant forall c :: 0 <= c < base + bi && c < l.size ==> bitmap[c]
        {
          if !bitmap[base + bi] {
            assert (base + bi) / BPB == base / BPB;
            bitmap := bitmap[base + bi := true];
            logged := logged + {base / BPB + l.bmapstart};
            block := block[base + bi := ZeroBlock];
            logged := logged + {base + bi};
            return true, base + bi;
          }
          bi := bi + 1;
        }
        base := base + BPB;
      }
      return false, 0;
    }

    method Bfree(b: Word) returns (ok: bool)
      requires b < |bitmap|
      modifies `bitmap, `logged
      ensures Journaled(l, old(Snap()), Snap())
      ensures ok == old(bitmap)[b]
      ensures bitmap == old(bitmap)[b := false]
      ensures logged == if ok then old(logged) + {MapBlock(b)} else old(logged)
    {
      if !bitmap[b] {
        return false;
      }
      bitmap := bitmap[b := false];
      logged := logged + {MapBlock(b)};
      return true;
    }

    method Iupdate(n: nat)
      requires n < |inode| == |dinode|
      modifies `dinode, `logged
      ensures Journaled(l, old(Snap()), Snap())
      ensures dinode == old(dinode)[n := inode[n]] && logged == old(logged) + {InodeBlock(n)}
    {
      dinode := dinode[n := inode[n]];
      logged := logged + {InodeBlock(n)};
    }

    /** A direct block of file `n`, allocated if missing. */
    method MapDirect(n: nat, bn: nat) returns (ok: bool, addr: Word)
      requires Owns() && n < l.ninodes && bn < NDIRECT
      modifies this
      ensures Journaled(l, old(Snap()), Snap())
      ensures dinode == old(dinode) && OnlyAddrs(old(inode), inode, n)
      ensures !ok ==> Full(bitmap) && bitmap == old(bitmap) && old(Addr(l, Now(), n, bn)) == 0
      ensures ok ==> Owns() && Filled(l, old(Here()), Here(), Direct(n, bn), {}) && addr == Ptr(l, Now(), Direct(n, bn))
    {
      hide Journaled;
      JournaledSame(l, Snap());
      ghost var m := Now();
      addr := inode[n].addrs[bn];
      ok := true;
      if addr == 0 {
        ok, addr := Balloc();
        if ok {
          FreeUnused(l, m, old(bitmap), owner, addr, ZeroBlock);
          ghost var m1 := Now();
          assert m1 == m.(block := m.block[addr := ZeroBlock]);
          DirectSet(l, m1, old(bitmap), owner, n, bn, addr);
          inode := inode[n := inode[n].(addrs := inode[n].addrs[bn := addr])];
          assert Now() == SetAddr(m1, n, bn, addr);
          owner := owner[addr := Direct(n, bn)];
        }
      }
    }

    /** The indirect block of file `n`, allocated if missing. */
    method MapIndirect(n: nat) returns (ok: bool, ind: Word)
      requires Owns() && n < l.ninodes
      modifies this
      ensures Journaled(l, old(Snap()), Snap())
      ensures dinode == old(dinode) && OnlyAddrs(old(inode), inode, n)
      ensures !ok ==> Full(bitmap) && bitmap == old(bitmap) && old(Ind(l, Now(), n)) == 0
      ensures ok ==> Owns() && Filled(l, old(Here()), Here(), Indirect(n), {}) && ind == Ind(l, Now(), n)
    {
      hide Journaled;
      JournaledSame(l, Snap());
      ghost var m := Now();
      ind := inode[n].addrs[NDIRECT];
      ok := true;
      if ind == 0 {
        ok, ind := Balloc();
        if ok {
          FreeUnused(l, m, old(bitmap), owner, ind, ZeroBlock);
          ghost var m1 := Now();
          assert m1 == m.(block := m.block[ind := ZeroBlock]);
          IndirectSet(l, m1, old(bitmap), owner, n, ind);
          inode := inode[n := inode[n].(addrs := inode[n].addrs[NDIRECT := ind])];
          assert Now() == SetAddr(m1, n, NDIRECT, ind);
          owner := owner[ind := Indirect(n)];
        }
      }
    }

    /** A block of file `n` mapped by entry `i` of its indirect block `ind`, allocated if missing. */
    method MapEntry(n: nat, ind: Word, i: nat) returns (ok: bool, addr: Word)
      requires Owns() && n < l.ninodes && i < NINDIRECT && 0 < ind == Ind(l, Now(), n) < l.size
      modifies this
      ensures Journaled(l, old(Snap()), Snap())
      ensures dinode == old(dinode) && inode == old(inode)
      ensures !ok ==> Full(bitmap) && bitmap == old(bitmap) && old(Ptr(l, Now(), Entry(n, i))) == 0
      ensures ok ==> Owns() && Filled(l, old(Here()), Here(), Entry(n, i), {ind}) && addr == Ptr(l, Now(), Entry(n, i))
    {
      hide GetWord, PutWord, Journaled, Filled, Took, Full;
      JournaledSame(l, Snap());
      ghost var a := Here();
      ok := true;
      addr := GetWord(block[ind], i);
      if addr != 0 {
        FillNothing(l, a, owner, Entry(n, i), {ind});
        return;
      }
      ok, addr := Balloc();
      if ok {
        JournaledStore(l, old(Snap()), Snap(), ind, PutWord(block[ind], i, addr));
        block := block[ind := PutWord(block[ind], i, addr)];
        logged := logged + {ind};
        FillEntry(l, a, Here(), owner, n, i, addr);
        owner := owner[addr := Entry(n, i)];
      }
    }

    /** A block of file `n` mapped by entry `i` of its indirect block. */
    method MapThrough(n: nat, i: nat) returns (ok: bool, addr: Word)
      requires Owns() && n < l.ninodes && i < NINDIRECT
      modifies this
      ensures Journaled(l, old(Snap()), Snap())
      ensures dinode == old(dinode) && OnlyAddrs(old(inode), inode, n)
      ensures !ok ==> Full(bitmap) && RanOut(old(bitmap), bitmap, NewBlocks(l, old(Now()), n, NDIRECT + i))
      ensures ok ==> Owns() && Reached(l, old(Here()), Here(), n, NDIRECT + i) && addr == Addr(l, Now(), n, NDIRECT + i)
    {
      hide Journaled, Filled, Ptr, Full, RanOut, NewBlocks;
      addr := 0;
      var ind: Word;
      ok, ind := MapIndirect(n);
      ghost var (a, mid) := (old(Here()), Snap());
      if !ok {
        RanOutIndirect(l, a.m, bitmap, n, i);
        return;
      }
      ghost var c := Here();
      FilledPtr(l, a, c, Indirect(n), {});
      ok, addr := MapEntry(n, ind, i);
      JournaledTwice(l, old(Snap()), mid, Snap());
      if ok {
        ReachedThrough(l, a, c, Here(), n, i);
      } else {
        RanOutEntry(l, a, c, n, i);
      }
    }

    /** Block `bn` of file `n`, allocated if missing. */
    method Bmap(n: nat, bn: Word) returns (ok: bool, addr: Word)
      requires Owns() && n < l.ninodes
      modifies this
      ensures Journaled(l, old(Snap()), Snap())
      ensures dinode == old(dinode) && OnlyAddrs(old(inode), inode, n)
      ensures bn >= MAXFILE ==> !ok
      ensures !ok && bn < MAXFILE ==> Full(bitmap) && RanOut(old(bitmap), bitmap, NewBlocks(l, old(Now()), n, bn))
      ensures ok ==> Owns() && Reached(l, old(Here()), Here(), n, bn) && addr == Addr(l, Now(), n, bn)
    {
      hide Journaled, Filled, Full, Ptr;
      JournaledSame(l, Snap());
      if bn < NDIRECT {
        ok, addr := MapDirect(n, bn);
        if ok {
          ReachedDirect(l, old(Here()), Here(), n, bn);
        } else {
          NoBits(bitmap);
        }
        return;
      }
      if bn - NDIRECT < NINDIRECT {
        ok, addr := MapThrough(n, bn - NDIRECT);
        return;
      }
      return false, 0;
    }

    /** The blocks of the file become free. What is logged is the inode's block, and those blocks of the free map that
        have the bits of the file's blocks. */
    method Itrunc(n: nat)
      requires Valid() && n < l.ninodes
      modifies this
      ensures Journaled(l, old(Snap()), Snap())
      ensures logged == old(logged) + Maps(l, BlocksOf(old(owner), n)) + {InodeBlock(n)}
      ensures Valid() && block == old(block)
      ensures Freed(old(owner), n, old(bitmap), bitmap)
      ensures inode == old(inode)[n := Emptied(old(inode)[n])]
      ensures dinode == old(dinode)[n := inode[n]]
      ensures SameOthers(l, old(Now()), Now(), n)
    {
      hide Journaled, Clears;
      ghost var m := Now();
      FreeDirects(n, m);
      ghost var s1 := Snap();
      FreeIndirect(n, m, old(bitmap));
      ghost var s2 := Snap();
      JournaledTwice(l, old(Snap()), s1, s2);
      ClearsTwice(l, old(Snap()), s1, s2);
      ClearsFile(l, m, old(Snap()), s2, owner, n);
      inode := inode[n := inode[n].(size := 0)];
      Iupdate(n);
      JournaledTwice(l, old(Snap()), s2, Snap());
      assert inode[n].addrs == seq(NDIRECT + 1, i => 0);
      assert inode == old(inode)[n := Emptied(old(inode)[n])];
      Truncated(l, m, old(bitmap), owner, n, Now(), bitmap);
      owner := Others(owner, n);
    }

    /** Free the directly mapped blocks. */
    method FreeDirects(n: nat, ghost m: Image)
      requires Owned(l, m, bitmap, owner) && n < l.ninodes && m == Now()
      modifies `bitmap, `logged, `inode
      ensures Journaled(l, old(Snap()), Snap())
      ensures Clears(l, old(Snap()), Snap())
      ensures FreedTo(owner, n, NDIRECT, 0, old(bitmap), bitmap)
      ensures OnlyAddrs(old(inode), inode, n) && |inode[n].addrs| == NDIRECT + 1
      ensures forall k :: 0 <= k <= NDIRECT ==> inode[n].addrs[k] == if k < NDIRECT then 0 else old(inode)[n].addrs[k]
    {
      hide Journaled, Clears, GetWord, FreedTo;
      JournaledSame(l, Snap());
      ClearsNothing(l, Snap());
      FreedNone(owner, n, bitmap);
      var i := 0;
      while i < NDIRECT
        invariant 0 <= i <= NDIRECT && OnlyAddrs(old(inode), inode, n) && |inode[n].addrs| == NDIRECT + 1
        invariant forall k :: 0 <= k <= NDIRECT ==> inode[n].addrs[k] == if k < i then 0 else old(inode)[n].addrs[k]
        invariant FreedTo(owner, n, i, 0, old(bitmap), bitmap) && Journaled(l, old(Snap()), Snap())
        invariant Clears(l, old(Snap()), Snap())
      {
        var b := inode[n].addrs[i];
        assert b == Ptr(l, m, Direct(n, i));
        FreedDirect(l, m, owner, n, i, old(bitmap), bitmap);
        if b != 0 {
          ghost var mid := Snap();
          var ok := Bfree(b);
          JournaledTwice(l, old(Snap()), mid, Snap());
          assert ok;
          ClearsOne(l, old(Snap()), mid, Snap(), b);
          inode := inode[n := inode[n].(addrs := inode[n].addrs[i := 0])];
        }
        i := i + 1;
      }
    }

    /** Free the indirect block and the blocks it lists. */
    method FreeIndirect(n: nat, ghost m: Image, ghost was: seq<bool>)
      requires Owned(l, m, was, owner) && n < l.ninodes && block == m.block
      requires FreedTo(owner, n, NDIRECT, 0, was, bitmap)
      requires |inode| == l.ninodes && |inode[n].addrs| == NDIRECT + 1
      requires inode[n].addrs[NDIRECT] == Ptr(l, m, Indirect(n))
      modifies `bitmap, `logged, `inode
      ensures Journaled(l, old(Snap()), Snap())
      ensures Clears(l, old(Snap()), Snap())
      ensures Freed(owner, n, was, bitmap)
      ensures OnlyAddrs(old(inode), inode, n) && inode[n].addrs == old(inode)[n].addrs[NDIRECT := 0]
    {
      hide Journaled, Clears;
      JournaledSame(l, Snap());
      ClearsNothing(l, Snap());
      var ind := inode[n].addrs[NDIRECT];
      ghost var mid := bitmap;
      if ind != 0 {
        FreeEntries(n, ind, m, was);
        mid := bitmap;
        assert owner[ind] == Indirect(n);
        ghost var s1 := Snap();
        var ok := Bfree(ind);
        JournaledTwice(l, old(Snap()), s1, Snap());
        assert ok;
        ClearsOne(l, old(Snap()), s1, Snap(), ind);
        inode := inode[n := inode[n].(addrs := inode[n].addrs[NDIRECT := 0])];
      }
      FreedAll(l, m, owner, n, was, mid, bitmap);
    }

    /** Free the blocks listed in the indirect block. */
    method FreeEntries(n: nat, ind: Word, ghost m: Image, ghost was: seq<bool>)
      requires Owned(l, m, was, owner) && n < l.ninodes && Ptr(l, m, Indirect(n)) == ind != 0 && block == m.block
      requires FreedTo(owner, n, NDIRECT, 0, was, bitmap)
      modifies `bitmap, `logged
      ensures Journaled(l, old(Snap()), Snap())
      ensures Clears(l, old(Snap()), Snap())
      ensures FreedTo(owner, n, NDIRECT, NINDIRECT, was, bitmap)
    {
      hide Journaled, GetWord, Clears;
      JournaledSame(l, Snap());
      ClearsNothing(l, Snap());
      var j := 0;
      while j < NINDIRECT
        invariant 0 <= j <= NINDIRECT && FreedTo(owner, n, NDIRECT, j, was, bitmap) && Journaled(l, old(Snap()), Snap())
        invariant Clears(l, old(Snap()), Snap())
      {
        var b := GetWord(block[ind], j);
        assert b == Ptr(l, m, Entry(n, j));
        if b != 0 {
          ghost var mid := Snap();
          var ok := Bfree(b);
          JournaledTwice(l, old(Snap()), mid, Snap());
          assert ok;
          ClearsOne(l, old(Snap()), mid, Snap(), b);
        }
        j := j + 1;
      }
    }

    /** One turn of reading: the bytes of one block of the file, which is there. */
    method ReadBlock(n: nat, pos: nat, len: nat) returns (piece: seq<Byte>)
      requires Valid() && n < l.ninodes && 0 < len && NoHoles(l, Now(), n) && pos + len <= inode[n].size
      requires pos % BSIZE + len <= BSIZE
      modifies this
      ensures Valid() && inode == old(inode) && block == old(block) && bitmap == old(bitmap)
      ensures dinode == old(dinode) && logged == old(logged)
      ensures piece == old(Contents(l, Now(), n)[pos..pos + len])
    {
      assert Addr(l, Now(), n, pos / BSIZE) != 0;
      var ok, addr := Bmap(n, pos / BSIZE);
      assert ok;
      ReadPiece(l, Now(), n, pos, len, addr);
      piece := block[addr][pos % BSIZE..pos % BSIZE + len];
    }

    /** Bytes `off` to `off + todo` of a file that has them; the blocks are there, so nothing is allocated. */
    method ReadRange(n: nat, off: Word, todo: Word) returns (dst: seq<Byte>)
      requires Valid() && n < l.ninodes && NoHoles(l, Now(), n) && off + todo <= inode[n].size
      modifies this
      ensures Valid() && inode == old(inode) && block == old(block) && bitmap == old(bitmap)
      ensures dinode == old(dinode) && logged == old(logged)
      ensures dst == old(Contents(l, Now(), n)[off..off + todo])
    {
      hide Contents, Ptr;
      ghost var s := Contents(l, Now(), n);
      dst := [];
      var tot := 0;
      while tot < todo
        invariant 0 <= tot <= todo && dst == s[off..off + tot]
        invariant Valid() && inode == old(inode) && block == old(block) && bitmap == old(bitmap)
        invariant dinode == old(dinode) && logged == old(logged)
      {
        var pos := off + tot;
        var m := Min(todo - tot, BSIZE - pos % BSIZE);
        var piece := ReadBlock(n, pos, m);
        Adjacent(s, off, pos, pos + m);
        dst := dst + piece;
        tot := tot + m;
      }
    }

    /** readi. Devices go to their driver; an offset beyond the end or a range that wraps is refused; the rest is cut
        at the end of the file, and what is left of it is read. */
    method Readi(n: nat, off: Word, cnt: Word) returns (r: Outcome, dst: seq<Byte>)
      requires Valid() && n < l.ninodes
      modifies this
      ensures Valid() && inode == old(inode) && block == old(block) && bitmap == old(bitmap)
      ensures dinode == old(dinode) && logged == old(logged)
      ensures inode[n].typ == T_DEV ==> r == if inode[n].major in drivers then ToDriver(inode[n].major) else Refused
      ensures inode[n].typ != T_DEV && (off > inode[n].size || off + cnt >= WORD_LIMIT) ==> r == Refused
      ensures inode[n].typ != T_DEV && off <= inode[n].size && off + cnt < WORD_LIMIT ==>
        && inode[n].size <= MAXFILE * BSIZE && r == Done(|dst|)
        && dst == Contents(l, Now(), n)[off..if off + cnt <= inode[n].size then off + cnt else inode[n].size]
      ensures !r.Done? ==> dst == []
    {
      dst := [];
      if inode[n].typ == T_DEV {
        r := if inode[n].major in drivers then ToDriver(inode[n].major) else Refused;
        return;
      }
      WrapsIff(off, cnt);
      if off > inode[n].size || Wrap(off + cnt) < off {
        return Refused, [];
      }
      var todo: Word := cnt;
      if off + cnt > inode[n].size {
        todo := inode[n].size - off;
      }
      assert NoHoles(l, Now(), n);
      dst := ReadRange(n, off, todo);
      r := Done(todo);
    }

    /** One turn of writing: map the block at `pos` and store `piece` in it. */
    method StoreNext(n: nat, pos: Word, piece: seq<Byte>, ghost m0: Image, ghost off: nat, ghost data: seq<Byte>)
      returns (ok: bool)
      requires Owns() && n < l.ninodes && Sized(l, m0) && piece != [] && pos % BSIZE + |piece| <= BSIZE
      requires pos == off + |data| && pos + |piece| <= MAXFILE * BSIZE && Wrote(l, m0, Now(), n, off, data)
      modifies this
      ensures Journaled(l, old(Snap()), Snap())
      ensures dinode == old(dinode) && OnlyAddrs(old(inode), inode, n)
      ensures !ok ==> Full(bitmap) && RanOut(old(bitmap), bitmap, NewBlocks(l, old(Now()), n, pos / BSIZE))
      ensures ok ==> Owns() && Wrote(l, m0, Now(), n, off, data + piece)
      ensures ok && old(Addr(l, Now(), n, pos / BSIZE)) != 0 ==> inode == old(inode) && bitmap == old(bitmap)
      ensures ok ==> PaidStore(l, old(Here()), Here(), n, pos / BSIZE) && Stays(l, old(Now()), Now())
    {
      hide Wrote, Reached, PaidStore, Stays, Splice, Full, RanOut, NewBlocks, GetWord, Journaled;
      ghost var a := Here();
      var addr: Word;
      ok, addr := Bmap(n, pos / BSIZE);
      if ok {
        ghost var b := Here();
        StoreDoes(l, m0, a, b, owner, n, pos, piece, off, data);
        JournaledStore(l, old(Snap()), Snap(), addr, Splice(block[addr], pos % BSIZE, piece));
        block := block[addr := Splice(block[addr], pos % BSIZE, piece)];
        logged := logged + {addr};
        assert Now() == SpliceAt(l, b.m, addr, pos % BSIZE, piece);
      }
    }

    /** The next piece of `src`, up to the end of its block. */
    method WriteNext(n: nat, off: Word, src: seq<Byte>, tot: nat, ghost a: Moment) returns (ok: bool, m: nat)
      requires Owns() && n < l.ninodes && Sized(l, a.m) && NoHoles(l, a.m, n) && off <= a.m.inode[n].size
      requires tot < |src| && off + |src| <= MAXFILE * BSIZE && Aligned(off, tot)
      requires Progress(l, a, Here(), n, off, src[..tot])
      modifies this
      ensures Journaled(l, old(Snap()), Snap())
      ensures dinode == old(dinode) && OnlyAddrs(old(inode), inode, n)
      ensures 0 < m <= |src| - tot && (tot + m == |src| || Aligned(off, tot + m))
      ensures !ok ==> Full(bitmap) && |Frees(a.bitmap)| < Needs(l, a.m, n, off, |src|)
      ensures ok ==> Owns() && Progress(l, a, Here(), n, off, src[..tot + m])
      ensures ok && off + tot + m <= a.m.inode[n].size ==> inode == old(inode) && bitmap == old(bitmap)
    {
      hide Wrote, Spent, PaidStore, Stays, RanOut, Needs, NewBlocks, Frees, Full, Touched, Ptr, NoHoles, OnlyAddrs;
      hide Journaled;
      ghost var b := Here();
      var pos := off + tot;
      m := Min(|src| - tot, BSIZE - pos % BSIZE);
      EndsBlock(pos, |src| - tot, m);
      Turn(l, a, b, n, off, src[..tot]);
      ok := StoreNext(n, pos, src[tot..tot + m], a.m, off, src[..tot]);
      if ok {
        assert src[..tot] + src[tot..tot + m] == src[..tot + m];
        ProgressMore(l, a, b, Here(), n, off, src[..tot], src[tot..tot + m]);
      } else {
        ProgressStops(l, a, b, bitmap, n, off, src[..tot], |src|);
      }
    }

    /** Store `src` from `off` on, block by block. */
    method WriteRange(n: nat, off: Word, src: seq<Byte>) returns (ok: bool)
      requires Owns() && n < l.ninodes && NoHoles(l, Now(), n) && off <= inode[n].size && off + |src| <= MAXFILE * BSIZE
      modifies this
      ensures Journaled(l, old(Snap()), Snap())
      ensures dinode == old(dinode) && OnlyAddrs(old(inode), inode, n)
      ensures ok <==> Needs(l, old(Now()), n, off, |src|) <= |Frees(old(bitmap))|
      ensures !ok ==> Full(bitmap)
      ensures ok ==> Owns() && Progress(l, old(Here()), Here(), n, off, src)
      ensures ok && off + |src| <= old(inode)[n].size ==> inode == old(inode) && bitmap == old(bitmap)
    {
      hide Progress, Needs, Frees, Full, Journaled;
      JournaledSame(l, Snap());
      ghost var a := Here();
      assert src[..0] == [];
      ProgressNothing(l, a, n, off);
      var tot := 0;
      ok := true;
      while tot < |src|
        invariant 0 <= tot <= |src| && (tot == |src| || Aligned(off, tot))
        invariant Owns() && Progress(l, a, Here(), n, off, src[..tot])
        invariant dinode == old(dinode) && OnlyAddrs(old(inode), inode, n)
        invariant off + tot <= old(inode)[n].size ==> inode == old(inode) && bitmap == old(bitmap)
        invariant Journaled(l, old(Snap()), Snap())
      {
        ghost var mid := Snap();
        var m;
        ok, m := WriteNext(n, off, src, tot, a);
        JournaledTwice(l, old(Snap()), mid, Snap());
        if !ok {
          return;
        }
        tot := tot + m;
      }
      assert src[..tot] == src;
      ProgressFits(l, a, Here(), n, off, src);
    }

    /** writei. Devices go to their driver; an offset beyond the end, a range that wraps or one beyond the largest
        file is refused; otherwise all bytes are stored, or there are not enough free blocks and balloc panics. */
    method Writei(n: nat, src: seq<Byte>, off: Word) returns (r: Outcome)
      requires Valid() && n < l.ninodes && |src| < WORD_LIMIT
      modifies this
      ensures Journaled(l, old(Snap()), Snap())
      ensures old(inode)[n].typ == T_DEV ==>
        r == if old(inode)[n].major in drivers then ToDriver(old(inode)[n].major) else Refused
      ensures old(inode)[n].typ != T_DEV && !Writable(old(inode)[n], off, |src|) ==> r == Refused
      ensures old(inode)[n].typ != T_DEV && Writable(old(inode)[n], off, |src|) ==>
        r == if Needs(l, old(Now()), n, off, |src|) > |Frees(old(bitmap))| then Panicked else Done(|src|)
      ensures r.Panicked? ==> Full(bitmap)
      ensures r.Refused? || r.ToDriver? ==>
        inode == old(inode) && block == old(block) && bitmap == old(bitmap) && dinode == old(dinode)
      ensures off + |src| <= old(inode)[n].size ==> !r.Panicked? && inode == old(inode) && bitmap == old(bitmap)
      ensures !r.Panicked? ==> Valid()
      ensures r.Done? ==> off <= old(inode)[n].size && FileHas(l, old(Now()), Now(), n, off, src)
      ensures r.Done? ==> forall k :: 0 <= k < l.ninodes && k != n ==> inode[k] == old(inode)[k]
      ensures r.Done? ==> inode[n] == old(inode)[n].(size := inode[n].size, addrs := inode[n].addrs)
      ensures r.Done? && old(inode == dinode) ==> inode == dinode
      ensures r.Done? ==> Accounted(l, old(Here()), Here(), n, off, |src|)
      ensures r.Done? ==> Reaches(l, old(Now()), Now(), n, off / BSIZE, Touched(off, |src|))
    {
      hide Wrote, Ptr, Contents, SameFile, Journaled, Needs, Frees, Accounted, Spent, Full, NoHoles, Reaches, Touched;
      JournaledSame(l, Snap());
      assert NoHoles(l, Now(), n) && AllNoHoles(l, Now());
      WithinNeedsNothing(l, Now(), n, off, |src|);
      if inode[n].typ == T_DEV {
        r := if inode[n].major in drivers then ToDriver(inode[n].major) else Refused;
        return;
      }
      WrapsIff(off, |src|);
      if off > inode[n].size || Wrap(off + |src|) < off {
        return Refused;
      }
      if off + |src| > MAXFILE * BSIZE {
        return Refused;
      }
      var ok := WriteRange(n, off, src);
      if !ok {
        return Panicked;
      }
      ghost var b := Here();
      var end := off + |src|;
      ghost var size := if end > inode[n].size then end else inode[n].size;
      WroteAll(l, old(Now()), b.m, bitmap, owner, n, off, src, size);
      ghost var mid := Snap();
      if |src| > 0 && end > inode[n].size {
        inode := inode[n := inode[n].(size := end)];
        Iupdate(n);
        JournaledTwice(l, old(Snap()), mid, Snap());
      }
      assert Now() == Resized(b.m, n, size);
      ProgressLogs(l, old(Here()), b, Here(), owner, n, off, src, size);
      ProgressReaches(l, old(Here()), b, Now(), n, off, src, size);
      r := Done(|src|);
    }

    /** One chunk, in an operation that has logged nothing yet. */
    method WriteChunk(n: nat, off: Word, src: seq<Byte>, i: nat, n1: nat, ghost m0: Image, ghost free: nat)
      returns (w: Outcome)
      requires Valid() && n < l.ninodes && inode[n].typ != T_DEV && logged == {} && Sized(l, m0)
      requires i + n1 <= |src| < 0x8000_0000 && off + i < WORD_LIMIT && n1 <= CHUNK && 0 < n1
      requires FileHas(l, m0, Now(), n, off, src[..i])
      requires (i > 0 ==> off <= m0.inode[n].size && off + i <= inode[n].size)
      requires i == 0 ==> inode == m0.inode
      requires PaidFor(l, m0, Now(), n, off, i, free, |Frees(bitmap)|)
      modifies this
      ensures Journaled(l, old(Snap()), Snap())
      ensures w.Panicked? ==> Full(bitmap)
      ensures w.Panicked? || w.Refused? || w == Done(n1)
      ensures w.Refused? ==>
        inode == old(inode) && block == old(block) && bitmap == old(bitmap) && dinode == old(dinode)
      ensures w.Refused? ==> (i == 0 && off > m0.inode[n].size) || off + i + n1 > MAXFILE * BSIZE
      ensures !w.Panicked? ==> Valid() && (old(inode == dinode) ==> inode == dinode)
      ensures w.Done? ==>
        inode[n].typ != T_DEV && off <= m0.inode[n].size && off + i + n1 <= inode[n].size <= MAXFILE * BSIZE
      ensures w.Done? ==> FileHas(l, m0, Now(), n, off, src[..i + n1]) && |logged| <= MAXOPBLOCKS
      ensures w.Panicked? ==>
        off <= m0.inode[n].size && off + i + n1 <= MAXFILE * BSIZE && Needs(l, m0, n, off, i + n1) > free
      ensures w.Done? ==> PaidFor(l, m0, Now(), n, off, i + n1, free, |Frees(bitmap)|)
    {
      hide Ptr, FileHas, AllNoHoles, Accounted, Needs, Frees, Full, Reaches, Touched, PaidFor;
      ghost var (m, a, left) := (Now(), Here(), |Frees(bitmap)|);
      w := Writei(n, src[i..i + n1], off + i);
      if w.Panicked? {
        PaidShort(l, m0, m, n, off, i, n1, free, left);
      }
      if w.Done? {
        ChunkSpends(l, a, Here(), n, off + i, n1);
        PaidMore(l, m0, m, Now(), n, off, i, n1, free, left, |Frees(bitmap)|);
        ChunkFits(l, a, Here(), n, off + i, n1);
        FileHasMore(l, m0, m, Now(), n, off, src[..i], src[i..i + n1]);
        assert src[..i] + src[i..i + n1] == src[..i + n1];
      }
    }

    /** Write `src` at `off` in chunks, each in an operation of its own; `ops` are the blocks each of them logged. The
        new file offset is `pos`. */
    method FileWrite(n: nat, off: Word, cnt: int, src: seq<Byte>)
      returns (r: int, pos: Word, panicked: bool, ghost ops: seq<set<nat>>)
      requires Valid() && n < l.ninodes && inode[n].typ != T_DEV
      requires cnt < 0x8000_0000 && |src| == if cnt < 0 then 0 else cnt
      modifies this
      ensures panicked ==> Full(bitmap)
      ensures panicked <==> Short(l, old(Now()), old(bitmap), n, off, StoredCount(old(inode)[n].size, off, |src|))
      ensures forall op :: op in ops ==> |op| <= MAXOPBLOCKS
      ensures !panicked ==> Valid() && (old(inode == dinode) ==> inode == dinode)
      ensures !panicked ==> pos == off + StoredCount(old(inode)[n].size, off, |src|)
      ensures !panicked ==> r == if cnt == pos - off then cnt else -1
      ensures !panicked ==> pos - off <= |src| && FileHas(l, old(Now()), Now(), n, off, src[..pos - off])
    {
      hide Ptr, FileHas, AllNoHoles, Budget, StoredCount, Full, Needs, Frees, PaidFor, Journaled, Owned;
      ops, pos, panicked := [], off, false;
      var i := 0;
      assert src[..0] == [];
      OwnedSized(l, Now(), bitmap, owner);
      FileHasNothing(l, Now(), n, off);
      ghost var (m0, free) := (Now(), |Frees(bitmap)|);
      NothingPaid(l, m0, n, off, free);
      while i < cnt
        invariant 0 <= i <= |src| && (i % CHUNK == 0 || i == cnt) && pos == off + i
        invariant Valid() && Sized(l, Now()) && inode[n].typ != T_DEV && (old(inode == dinode) ==> inode == dinode)
        invariant i == 0 ==> inode == old(inode)
        invariant i > 0 ==> off <= old(inode)[n].size && pos <= inode[n].size <= MAXFILE * BSIZE
        invariant FileHas(l, old(Now()), Now(), n, off, src[..i])
        invariant forall op :: op in ops ==> |op| <= MAXOPBLOCKS
        invariant PaidFor(l, m0, Now(), n, off, i, free, |Frees(bitmap)|)
      {
        var n1 := Min(cnt - i, CHUNK);
        EndsChunk(i, cnt - i);
        logged := {};
        var w := WriteChunk(n, off, src, i, n1, m0, free);
        if !w.Panicked? {
          OwnedSized(l, Now(), bitmap, owner);
        }
        if w.Panicked? {
          StoredAtLeast(old(inode)[n].size, off, |src|, i, n1);
          NeedsGrow(l, m0, n, off, i + n1, StoredCount(old(inode)[n].size, off, |src|));
          return -1, pos, true, ops;
        }
        if w.Refused? {
          StoredStop(old(inode)[n].size, off, |src|, i);
          PaidEnough(l, m0, Now(), n, off, i, free, |Frees(bitmap)|);
          return -1, pos, false, ops;
        }
        ops := ops + [logged];
        pos := pos + n1;
        i := i + n1;
      }
      StoredEnd(old(inode)[n].size, off, |src|);
      PaidEnough(l, m0, Now(), n, off, i, free, |Frees(bitmap)|);
      r := if i == cnt then cnt else -1;
    }
  }

  lemma OwnedSized(l: Layout, m: Image, bitmap: seq<bool>, owner: map<nat, Slot>)
    requires Owned(l, m, bitmap, owner)
    ensures Sized(l, m)
  {
  }

  /** Owned by one of the first `d` direct slots or `e` entries of file `n`. */
  ghost predicate Before(owner: map<nat, Slot>, n: nat, d: nat, e: nat, b: nat) {
    && b in owner && owner[b].n == n
    && (match owner[b] case Direct(_, i) => i < d case Indirect(_) => false case Entry(_, i) => i < e)
  }

  ghost predicate FreedTo(owner: map<nat, Slot>, n: nat, d: nat, e: nat, was: seq<bool>, now: seq<bool>) {
    |now| == |was| && forall b :: 0 <= b < |was| ==> (now[b] <==> was[b] && !Before(owner, n, d, e, b))
  }

  lemma FreedNone(owner: map<nat, Slot>, n: nat, was: seq<bool>)
    ensures FreedTo(owner, n, 0, 0, was, was)
  {
  }

  lemma FreedDirect(l: Layout, m: Image, owner: map<nat, Slot>, n: nat, i: nat, was: seq<bool>, now: seq<bool>)
    requires Owned(l, m, was, owner) && n < l.ninodes && i < NDIRECT && FreedTo(owner, n, i, 0, was, now)
    ensures var b := Ptr(l, m, Direct(n, i));
      if b == 0 then FreedTo(owner, n, i + 1, 0, was, now)
      else b < |now| && now[b] && FreedTo(owner, n, i + 1, 0, was, now[b := false])
  {
  }

  /** Exactly the blocks of file `n` have become free. */
  ghost predicate Freed(owner: map<nat, Slot>, n: nat, was: seq<bool>, now: seq<bool>) {
    |now| == |was| && forall b :: 0 <= b < |was| ==> (now[b] <==> was[b] && !(b in owner && owner[b].n == n))
  }

  lemma FreedAll(l: Layout, m: Image, owner: map<nat, Slot>, n: nat, was: seq<bool>, mid: seq<bool>, now: seq<bool>)
    requires Owned(l, m, was, owner) && n < l.ninodes
    requires Ptr(l, m, Indirect(n)) == 0 ==> FreedTo(owner, n, NDIRECT, 0, was, now)
    requires Ptr(l, m, Indirect(n)) != 0 ==>
      FreedTo(owner, n, NDIRECT, NINDIRECT, was, mid) && now == mid[Ptr(l, m, Indirect(n)) := false]
    ensures Freed(owner, n, was, now)
  {
    forall b | 0 <= b < |was|
      ensures now[b] <==> was[b] && !(b in owner && owner[b].n == n)
    {
      if b in owner && owner[b].n == n {
        assert SlotOk(l, owner[b]) && Ptr(l, m, owner[b]) == b;
      }
    }
  }

  ghost function Others(owner: map<nat, Slot>, n: nat): (r: map<nat, Slot>) {
    map b | b in owner && owner[b].n != n :: owner[b]
  }

  function Emptied(ip: Inode): (r: Inode) {
    ip.(size := 0, addrs := seq(NDIRECT + 1, i => 0))
  }

  lemma Truncated(l: Layout, m: Image, bitmap: seq<bool>, owner: map<nat, Slot>, n: nat, m': Image, bitmap': seq<bool>)
    requires Owned(l, m, bitmap, owner) && n < l.ninodes && AllNoHoles(l, m)
    requires m'.block == m.block
    requires m'.inode == m.inode[n := Emptied(m.inode[n])]
    requires Freed(owner, n, bitmap, bitmap')
    ensures Owned(l, m', bitmap', Others(owner, n)) && AllNoHoles(l, m')
    ensures SameOthers(l, m, m', n)
  {
    forall s | SlotOk(l, s)
      ensures Ptr(l, m', s) == if s.n == n then 0 else Ptr(l, m, s)
    {
    }
    forall k | 0 <= k < l.ninodes && k != n
      ensures NoHoles(l, m', k) && SameFile(l, m, m', k)
    {
      assert NoHoles(l, m, k);
      forall bn | 0 <= bn < MAXFILE
        ensures Addr(l, m', k, bn) == Addr(l, m, k, bn)
      {
      }
    }
  }

  lemma Adjacent(s: seq<Byte>, a: nat, b: nat, c: nat)
    requires a <= b <= c <= |s|
    ensures s[a..b] + s[b..c] == s[a..c]
  {
  }

  lemma ReadPiece(l: Layout, m: Image, n: nat, pos: nat, len: nat, addr: Word)
    requires Sized(l, m) && n < l.ninodes && pos + len <= m.inode[n].size <= MAXFILE * BSIZE && 0 < len
    requires pos % BSIZE + len <= BSIZE && addr == Addr(l, m, n, pos / BSIZE) < l.size
    ensures m.block[addr][pos % BSIZE..pos % BSIZE + len] == Contents(l, m, n)[pos..pos + len]
  {
    forall k | pos <= k < pos + len
      ensures Contents(l, m, n)[k] == m.block[addr][pos % BSIZE + k - pos]
    {
      assert k / BSIZE == pos / BSIZE;
    }
  }

  // ---- what one write does and logs ----

  /** After a store into block `bn`, which is block `x` of the disk, the image is `m` and the bytes from `off` on are
      `data`. */
  ghost predicate StoreIs(l: Layout, m0: Image, a: Moment, b: Moment, m: Image, x: nat, owner: map<nat, Slot>, n: nat,
                          bn: nat, off: nat, data: seq<Byte>)
    requires Sized(l, m0) && Sized(l, a.m) && Sized(l, m) && n < l.ninodes
    requires bn < MAXFILE && off + |data| <= MAXFILE * BSIZE
  {
    && Owned(l, m, b.bitmap, owner) && Wrote(l, m0, m, n, off, data) && Stays(l, a.m, m)
    && PaidStore(l, a, Moment(m, b.bitmap, b.logged + {x}), n, bn)
  }

  /** A piece stored in its block, once the block is there. */
  lemma StoreDoes(l: Layout, m0: Image, a: Moment, b: Moment, owner: map<nat, Slot>, n: nat, pos: nat,
                  piece: seq<Byte>, off: nat, data: seq<Byte>)
    requires Sized(l, m0) && Sized(l, a.m) && Owned(l, b.m, b.bitmap, owner) && n < l.ninodes && |a.bitmap| == l.size
    requires piece != [] && pos % BSIZE + |piece| <= BSIZE && pos == off + |data| && pos + |piece| <= MAXFILE * BSIZE
    requires Wrote(l, m0, a.m, n, off, data) && Reached(l, a, b, n, pos / BSIZE)
    ensures Addr(l, b.m, n, pos / BSIZE) < l.size
    ensures Addr(l, a.m, n, pos / BSIZE) != 0 ==> b == a
    ensures var x := Addr(l, b.m, n, pos / BSIZE);
      StoreIs(l, m0, a, b, SpliceAt(l, b.m, x, pos % BSIZE, piece), x, owner, n, pos / BSIZE, off, data + piece)
  {
    hide Wrote, Paid, Mapped, Splice, PaidStore, Stays, Ptr;
    WroteMore(l, m0, a.m, b.m, b.bitmap, owner, n, off, data, piece, pos, Addr(l, b.m, n, pos / BSIZE));
    PaidSplice(l, a, b, owner, n, pos, piece);
    StaysSplice(l, a.m, b.m, b.bitmap, owner, n, pos, piece);
  }

  lemma EndsBlock(pos: nat, rest: nat, m: nat)
    requires m == Min(rest, BSIZE - pos % BSIZE)
    ensures m == rest || (pos + m) % BSIZE == 0
  {
    assert pos == pos / BSIZE * BSIZE + pos % BSIZE;
    if m != rest {
      assert pos + m == (pos / BSIZE + 1) * BSIZE;
    }
  }

  /** Between turns, a write is at its start or at the start of a block. */
  predicate Aligned(off: nat, tot: nat) {
    tot == 0 || (off + tot) % BSIZE == 0
  }

  /** Where a write is after storing `data`: what it has done, allocated and logged. */
  ghost predicate Progress(l: Layout, a: Moment, b: Moment, n: nat, off: nat, data: seq<Byte>)
    requires Sized(l, a.m) && Sized(l, b.m) && n < l.ninodes && off + |data| <= MAXFILE * BSIZE
  {
    && Wrote(l, a.m, b.m, n, off, data) && Spent(l, a, b, n, off / BSIZE, Touched(off, |data|))
    && (data == [] ==> b == a)
  }

  lemma ProgressNothing(l: Layout, a: Moment, n: nat, off: nat)
    requires Sized(l, a.m) && n < l.ninodes && off <= MAXFILE * BSIZE
    ensures Progress(l, a, a, n, off, [])
  {
    WroteNothing(l, a.m, n, off);
    SpentNothing(l, a, n, off / BSIZE);
  }

  /** The block of the next turn is mapped as it was, and so it is there if the file reaches into it. */
  lemma Turn(l: Layout, a: Moment, b: Moment, n: nat, off: nat, data: seq<Byte>)
    requires Sized(l, a.m) && Sized(l, b.m) && n < l.ninodes && off + |data| < MAXFILE * BSIZE
    requires Progress(l, a, b, n, off, data) && Aligned(off, |data|) && NoHoles(l, a.m, n)
    ensures (off + |data|) / BSIZE == off / BSIZE + Touched(off, |data|)
    ensures Addr(l, b.m, n, (off + |data|) / BSIZE) == Addr(l, a.m, n, (off + |data|) / BSIZE)
    ensures off + |data| < a.m.inode[n].size ==> Addr(l, b.m, n, (off + |data|) / BSIZE) != 0
  {
    TouchedMore(off, |data|, BSIZE - (off + |data|) % BSIZE);
  }

  /** Blocks that hold bytes stored are mapped. */
  lemma TouchedCovered(l: Layout, m0: Image, m: Image, n: nat, off: nat, data: seq<Byte>)
    requires Sized(l, m0) && Sized(l, m) && n < l.ninodes && off + |data| <= MAXFILE * BSIZE
    requires Wrote(l, m0, m, n, off, data)
    ensures forall bn :: off / BSIZE <= bn < off / BSIZE + Touched(off, |data|) ==> Addr(l, m, n, bn) != 0
  {
  }

  lemma StaysMapped(l: Layout, m: Image, m': Image, n: nat, lo: nat, hi: nat)
    requires Sized(l, m) && Sized(l, m') && n < l.ninodes && hi <= MAXFILE && Stays(l, m, m')
    requires forall bn :: lo <= bn < hi ==> Addr(l, m, n, bn) != 0
    ensures forall bn :: lo <= bn < hi ==> Addr(l, m', n, bn) == Addr(l, m, n, bn)
  {
  }

  lemma ProgressMore(l: Layout, a: Moment, b: Moment, c: Moment, n: nat, off: nat, data: seq<Byte>, piece: seq<Byte>)
    requires Sized(l, a.m) && Sized(l, b.m) && Sized(l, c.m) && n < l.ninodes && piece != []
    requires off + |data| + |piece| <= MAXFILE * BSIZE && (off + |data|) % BSIZE + |piece| <= BSIZE
    requires Progress(l, a, b, n, off, data) && Aligned(off, |data|) && Wrote(l, a.m, c.m, n, off, data + piece)
    requires PaidStore(l, b, c, n, (off + |data|) / BSIZE) && Stays(l, b.m, c.m)
    requires Addr(l, b.m, n, (off + |data|) / BSIZE) == Addr(l, a.m, n, (off + |data|) / BSIZE)
    ensures Progress(l, a, c, n, off, data + piece)
  {
    hide Wrote, Spent, PaidStore, Stays, Ptr, Touched;
    TouchedMore(off, |data|, |piece|);
    TouchedCovered(l, a.m, b.m, n, off, data);
    StaysMapped(l, b.m, c.m, n, off / BSIZE, off / BSIZE + Touched(off, |data|));
    SpentMore(l, a, b, c, n, off / BSIZE, Touched(off, |data|));
  }

  /** If the next block cannot be had, the write as a whole needs more blocks than were free. */
  lemma ProgressStops(l: Layout, a: Moment, b: Moment, bitmap: seq<bool>, n: nat, off: nat, data: seq<Byte>, cnt: nat)
    requires Sized(l, a.m) && Sized(l, b.m) && n < l.ninodes && |data| < cnt && off + cnt <= MAXFILE * BSIZE
    requires Progress(l, a, b, n, off, data) && Aligned(off, |data|)
    requires RanOut(b.bitmap, bitmap, NewBlocks(l, b.m, n, (off + |data|) / BSIZE))
    requires Addr(l, b.m, n, (off + |data|) / BSIZE) == Addr(l, a.m, n, (off + |data|) / BSIZE)
    ensures |Frees(a.bitmap)| < Needs(l, a.m, n, off, cnt)
  {
    hide Wrote, Spent, RanOut, Ptr, Frees, NewBlocks, Need;
    TouchedMore(off, |data|, 1);
    RanOutMore(l, a, b, bitmap, n, off / BSIZE, Touched(off, |data|), Touched(off, cnt));
  }

  lemma ProgressFits(l: Layout, a: Moment, b: Moment, n: nat, off: nat, data: seq<Byte>)
    requires Sized(l, a.m) && Sized(l, b.m) && n < l.ninodes && off + |data| <= MAXFILE * BSIZE
    requires Progress(l, a, b, n, off, data)
    ensures Needs(l, a.m, n, off, |data|) <= |Frees(a.bitmap)|
  {
    hide Wrote, Ptr, Frees, Need, SpentBits;
    SpentFrees(l, a, b, n, off / BSIZE, Touched(off, |data|));
  }

  /** Bytes below the end of the file go to blocks that are there. */
  lemma WithinNeedsNothing(l: Layout, m: Image, n: nat, off: nat, cnt: nat)
    requires Sized(l, m) && n < l.ninodes && NoHoles(l, m, n)
    ensures off + cnt <= m.inode[n].size ==> off + cnt <= MAXFILE * BSIZE && Needs(l, m, n, off, cnt) == 0
  {
    if off + cnt <= m.inode[n].size {
      NeedNothing(l, m, n, off / BSIZE, Touched(off, cnt));
    }
  }

  /** What a write allocates and logs is exactly what `Logs` says, within the budget, which it reaches exactly in the
      worst case. */
  ghost predicate Accounted(l: Layout, a: Moment, b: Moment, n: nat, off: nat, cnt: nat)
    requires Sized(l, a.m) && Sized(l, b.m) && n < l.ninodes && off + cnt <= MAXFILE * BSIZE
  {
    && Marks(a.bitmap, b.bitmap) && |Bits(a.bitmap, b.bitmap)| == Needs(l, a.m, n, off, cnt)
    && b.logged == a.logged + Logs(l, a, b, n, off, cnt) && |b.logged - a.logged| <= Budget(off, cnt)
    && (cnt > 0 && Regions(l) && a.logged == {} ==>
          (|b.logged| == Budget(off, cnt) <==> Worst(l, a, b.bitmap, n, off, cnt)))
  }

  lemma ChunkSpends(l: Layout, a: Moment, b: Moment, n: nat, off: nat, cnt: nat)
    requires Sized(l, a.m) && Sized(l, b.m) && n < l.ninodes && off + cnt <= MAXFILE * BSIZE
    requires Accounted(l, a, b, n, off, cnt)
    ensures Needs(l, a.m, n, off, cnt) + |Frees(b.bitmap)| == |Frees(a.bitmap)|
  {
    FreesLeft(a.bitmap, b.bitmap);
  }

  /** A chunk logs no more than its share. */
  lemma ChunkFits(l: Layout, a: Moment, b: Moment, n: nat, off: nat, cnt: nat)
    requires Sized(l, a.m) && Sized(l, b.m) && n < l.ninodes && off + cnt <= MAXFILE * BSIZE && cnt <= CHUNK
    requires Accounted(l, a, b, n, off, cnt) && a.logged == {}
    ensures |b.logged| <= MAXOPBLOCKS
  {
    BudgetFits(off, cnt);
    assert b.logged - {} == b.logged;
  }

  /** What writei takes for a file. */
  predicate Writable(ip: Inode, off: nat, cnt: nat) {
    off <= ip.size && off + cnt < WORD_LIMIT && off + cnt <= MAXFILE * BSIZE
  }

  lemma ProgressReaches(l: Layout, a: Moment, b: Moment, m: Image, n: nat, off: nat, data: seq<Byte>, size: Word)
    requires Sized(l, a.m) && Sized(l, b.m) && n < l.ninodes && off + |data| <= MAXFILE * BSIZE
    requires Progress(l, a, b, n, off, data) && m == Resized(b.m, n, size)
    ensures Sized(l, m) && Reaches(l, a.m, m, n, off / BSIZE, Touched(off, |data|))
  {
    TouchedCovered(l, a.m, b.m, n, off, data);
    ResizedPtr(l, b.m, n, size);
    BeyondTouched(off, |data|);
    hide Ptr, SpentBits, Cost, Touched;
    assert Stays(l, a.m, m);
    forall bn | 0 <= bn < MAXFILE
      ensures Addr(l, m, n, bn) == Addr(l, b.m, n, bn)
    {
    }
    assert Ind(l, m, n) == Ind(l, b.m, n);
  }

  lemma ResizedPtr(l: Layout, m: Image, n: nat, size: Word)
    requires Sized(l, m) && n < l.ninodes
    ensures Sized(l, Resized(m, n, size))
    ensures forall s :: SlotOk(l, s) ==> Ptr(l, Resized(m, n, size), s) == Ptr(l, m, s)
  {
  }

  lemma BeyondTouched(off: nat, cnt: nat)
    ensures forall bn: nat :: off / BSIZE + Touched(off, cnt) <= bn && cnt > 0 ==> off + cnt <= bn * BSIZE
  {
  }

  lemma ProgressLogs(l: Layout, a: Moment, b: Moment, c: Moment, owner: map<nat, Slot>, n: nat, off: nat,
                     data: seq<Byte>, size: Word)
    requires Sized(l, a.m) && Owned(l, b.m, b.bitmap, owner) && n < l.ninodes && off + |data| <= MAXFILE * BSIZE
    requires NoHoles(l, a.m, n) && off <= a.m.inode[n].size && |a.bitmap| == l.size
    requires Progress(l, a, b, n, off, data) && c.m == Resized(b.m, n, size) && c.bitmap == b.bitmap
    requires c.logged == b.logged
      + if |data| > 0 && off + |data| > a.m.inode[n].size then {n / IPB + l.inodestart} else {}
    ensures Sized(l, c.m) && Accounted(l, a, c, n, off, |data|)
  {
    hide Wrote, Spent, Ptr, Touched, Budget, Worst, Logs, Regions, Bits, Marks, NoHoles;
    TouchedCovered(l, a.m, b.m, n, off, data);
    WriteLogs(l, a, b, c, owner, n, off, |data|, size);
  }

  /** The budget of a chunk is an operation's share of the log, wherever in the file the chunk goes; that of a longer
      one that starts a block is more. */
  lemma BudgetFits(off: nat, cnt: nat)
    ensures cnt <= CHUNK ==> Budget(off, cnt) <= MAXOPBLOCKS
    ensures cnt > CHUNK && off % BSIZE == 0 ==> Budget(off, cnt) > MAXOPBLOCKS
  {
    assert off == off / BSIZE * BSIZE + off % BSIZE;
    if cnt > CHUNK && off % BSIZE == 0 {
      assert (off + cnt - 1) / BSIZE >= off / BSIZE + CHUNK / BSIZE;
    }
  }

  /** Storing `cnt` bytes needs more blocks than are free. */
  predicate Short(l: Layout, m: Image, bitmap: seq<bool>, n: nat, off: nat, cnt: nat)
    requires Sized(l, m) && n < l.ninodes
  {
    0 < cnt && off + cnt <= MAXFILE * BSIZE && Needs(l, m, n, off, cnt) > |Frees(bitmap)|
  }

  /** The first `i` bytes are paid for: of `free` blocks, `left` are left. */
  ghost predicate PaidFor(l: Layout, m0: Image, m: Image, n: nat, off: nat, i: nat, free: nat, left: nat)
    requires Sized(l, m0) && Sized(l, m) && n < l.ninodes
  {
    if i == 0 then m0 == m && left == free
    else
      && off + i <= MAXFILE * BSIZE && Reaches(l, m0, m, n, off / BSIZE, Touched(off, i))
      && Needs(l, m0, n, off, i) + left == free
  }

  lemma NothingPaid(l: Layout, m: Image, n: nat, off: nat, free: nat)
    requires Sized(l, m) && n < l.ninodes
    ensures PaidFor(l, m, m, n, off, 0, free, free)
  {
  }

  lemma PaidMore(l: Layout, m0: Image, m: Image, m2: Image, n: nat, off: nat, i: nat, c: nat, free: nat, left: nat,
                 left2: nat)
    requires Sized(l, m0) && Sized(l, m) && Sized(l, m2) && n < l.ninodes && off + i + c <= MAXFILE * BSIZE && c > 0
    requires PaidFor(l, m0, m, n, off, i, free, left) && Needs(l, m, n, off + i, c) + left2 == left
    requires Reaches(l, m, m2, n, (off + i) / BSIZE, Touched(off + i, c))
    ensures PaidFor(l, m0, m2, n, off, i + c, free, left2)
  {
    hide Reaches, Touched, Needs;
    if i > 0 {
      NeedsJoin(l, m0, m, m2, n, off, i, c);
    }
  }

  lemma PaidShort(l: Layout, m0: Image, m: Image, n: nat, off: nat, i: nat, c: nat, free: nat, left: nat)
    requires Sized(l, m0) && Sized(l, m) && n < l.ninodes && off + i + c <= MAXFILE * BSIZE && c > 0
    requires PaidFor(l, m0, m, n, off, i, free, left) && Needs(l, m, n, off + i, c) > left
    ensures Needs(l, m0, n, off, i + c) > free
  {
    hide Reaches, Touched, Needs;
    if i > 0 {
      NeedsJoin(l, m0, m, m, n, off, i, c);
    }
  }

  lemma PaidEnough(l: Layout, m0: Image, m: Image, n: nat, off: nat, i: nat, free: nat, left: nat)
    requires Sized(l, m0) && Sized(l, m) && n < l.ninodes && PaidFor(l, m0, m, n, off, i, free, left)
    ensures i > 0 ==> off + i <= MAXFILE * BSIZE && Needs(l, m0, n, off, i) <= free
  {
  }

  /** How many of `cnt` bytes filewrite stores at `off` of a file of `size` bytes: none beyond its end; else all, or as
      many whole chunks as the largest file has room for. */
  function StoredCount(size: nat, off: nat, cnt: nat): (r: nat)
    ensures r == cnt <==> cnt == 0 || (off <= size && off + cnt <= MAXFILE * BSIZE)
    ensures r != cnt ==>
      r % CHUNK == 0 && if off > size || off > MAXFILE * BSIZE then r == 0
                        else off + r <= MAXFILE * BSIZE < off + r + CHUNK
  {
    ChunksOf(MAXFILE * BSIZE - off);
    if off > size then 0
    else if off + cnt <= MAXFILE * BSIZE then cnt
    else if off > MAXFILE * BSIZE then 0
    else (MAXFILE * BSIZE - off) / CHUNK * CHUNK
  }

  lemma ChunksOf(room: int)
    ensures room >= 0 ==> var r := room / CHUNK * CHUNK; r % CHUNK == 0 && r <= room < r + CHUNK
  {
    var c := CHUNK;
    assert c == 1536;
    if room >= 0 {
      assert room == room / c * c + room % c;
    }
  }

  lemma StoredAtLeast(size: nat, off: nat, cnt: nat, i: nat, c: nat)
    requires size <= MAXFILE * BSIZE && i % CHUNK == 0 && i < cnt && c == Min(cnt - i, CHUNK) && off <= size
    requires off + i + c <= MAXFILE * BSIZE
    ensures i + c <= StoredCount(size, off, cnt) && off + StoredCount(size, off, cnt) <= MAXFILE * BSIZE
  {
    if off + cnt > MAXFILE * BSIZE {
      var room := MAXFILE * BSIZE - off;
      ChunksOf(room);
      WholeAtLeast(room, i);
    }
  }

  lemma WholeAtLeast(room: nat, i: nat)
    requires i % CHUNK == 0 && i + CHUNK <= room
    ensures i + CHUNK <= room / CHUNK * CHUNK
  {
    var c := CHUNK;
    assert c == 1536;
    assert i == i / c * c;
    assert (i + c) / c == i / c + 1 <= room / c;
  }

  lemma EndsChunk(i: nat, rest: nat)
    requires i % CHUNK == 0
    ensures Min(rest, CHUNK) == rest || (i + Min(rest, CHUNK)) % CHUNK == 0
  {
  }

  lemma WholeChunks(room: nat, i: nat)
    requires i % CHUNK == 0 && i <= room < i + CHUNK
    ensures room / CHUNK * CHUNK == i
  {
    var c := CHUNK;
    assert c == 1536;
    assert room == (room - i) + i / c * c;
    assert (room - i) / c == 0;
    assert room / c == i / c;
  }

  lemma StoredStop(size: nat, off: nat, cnt: nat, i: nat)
    requires size <= MAXFILE * BSIZE && i % CHUNK == 0 && i < cnt
    requires i > 0 ==> off <= size && off + i <= MAXFILE * BSIZE
    requires (i == 0 && off > size) || off + i + Min(cnt - i, CHUNK) > MAXFILE * BSIZE
    ensures StoredCount(size, off, cnt) == i
  {
    if off <= size {
      WholeChunks(MAXFILE * BSIZE - off, i);
    }
  }

  lemma StoredEnd(size: nat, off: nat, cnt: nat)
    requires size <= MAXFILE * BSIZE && (cnt > 0 ==> off <= size && off + cnt <= MAXFILE * BSIZE)
    ensures StoredCount(size, off, cnt) == cnt
  {
  }

  /** File `n` has the bytes it had with `data` stored at `off`, and other files are as they were. */
  ghost predicate FileHas(l: Layout, m0: Image, m: Image, n: nat, off: nat, data: seq<Byte>)
    requires Sized(l, m0) && Sized(l, m) && n < l.ninodes
  {
    && SameOthers(l, m0, m, n) && NoHoles(l, m0, n) && NoHoles(l, m, n)
    && Contents(l, m, n) == if off <= m0.inode[n].size then Overwritten(Contents(l, m0, n), off, data)
      else Contents(l, m0, n)
  }

  lemma FileHasNothing(l: Layout, m: Image, n: nat, off: nat)
    requires Sized(l, m) && AllNoHoles(l, m) && n < l.ninodes
    ensures FileHas(l, m, m, n, off, []) && m.inode[n].size <= MAXFILE * BSIZE
  {
    assert NoHoles(l, m, n);
    forall k | 0 <= k < l.ninodes
      ensures SameFile(l, m, m, k)
    {
      assert NoHoles(l, m, k);
    }
    if off <= m.inode[n].size {
      assert Overwritten(Contents(l, m, n), off, []) == Contents(l, m, n);
    }
  }

  lemma FileHasMore(l: Layout, m0: Image, m: Image, m2: Image, n: nat, off: nat, a: seq<Byte>, b: seq<Byte>)
    requires Sized(l, m0) && Sized(l, m) && Sized(l, m2) && n < l.ninodes
    requires FileHas(l, m0, m, n, off, a) && off <= m0.inode[n].size && off + |a| <= m.inode[n].size
    requires FileHas(l, m, m2, n, off + |a|, b)
    ensures FileHas(l, m0, m2, n, off, a + b) && off + |a + b| <= m2.inode[n].size <= MAXFILE * BSIZE
  {
    OverwrittenTwice(Contents(l, m0, n), off, a, b);
    forall k | 0 <= k < l.ninodes && k != n
      ensures SameFile(l, m0, m2, k)
    {
      assert SameFile(l, m0, m, k) && SameFile(l, m, m2, k);
    }
  }

  lemma OverwrittenTwice(s: seq<Byte>, off: nat, a: seq<Byte>, b: seq<Byte>)
    requires off <= |s|
    ensures off + |a| <= |Overwritten(s, off, a)|
    ensures Overwritten(Overwritten(s, off, a), off + |a|, b) == Overwritten(s, off, a + b)
  {
  }

  // ---- reading what was written ----

  /** What writei has stored at `off`, readi finds there: all of it, if it asks for as much, and then the rest of what
      it asked for. */
  method WriteThenRead(fs: FileSystem, n: nat, src: seq<Byte>, off: Word, cnt: Word)
    returns (w: Outcome, r: Outcome, dst: seq<Byte>)
    requires fs.Valid() && n < fs.l.ninodes && |src| <= cnt && off + cnt < WORD_LIMIT
    modifies fs
    ensures w.Done? ==> w == Done(|src|) && r == Done(|dst|) && src <= dst && |dst| <= cnt
    ensures w.Done? ==> fs.Valid() && off <= old(fs.inode)[n].size <= MAXFILE * BSIZE
    ensures w.Done? && off + |src| <= old(fs.inode)[n].size ==>
      dst[|src|..] == old(Contents(fs.l, fs.Now(), n)[off + |src|..Min(off + cnt, fs.inode[n].size)])
  {
    hide Contents, Accounted, Reaches, Journaled, Needs;
    dst := [];
    w := fs.Writei(n, src, off);
    r := w;
    if w.Done? {
      r, dst := fs.Readi(n, off, cnt);
      OverwrittenAt(old(Contents(fs.l, fs.Now(), n)), off, src, cnt);
    }
  }

  lemma OverwrittenAt(s: seq<Byte>, off: nat, data: seq<Byte>, cnt: nat)
    requires off <= |s| && |data| <= cnt
    ensures var r := Overwritten(s, off, data);
      && off + |data| <= |r| && data <= r[off..Min(off + cnt, |r|)] && (off + |data| <= |s| ==> |r| == |s|)
      && (off + |data| <= |s| ==>
            r[off..Min(off + cnt, |r|)][|data|..] == s[off + |data|..Min(off + cnt, |s|)])
  {
  }
}
