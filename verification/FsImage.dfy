/** The part of the file system that maps inodes to blocks, as values: inodes, block contents, the free map, and which
    block pointer owns which block. */
module FsImage {
  import opened Basics
  import opened Blocks

  const NDIRECT := 12
  const NINDIRECT := 128
  const MAXFILE := NDIRECT + NINDIRECT
  const BPB := BSIZE * 8
  const IPB := 8

  /** `addrs` has NDIRECT + 1 entries, the last one for the indirect block; 0 stands for no block. */
  datatype Inode = Inode(typ: int, major: int, minor: int, nlink: int, size: Word, addrs: seq<Word>)

  /** Superblock: `size` blocks in all, of which those below `datastart` hold metadata. */
  datatype Layout = Layout(size: Word, ninodes: nat, inodestart: nat, bmapstart: nat, datastart: nat) {
    predicate Ok() {
      0 < datastart <= size
    }
  }

  /** Current (in-memory) inodes and block contents. */
  datatype Image = Image(inode: seq<Inode>, block: seq<Block>)

  predicate Sized(l: Layout, m: Image) {
    && l.Ok() && |m.inode| == l.ninodes && |m.block| == l.size
    && forall n :: 0 <= n < l.ninodes ==> |m.inode[n].addrs| == NDIRECT + 1
  }

  /** A place that can hold a block pointer: a direct entry, the indirect pointer, or an entry of the indirect block. */
  datatype Slot = Direct(n: nat, i: nat) | Indirect(n: nat) | Entry(n: nat, i: nat)

  predicate SlotOk(l: Layout, s: Slot) {
    s.n < l.ninodes && (s.Direct? ==> s.i < NDIRECT) && (s.Entry? ==> s.i < NINDIRECT)
  }

  /** The pointer held there. */
  function Ptr(l: Layout, m: Image, s: Slot): (b: Word)
    requires Sized(l, m) && SlotOk(l, s)
  {
    match s
    case Direct(n, i) => m.inode[n].addrs[i]
    case Indirect(n) => m.inode[n].addrs[NDIRECT]
    case Entry(n, i) =>
      var b := m.inode[n].addrs[NDIRECT];
      if 0 < b < l.size then GetWord(m.block[b], i) else 0
  }

  /** The slot that maps block `bn` of file `n`. */
  function SlotOf(n: nat, bn: nat): (s: Slot) {
    if bn < NDIRECT then Direct(n, bn) else Entry(n, bn - NDIRECT)
  }

  /** Pointers and allocated data blocks are in one-to-one correspondence, and the free map marks exactly the metadata
      and the allocated blocks. */
  ghost predicate Owned(l: Layout, m: Image, bitmap: seq<bool>, owner: map<nat, Slot>)
  {
    && Sized(l, m) && |bitmap| == l.size
    && (forall s :: SlotOk(l, s) && Ptr(l, m, s) != 0 ==> Ptr(l, m, s) in owner && owner[Ptr(l, m, s)] == s)
    && (forall b :: b in owner ==> l.datastart <= b < l.size && SlotOk(l, owner[b]) && Ptr(l, m, owner[b]) == b)
    && (forall b :: 0 <= b < l.size ==> (bitmap[b] <==> b < l.datastart || b in owner))
  }

  /** Hence no two pointers are equal, every pointer names an allocated data block, and no data block is lost. */
  lemma OwnedMeans(l: Layout, m: Image, bitmap: seq<bool>, owner: map<nat, Slot>)
    requires Owned(l, m, bitmap, owner)
    ensures forall s, t :: SlotOk(l, s) && SlotOk(l, t) && Ptr(l, m, s) == Ptr(l, m, t) != 0 ==> s == t
    ensures forall s :: SlotOk(l, s) && Ptr(l, m, s) != 0 ==>
      l.datastart <= Ptr(l, m, s) < l.size && bitmap[Ptr(l, m, s)]
    ensures forall b :: l.datastart <= b < l.size && bitmap[b] ==> exists s :: SlotOk(l, s) && Ptr(l, m, s) == b
  {
    forall b | l.datastart <= b < l.size && bitmap[b]
      ensures exists s :: SlotOk(l, s) && Ptr(l, m, s) == b
    {
      assert SlotOk(l, owner[b]) && Ptr(l, m, owner[b]) == b;
    }
  }

  // ---- single changes ----

  predicate Free(l: Layout, bitmap: seq<bool>, b: nat) {
    |bitmap| == l.size && b < l.size && !bitmap[b]
  }

  /** No pointer is into, or held in, a free block. */
  lemma FreeUnused(l: Layout, m: Image, bitmap: seq<bool>, owner: map<nat, Slot>, b: nat, z: Block)
    requires Owned(l, m, bitmap, owner) && Free(l, bitmap, b)
    ensures l.datastart <= b && b !in owner
    ensures Sized(l, m.(block := m.block[b := z]))
    ensures forall s :: SlotOk(l, s) ==> Ptr(l, m.(block := m.block[b := z]), s) == Ptr(l, m, s) != b
    ensures Owned(l, m.(block := m.block[b := z]), bitmap, owner)
  {
    var m' := m.(block := m.block[b := z]);
    forall s | SlotOk(l, s)
      ensures Ptr(l, m', s) == Ptr(l, m, s) != b
    {
      assert Ptr(l, m, Indirect(s.n)) != b;
    }
  }

  function SetAddr(m: Image, n: nat, i: nat, b: Word): (m': Image)
    requires n < |m.inode| && i < |m.inode[n].addrs|
  {
    m.(inode := m.inode[n := m.inode[n].(addrs := m.inode[n].addrs[i := b])])
  }

  /** balloc's block `b`, zeroed, stored in a direct entry. */
  lemma DirectSet(l: Layout, m: Image, bitmap: seq<bool>, owner: map<nat, Slot>, n: nat, i: nat, b: Word)
    requires Owned(l, m, bitmap, owner) && Free(l, bitmap, b) && n < l.ninodes && i < NDIRECT
    requires Ptr(l, m, Direct(n, i)) == 0
    ensures var m' := SetAddr(m, n, i, b);
      && Owned(l, m', bitmap[b := true], owner[b := Direct(n, i)])
      && forall s :: SlotOk(l, s) ==> Ptr(l, m', s) == if s == Direct(n, i) then b else Ptr(l, m, s)
  {
    FreeUnused(l, m, bitmap, owner, b, m.block[b]);
    var m' := SetAddr(m, n, i, b);
    forall s | SlotOk(l, s)
      ensures Ptr(l, m', s) == if s == Direct(n, i) then b else Ptr(l, m, s)
    {
    }
  }

  lemma IndirectSet(l: Layout, m: Image, bitmap: seq<bool>, owner: map<nat, Slot>, n: nat, b: Word)
    requires Owned(l, m, bitmap, owner) && Free(l, bitmap, b) && n < l.ninodes
    requires Ptr(l, m, Indirect(n)) == 0 && m.block[b] == ZeroBlock
    ensures var m' := SetAddr(m, n, NDIRECT, b);
      && Owned(l, m', bitmap[b := true], owner[b := Indirect(n)])
      && forall s :: SlotOk(l, s) ==> Ptr(l, m', s) == if s == Indirect(n) then b else Ptr(l, m, s)
  {
    FreeUnused(l, m, bitmap, owner, b, m.block[b]);
    var m' := SetAddr(m, n, NDIRECT, b);
    forall s | SlotOk(l, s)
      ensures Ptr(l, m', s) == if s == Indirect(n) then b else Ptr(l, m, s)
    {
      if s.Entry? && s.n == n {
        ZeroBlockWords(s.i);
      }
    }
  }

  lemma EntrySet(l: Layout, m: Image, bitmap: seq<bool>, owner: map<nat, Slot>, n: nat, i: nat, b: Word)
    requires Owned(l, m, bitmap, owner) && Free(l, bitmap, b) && n < l.ninodes && i < NINDIRECT
    requires Ptr(l, m, Indirect(n)) != 0 && Ptr(l, m, Entry(n, i)) == 0
    ensures Ptr(l, m, Indirect(n)) < l.size
    ensures var ind := Ptr(l, m, Indirect(n));
      var m' := m.(block := m.block[ind := PutWord(m.block[ind], i, b)]);
      && Owned(l, m', bitmap[b := true], owner[b := Entry(n, i)])
      && forall s :: SlotOk(l, s) ==> Ptr(l, m', s) == if s == Entry(n, i) then b else Ptr(l, m, s)
  {
    FreeUnused(l, m, bitmap, owner, b, m.block[b]);
    var ind := Ptr(l, m, Indirect(n));
    var m' := m.(block := m.block[ind := PutWord(m.block[ind], i, b)]);
    PutWordGet(m.block[ind], i, b);
    forall s | SlotOk(l, s)
      ensures Ptr(l, m', s) == if s == Entry(n, i) then b else Ptr(l, m, s)
    {
      if s.Entry? && s.n != n {
        assert Ptr(l, m, Indirect(s.n)) != ind;
      }
    }
  }

  /** New contents in a data block change no pointer. */
  lemma DataSet(l: Layout, m: Image, bitmap: seq<bool>, owner: map<nat, Slot>, s: Slot, z: Block)
    requires Owned(l, m, bitmap, owner) && SlotOk(l, s) && !s.Indirect? && Ptr(l, m, s) != 0
    ensures Ptr(l, m, s) < l.size
    ensures var m' := m.(block := m.block[Ptr(l, m, s) := z]);
      && Owned(l, m', bitmap, owner)
      && forall t :: SlotOk(l, t) ==> Ptr(l, m', t) == Ptr(l, m, t)
  {
    var b := Ptr(l, m, s);
    var m' := m.(block := m.block[b := z]);
    forall t | SlotOk(l, t)
      ensures Ptr(l, m', t) == Ptr(l, m, t)
    {
      if t.Entry? {
        assert Ptr(l, m, Indirect(t.n)) != b;
      }
    }
  }
}
