/** Files as byte sequences: what a file contains, and what growing its block map and splicing bytes into its blocks
    do to the contents of every file. */
module FsContents {
  import opened Basics
  import opened Blocks
  import opened FsImage

  function Addr(l: Layout, m: Image, n: nat, bn: nat): (b: Word)
    requires Sized(l, m) && n < l.ninodes && bn < MAXFILE
  {
    Ptr(l, m, SlotOf(n, bn))
  }

  /** Byte `k` of file `n`, counted from the start of its first block. */
  function ByteAt(l: Layout, m: Image, n: nat, k: nat): (x: Byte)
    requires Sized(l, m) && n < l.ninodes && k < MAXFILE * BSIZE
  {
    var b := Addr(l, m, n, k / BSIZE);
    if b < l.size then m.block[b][k % BSIZE] else 0
  }

  /** Every block below the size is allocated. */
  ghost predicate NoHoles(l: Layout, m: Image, n: nat)
    requires Sized(l, m) && n < l.ninodes
  {
    && m.inode[n].size <= MAXFILE * BSIZE
    && forall bn :: 0 <= bn < MAXFILE && bn * BSIZE < m.inode[n].size ==> Addr(l, m, n, bn) != 0
  }

  function Contents(l: Layout, m: Image, n: nat): (s: seq<Byte>)
    requires Sized(l, m) && n < l.ninodes && m.inode[n].size <= MAXFILE * BSIZE
    ensures |s| == m.inode[n].size
  {
    seq(m.inode[n].size, k requires 0 <= k < m.inode[n].size => ByteAt(l, m, n, k))
  }

  /** Every file but `n` is whole, before and after, and has the same bytes. */
  ghost predicate SameOthers(l: Layout, m0: Image, m: Image, n: nat)
    requires Sized(l, m0) && Sized(l, m)
  {
    forall k :: 0 <= k < l.ninodes && k != n ==> SameFile(l, m0, m, k)
  }

  ghost predicate SameFile(l: Layout, m0: Image, m: Image, k: nat)
    requires Sized(l, m0) && Sized(l, m) && k < l.ninodes
  {
    NoHoles(l, m0, k) && NoHoles(l, m, k) && Contents(l, m, k) == Contents(l, m0, k)
  }

  /** `was` with `data` stored from `off` on, longer if need be. */
  function Overwritten(was: seq<Byte>, off: nat, data: seq<Byte>): (r: seq<Byte>)
    requires off <= |was|
  {
    was[..off] + data + if off + |data| <= |was| then was[off + |data|..] else []
  }

  /** `m'` is `m` after at most slot `t` has been filled: no other pointer and no data changed. */
  ghost predicate Added(l: Layout, m: Image, m': Image, t: Slot)
    requires Sized(l, m) && Sized(l, m')
  {
    && (forall s :: SlotOk(l, s) && (s != t || Ptr(l, m, s) != 0) ==> Ptr(l, m', s) == Ptr(l, m, s))
    && (forall s :: SlotOk(l, s) && !s.Indirect? && 0 < Ptr(l, m, s) < l.size ==>
          m'.block[Ptr(l, m, s)] == m.block[Ptr(l, m, s)])
  }

  /** `m'` is `m` after block `bn` of file `n` has been mapped: no existing pointer and no data changed, and at most
      that block's slot and the indirect slot are new. */
  ghost predicate Mapped(l: Layout, m: Image, m': Image, n: nat, bn: nat)
    requires Sized(l, m) && Sized(l, m')
  {
    && (forall s :: SlotOk(l, s) && (Ptr(l, m, s) != 0 || (s != SlotOf(n, bn) && s != Indirect(n))) ==>
          Ptr(l, m', s) == Ptr(l, m, s))
    && (forall s :: SlotOk(l, s) && !s.Indirect? && 0 < Ptr(l, m, s) < l.size ==>
          m'.block[Ptr(l, m, s)] == m.block[Ptr(l, m, s)])
  }

  lemma AddedTwice(l: Layout, m: Image, m1: Image, m2: Image, n: nat, bn: nat)
    requires Sized(l, m) && Sized(l, m1) && Sized(l, m2) && n < l.ninodes && NDIRECT <= bn < MAXFILE
    requires Added(l, m, m1, Indirect(n)) && Added(l, m1, m2, SlotOf(n, bn))
    ensures Mapped(l, m, m2, n, bn) && Addr(l, m1, n, bn) == Addr(l, m, n, bn)
  {
    forall s | SlotOk(l, s) && !s.Indirect? && 0 < Ptr(l, m, s) < l.size
      ensures m2.block[Ptr(l, m, s)] == m.block[Ptr(l, m, s)]
    {
      assert Ptr(l, m1, s) == Ptr(l, m, s);
    }
  }

  function Splice(b: Block, at: nat, piece: seq<Byte>): (r: Block)
    requires at + |piece| <= BSIZE
  {
    b[..at] + piece + b[at + |piece|..]
  }

  // ---- `m` is `m0` after the bytes `data` have been stored in file `n` from `off` on ----

  /** Pointers that were there stay; other files keep their pointers and their data. */
  ghost predicate Kept(l: Layout, m0: Image, m: Image, n: nat)
    requires Sized(l, m0) && Sized(l, m)
  {
    && (forall s :: SlotOk(l, s) && (Ptr(l, m0, s) != 0 || s.n != n) ==> Ptr(l, m, s) == Ptr(l, m0, s))
    && (forall s :: SlotOk(l, s) && !s.Indirect? && s.n != n && 0 < Ptr(l, m0, s) < l.size ==>
          m.block[Ptr(l, m0, s)] == m0.block[Ptr(l, m0, s)])
  }

  /** The blocks that hold bytes `lo` to `hi` are mapped. */
  ghost predicate Covered(l: Layout, m: Image, n: nat, lo: nat, hi: nat)
    requires Sized(l, m) && n < l.ninodes
  {
    forall bn :: 0 <= bn < MAXFILE && lo < (bn + 1) * BSIZE && bn * BSIZE < hi ==> Addr(l, m, n, bn) != 0
  }

  /** Blocks that start at or after byte `hi` are mapped as before. */
  ghost predicate SameBeyond(l: Layout, m0: Image, m: Image, n: nat, hi: nat)
    requires Sized(l, m0) && Sized(l, m) && n < l.ninodes
  {
    forall bn :: 0 <= bn < MAXFILE && hi <= bn * BSIZE ==> Addr(l, m, n, bn) == Addr(l, m0, n, bn)
  }

  /** Bytes of mapped blocks outside `lo` to `hi` are as before. */
  ghost predicate SameOutside(l: Layout, m0: Image, m: Image, n: nat, lo: nat, hi: nat)
    requires Sized(l, m0) && Sized(l, m) && n < l.ninodes
  {
    forall k :: 0 <= k < MAXFILE * BSIZE && Addr(l, m0, n, k / BSIZE) != 0 && !(lo <= k < hi) ==>
      ByteAt(l, m, n, k) == ByteAt(l, m0, n, k)
  }

  ghost predicate Stored(l: Layout, m: Image, n: nat, off: nat, data: seq<Byte>)
    requires Sized(l, m) && n < l.ninodes && off + |data| <= MAXFILE * BSIZE
  {
    forall k :: off <= k < off + |data| ==> ByteAt(l, m, n, k) == data[k - off]
  }

  ghost predicate Wrote(l: Layout, m0: Image, m: Image, n: nat, off: nat, data: seq<Byte>)
    requires Sized(l, m0) && Sized(l, m) && n < l.ninodes && off + |data| <= MAXFILE * BSIZE
  {
    && Kept(l, m0, m, n) && (data != [] ==> Covered(l, m, n, off, off + |data|))
    && SameBeyond(l, m0, m, n, off + |data|)
    && SameOutside(l, m0, m, n, off, off + |data|) && Stored(l, m, n, off, data)
  }

  lemma WroteNothing(l: Layout, m: Image, n: nat, off: nat)
    requires Sized(l, m) && n < l.ninodes && off <= MAXFILE * BSIZE
    ensures Wrote(l, m, m, n, off, [])
  {
  }

  function SpliceAt(l: Layout, m: Image, a: nat, at: nat, piece: seq<Byte>): (m': Image)
    requires Sized(l, m) && a < l.size && at + |piece| <= BSIZE
    ensures Sized(l, m')
  {
    m.(block := m.block[a := Splice(m.block[a], at, piece)])
  }

  /** Splicing into one mapped block changes exactly the bytes spliced. */
  lemma SplicedByte(l: Layout, m: Image, bitmap: seq<bool>, owner: map<nat, Slot>,
                    n: nat, pos: nat, piece: seq<Byte>, k: nat)
    requires Owned(l, m, bitmap, owner) && n < l.ninodes && pos < MAXFILE * BSIZE && pos % BSIZE + |piece| <= BSIZE
    requires 0 < Addr(l, m, n, pos / BSIZE) < l.size && k < MAXFILE * BSIZE && Addr(l, m, n, k / BSIZE) != 0
    ensures ByteAt(l, SpliceAt(l, m, Addr(l, m, n, pos / BSIZE), pos % BSIZE, piece), n, k)
      == if pos <= k < pos + |piece| then piece[k - pos] else ByteAt(l, m, n, k)
  {
    var (bn, c) := (pos / BSIZE, k / BSIZE);
    var a := Addr(l, m, n, bn);
    DataSet(l, m, bitmap, owner, SlotOf(n, bn), Splice(m.block[a], pos % BSIZE, piece));
    if c != bn {
      assert SlotOf(n, c) != SlotOf(n, bn);
      assert owner[a] == SlotOf(n, bn) && owner[Addr(l, m, n, c)] == SlotOf(n, c);
    }
  }

  /** One turn of writei's loop: map the block, splice one piece into it. */
  lemma WroteMore(l: Layout, m0: Image, m: Image, m1: Image, bitmap: seq<bool>, owner: map<nat, Slot>,
                  n: nat, off: nat, data: seq<Byte>, piece: seq<Byte>, pos: nat, a: nat)
    requires Sized(l, m0) && Sized(l, m) && n < l.ninodes && off + |data| + |piece| <= MAXFILE * BSIZE
    requires Wrote(l, m0, m, n, off, data) && piece != [] && pos == off + |data| && pos % BSIZE + |piece| <= BSIZE
    requires Owned(l, m1, bitmap, owner) && Mapped(l, m, m1, n, pos / BSIZE)
    requires a == Addr(l, m1, n, pos / BSIZE) && 0 < a < l.size
    ensures Owned(l, SpliceAt(l, m1, a, pos % BSIZE, piece), bitmap, owner)
    ensures Wrote(l, m0, SpliceAt(l, m1, a, pos % BSIZE, piece), n, off, data + piece)
  {
    var bn := pos / BSIZE;
    DataSet(l, m1, bitmap, owner, SlotOf(n, bn), Splice(m1.block[a], pos % BSIZE, piece));
    var m2 := SpliceAt(l, m1, a, pos % BSIZE, piece);
    MoreKept(l, m0, m, m1, bitmap, owner, n, bn, a, m2);
    MoreMapped(l, m0, m, m1, m2, n, off, pos, pos + |piece|);
    MoreBytes(l, m0, m, m1, bitmap, owner, n, off, data, piece, pos, a);
  }

  lemma MoreKept(l: Layout, m0: Image, m: Image, m1: Image, bitmap: seq<bool>, owner: map<nat, Slot>,
                 n: nat, bn: nat, a: nat, m2: Image)
    requires Sized(l, m0) && Sized(l, m) && n < l.ninodes && bn < MAXFILE && Kept(l, m0, m, n)
    requires Owned(l, m1, bitmap, owner) && Mapped(l, m, m1, n, bn)
    requires a == Addr(l, m1, n, bn) && 0 < a < l.size && Sized(l, m2)
    requires forall s :: SlotOk(l, s) ==> Ptr(l, m2, s) == Ptr(l, m1, s)
    requires forall b :: 0 <= b < l.size && b != a ==> m2.block[b] == m1.block[b]
    ensures Kept(l, m0, m2, n)
  {
    forall s | SlotOk(l, s) && !s.Indirect? && s.n != n && 0 < Ptr(l, m0, s) < l.size
      ensures m2.block[Ptr(l, m0, s)] == m0.block[Ptr(l, m0, s)]
    {
      assert Ptr(l, m, s) == Ptr(l, m0, s) && Ptr(l, m1, s) == Ptr(l, m, s);
      assert owner[a] == SlotOf(n, bn) && owner[Ptr(l, m1, s)] == s;
    }
  }

  lemma MoreMapped(l: Layout, m0: Image, m: Image, m1: Image, m2: Image, n: nat, off: nat, pos: nat, end: nat)
    requires Sized(l, m0) && Sized(l, m) && Sized(l, m1) && Sized(l, m2) && n < l.ninodes
    requires off <= pos < end <= MAXFILE * BSIZE && end <= (pos / BSIZE + 1) * BSIZE
    requires (off < pos ==> Covered(l, m, n, off, pos)) && SameBeyond(l, m0, m, n, pos)
    requires Mapped(l, m, m1, n, pos / BSIZE) && Addr(l, m1, n, pos / BSIZE) != 0
    requires forall s :: SlotOk(l, s) ==> Ptr(l, m2, s) == Ptr(l, m1, s)
    ensures Covered(l, m2, n, off, end) && SameBeyond(l, m0, m2, n, end)
  {
    forall bn | 0 <= bn < MAXFILE && off < (bn + 1) * BSIZE && bn * BSIZE < end
      ensures Addr(l, m2, n, bn) != 0
    {
      if bn != pos / BSIZE {
        assert Addr(l, m, n, bn) != 0;
        assert Ptr(l, m1, SlotOf(n, bn)) == Ptr(l, m, SlotOf(n, bn));
      }
      assert Ptr(l, m2, SlotOf(n, bn)) == Ptr(l, m1, SlotOf(n, bn));
    }
    forall bn | 0 <= bn < MAXFILE && end <= bn * BSIZE
      ensures Addr(l, m2, n, bn) == Addr(l, m0, n, bn)
    {
      assert Ptr(l, m2, SlotOf(n, bn)) == Ptr(l, m1, SlotOf(n, bn));
      assert SlotOf(n, bn) != SlotOf(n, pos / BSIZE) && SlotOf(n, bn) != Indirect(n);
      assert Addr(l, m, n, bn) == Addr(l, m0, n, bn);
    }
  }

  lemma MappedByte(l: Layout, m: Image, m1: Image, n: nat, bn: nat, k: nat)
    requires Sized(l, m) && Sized(l, m1) && n < l.ninodes && Mapped(l, m, m1, n, bn) && k < MAXFILE * BSIZE
    requires Addr(l, m, n, k / BSIZE) != 0
    ensures Addr(l, m1, n, k / BSIZE) == Addr(l, m, n, k / BSIZE) && ByteAt(l, m1, n, k) == ByteAt(l, m, n, k)
  {
    var s := SlotOf(n, k / BSIZE);
    assert SlotOk(l, s) && Ptr(l, m, s) != 0;
  }

  lemma MoreBytes(l: Layout, m0: Image, m: Image, m1: Image, bitmap: seq<bool>, owner: map<nat, Slot>,
                  n: nat, off: nat, data: seq<Byte>, piece: seq<Byte>, pos: nat, a: nat)
    requires Sized(l, m0) && Sized(l, m) && n < l.ninodes && off + |data| + |piece| <= MAXFILE * BSIZE
    requires Wrote(l, m0, m, n, off, data) && piece != [] && pos == off + |data| && pos % BSIZE + |piece| <= BSIZE
    requires Owned(l, m1, bitmap, owner) && Mapped(l, m, m1, n, pos / BSIZE)
    requires a == Addr(l, m1, n, pos / BSIZE) && 0 < a < l.size
    ensures var m2 := SpliceAt(l, m1, a, pos % BSIZE, piece);
      SameOutside(l, m0, m2, n, off, pos + |piece|) && Stored(l, m2, n, off, data + piece)
  {
    var m2 := SpliceAt(l, m1, a, pos % BSIZE, piece);
    forall k | 0 <= k < MAXFILE * BSIZE && Addr(l, m0, n, k / BSIZE) != 0 && !(off <= k < pos + |piece|)
      ensures ByteAt(l, m2, n, k) == ByteAt(l, m0, n, k)
    {
      assert Ptr(l, m, SlotOf(n, k / BSIZE)) == Ptr(l, m0, SlotOf(n, k / BSIZE));
      MappedByte(l, m, m1, n, pos / BSIZE, k);
      SplicedByte(l, m1, bitmap, owner, n, pos, piece, k);
    }
    forall k | off <= k < pos + |piece|
      ensures ByteAt(l, m2, n, k) == (data + piece)[k - off]
    {
      if k < pos {
        assert Addr(l, m, n, k / BSIZE) != 0;
        MappedByte(l, m, m1, n, pos / BSIZE, k);
      } else {
        assert k / BSIZE == pos / BSIZE;
      }
      SplicedByte(l, m1, bitmap, owner, n, pos, piece, k);
    }
  }

  /** Inode tables that differ at most in the block pointers of inode `n`. */
  predicate OnlyAddrs(was: seq<Inode>, now: seq<Inode>, n: nat) {
    && |now| == |was|
    && (n < |was| ==> now[n] == was[n].(addrs := now[n].addrs))
    && forall k :: 0 <= k < |was| && k != n ==> now[k] == was[k]
  }

  function Resized(m: Image, n: nat, size: Word): (m': Image)
    requires n < |m.inode|
  {
    m.(inode := m.inode[n := m.inode[n].(size := size)])
  }

  lemma ResizedSame(l: Layout, m: Image, n: nat, size: Word)
    requires Sized(l, m) && n < l.ninodes
    ensures Sized(l, Resized(m, n, size))
    ensures forall s :: SlotOk(l, s) ==> Ptr(l, Resized(m, n, size), s) == Ptr(l, m, s)
    ensures forall k, i :: 0 <= k < l.ninodes && 0 <= i < MAXFILE * BSIZE ==>
      ByteAt(l, Resized(m, n, size), k, i) == ByteAt(l, m, k, i)
  {
  }

  ghost predicate AllNoHoles(l: Layout, m: Image)
    requires Sized(l, m)
  {
    forall k :: 0 <= k < l.ninodes ==> NoHoles(l, m, k)
  }

  /** Other files are as they were. */
  lemma WroteOthers(l: Layout, m0: Image, m: Image, n: nat, off: nat, data: seq<Byte>, k: nat)
    requires Sized(l, m0) && Sized(l, m) && n < l.ninodes && off + |data| <= MAXFILE * BSIZE
    requires Wrote(l, m0, m, n, off, data) && AllNoHoles(l, m0)
    requires OnlyAddrs(m0.inode, m.inode, n) && k < l.ninodes && k != n
    ensures NoHoles(l, m, k) && Contents(l, m, k) == Contents(l, m0, k)
  {
    assert m.inode[k] == m0.inode[k];
    assert NoHoles(l, m0, k);
    forall i | 0 <= i < m.inode[k].size
      ensures ByteAt(l, m, k, i) == ByteAt(l, m0, k, i)
    {
      assert Ptr(l, m, SlotOf(k, i / BSIZE)) == Ptr(l, m0, SlotOf(k, i / BSIZE));
    }
    forall bn | 0 <= bn < MAXFILE && bn * BSIZE < m.inode[k].size
      ensures Addr(l, m, k, bn) != 0
    {
      assert Addr(l, m0, k, bn) != 0;
      assert Ptr(l, m, SlotOf(k, bn)) == Ptr(l, m0, SlotOf(k, bn));
    }
  }

  /** The file written to has exactly the new bytes. */
  lemma WroteContents(l: Layout, m0: Image, m: Image, n: nat, off: nat, data: seq<Byte>, size: Word)
    requires Sized(l, m0) && Sized(l, m) && n < l.ninodes && off + |data| <= MAXFILE * BSIZE
    requires Wrote(l, m0, m, n, off, data) && NoHoles(l, m0, n) && OnlyAddrs(m0.inode, m.inode, n)
    requires off <= m0.inode[n].size
    requires size == if off + |data| > m0.inode[n].size then off + |data| else m0.inode[n].size
    ensures Sized(l, Resized(m, n, size)) && NoHoles(l, Resized(m, n, size), n)
    ensures Contents(l, Resized(m, n, size), n) == Overwritten(Contents(l, m0, n), off, data)
  {
    ResizedSame(l, m, n, size);
    var m' := Resized(m, n, size);
    forall bn | 0 <= bn < MAXFILE && bn * BSIZE < size
      ensures Addr(l, m', n, bn) != 0
    {
      assert Ptr(l, m', SlotOf(n, bn)) == Ptr(l, m, SlotOf(n, bn));
      WroteMapped(l, m0, m, n, off, data, bn);
    }
    forall k | 0 <= k < size
      ensures ByteAt(l, m', n, k) == Overwritten(Contents(l, m0, n), off, data)[k]
    {
      WroteByte(l, m0, m, n, off, data, k);
    }
  }

  lemma WroteMapped(l: Layout, m0: Image, m: Image, n: nat, off: nat, data: seq<Byte>, bn: nat)
    requires Sized(l, m0) && Sized(l, m) && n < l.ninodes && off + |data| <= MAXFILE * BSIZE
    requires Wrote(l, m0, m, n, off, data) && NoHoles(l, m0, n)
    requires off <= m0.inode[n].size && bn < MAXFILE
    requires bn * BSIZE < off + |data| || bn * BSIZE < m0.inode[n].size
    ensures Addr(l, m, n, bn) != 0
  {
    if bn * BSIZE < m0.inode[n].size {
      assert Addr(l, m0, n, bn) != 0;
      assert Ptr(l, m, SlotOf(n, bn)) == Ptr(l, m0, SlotOf(n, bn));
    } else {
      assert Covered(l, m, n, off, off + |data|);
    }
  }

  lemma WroteByte(l: Layout, m0: Image, m: Image, n: nat, off: nat, data: seq<Byte>, k: nat)
    requires Sized(l, m0) && Sized(l, m) && n < l.ninodes && off + |data| <= MAXFILE * BSIZE
    requires Wrote(l, m0, m, n, off, data) && NoHoles(l, m0, n)
    requires off <= m0.inode[n].size && (k < off + |data| || k < m0.inode[n].size)
    ensures ByteAt(l, m, n, k) == Overwritten(Contents(l, m0, n), off, data)[k]
  {
    hide Ptr, Kept, Covered, SameBeyond;
    if !(off <= k < off + |data|) {
      assert k / BSIZE * BSIZE <= k < m0.inode[n].size;
      assert Addr(l, m0, n, k / BSIZE) != 0;
    }
  }

  lemma WroteAll(l: Layout, m0: Image, m: Image, bitmap: seq<bool>, owner: map<nat, Slot>, n: nat, off: nat,
                 data: seq<Byte>, size: Word)
    requires Sized(l, m0) && Owned(l, m, bitmap, owner) && n < l.ninodes && off + |data| <= MAXFILE * BSIZE
    requires Wrote(l, m0, m, n, off, data) && AllNoHoles(l, m0) && OnlyAddrs(m0.inode, m.inode, n)
    requires off <= m0.inode[n].size
    requires size == if off + |data| > m0.inode[n].size then off + |data| else m0.inode[n].size
    ensures var m' := Resized(m, n, size);
      && Owned(l, m', bitmap, owner) && AllNoHoles(l, m') && NoHoles(l, m0, n) && NoHoles(l, m', n)
      && SameOthers(l, m0, m', n) && Contents(l, m', n) == Overwritten(Contents(l, m0, n), off, data)
  {
    hide Wrote;
    var m' := Resized(m, n, size);
    assert NoHoles(l, m0, n);
    ResizedSame(l, m, n, size);
    WroteContents(l, m0, m, n, off, data, size);
    forall k | 0 <= k < l.ninodes && k != n
      ensures NoHoles(l, m', k) && SameFile(l, m0, m', k)
    {
      assert NoHoles(l, m0, k);
      WroteOthers(l, m0, m, n, off, data, k);
      ResizedOther(l, m, n, size, k);
    }
  }

  lemma ResizedOther(l: Layout, m: Image, n: nat, size: Word, k: nat)
    requires Sized(l, m) && n < l.ninodes && k < l.ninodes && k != n && NoHoles(l, m, k)
    ensures Sized(l, Resized(m, n, size)) && NoHoles(l, Resized(m, n, size), k)
    ensures Contents(l, Resized(m, n, size), k) == Contents(l, m, k)
  {
    ResizedSame(l, m, n, size);
    forall bn | 0 <= bn < MAXFILE
      ensures Addr(l, Resized(m, n, size), k, bn) == Addr(l, m, k, bn)
    {
    }
  }
}
