/** What a write allocates and logs: exactly which blocks, how many at most, when it is that many, and when there are
    not enough free blocks. */
module FsLog {
  import opened Basics
  import opened Blocks
  import opened FsImage
  import opened FsContents

  /** The image, the free map and the blocks logged so far. */
  datatype Moment = Moment(m: Image, bitmap: seq<bool>, logged: set<nat>)

  /** Blocks whose bit differs. */
  function Bits(a: seq<bool>, b: seq<bool>): (r: set<nat>) {
    set x: nat | x < |a| && x < |b| && a[x] != b[x]
  }

  /** Their blocks of the free map. */
  function Maps(l: Layout, s: set<nat>): (r: set<nat>) {
    set x | x in s :: x / BPB + l.bmapstart
  }

  /** Bits are only set. */
  ghost predicate Marks(a: seq<bool>, b: seq<bool>) {
    |b| == |a| && forall x :: 0 <= x < |a| && a[x] ==> b[x]
  }

  predicate Full(bitmap: seq<bool>) {
    forall b :: 0 <= b < |bitmap| ==> bitmap[b]
  }

  /** Free blocks. */
  function Frees(bitmap: seq<bool>): (r: set<nat>) {
    set x: nat | x < |bitmap| && !bitmap[x]
  }

  function Ind(l: Layout, m: Image, n: nat): (b: Word)
    requires Sized(l, m) && n < l.ninodes
  {
    Ptr(l, m, Indirect(n))
  }

  /** Block `bn` is reached through an entry of the indirect block that has yet to be filled. */
  predicate NewEntry(l: Layout, m: Image, n: nat, bn: nat)
    requires Sized(l, m) && n < l.ninodes && bn < MAXFILE
  {
    bn >= NDIRECT && Addr(l, m, n, bn) == 0
  }

  /** Blocks that mapping block `bn` has to allocate. */
  function NewBlocks(l: Layout, m: Image, n: nat, bn: nat): (r: nat)
    requires Sized(l, m) && n < l.ninodes && bn < MAXFILE
  {
    (if Addr(l, m, n, bn) == 0 then 1 else 0) + (if NewEntry(l, m, n, bn) && Ind(l, m, n) == 0 then 1 else 0)
  }

  // ---- mapping one block ----

  /** Block `x` has been allocated: its bit is set, and it, its free-map block and those of `extra` are logged. */
  ghost predicate Took(l: Layout, a: Moment, b: Moment, x: nat, extra: set<nat>) {
    && x < |a.bitmap| && !a.bitmap[x] && b.bitmap == a.bitmap[x := true]
    && b.logged == a.logged + {x / BPB + l.bmapstart, x} + extra
  }

  /** Slot `s` is filled: it was, and nothing happened; or a block of zeroes has been allocated for it. */
  ghost predicate Filled(l: Layout, a: Moment, b: Moment, s: Slot, extra: set<nat>)
    requires Sized(l, a.m) && Sized(l, b.m) && SlotOk(l, s)
  {
    && Added(l, a.m, b.m, s) && 0 < Ptr(l, b.m, s) < l.size
    && if Ptr(l, a.m, s) != 0 then b == a
       else Took(l, a, b, Ptr(l, b.m, s), extra) && b.m.block[Ptr(l, b.m, s)] == ZeroBlock
  }

  /** What mapping block `bn` of file `n` logs: for a block that was missing, the block, the indirect block that lists
      it, and the free-map blocks of what was allocated; otherwise nothing. */
  ghost function MapCost(l: Layout, a: Moment, b: Moment, n: nat, bn: nat): (r: set<nat>)
    requires Sized(l, a.m) && Sized(l, b.m) && n < l.ninodes && bn < MAXFILE
  {
    Maps(l, Bits(a.bitmap, b.bitmap)) + (if Addr(l, a.m, n, bn) == 0 then {Addr(l, b.m, n, bn)} else {})
    + (if NewEntry(l, a.m, n, bn) then {Ind(l, b.m, n)} else {})
  }

  /** As many bits are set as blocks were needed. */
  ghost predicate PaidBits(l: Layout, a: Moment, b: Moment, n: nat, bn: nat)
    requires Sized(l, a.m) && n < l.ninodes && bn < MAXFILE
  {
    Marks(a.bitmap, b.bitmap) && |Bits(a.bitmap, b.bitmap)| == NewBlocks(l, a.m, n, bn)
  }

  /** The block is there; the indirect block stays, and is new exactly if the block is its first entry. */
  ghost predicate IndirectKept(l: Layout, m: Image, m': Image, n: nat, bn: nat)
    requires Sized(l, m) && Sized(l, m') && n < l.ninodes && bn < MAXFILE
  {
    && Addr(l, m', n, bn) != 0 && (Ind(l, m, n) != 0 ==> Ind(l, m', n) == Ind(l, m, n))
    && (Ind(l, m', n) == 0 <==> Ind(l, m, n) == 0 && !NewEntry(l, m, n, bn))
  }

  /** Block `bn` of file `n` has been mapped. */
  ghost predicate Paid(l: Layout, a: Moment, b: Moment, n: nat, bn: nat)
    requires Sized(l, a.m) && Sized(l, b.m) && n < l.ninodes && bn < MAXFILE
  {
    && PaidBits(l, a, b, n, bn) && IndirectKept(l, a.m, b.m, n, bn)
    && b.logged == a.logged + MapCost(l, a, b, n, bn)
  }

  /** It has been mapped and written to. */
  ghost predicate PaidStore(l: Layout, a: Moment, b: Moment, n: nat, bn: nat)
    requires Sized(l, a.m) && Sized(l, b.m) && n < l.ninodes && bn < MAXFILE
  {
    && PaidBits(l, a, b, n, bn) && IndirectKept(l, a.m, b.m, n, bn)
    && b.logged == a.logged + MapCost(l, a, b, n, bn) + {Addr(l, b.m, n, bn)}
  }

  /** Block `bn` of file `n` is there: it was, and nothing happened; or it is a block of zeroes that was free. */
  ghost predicate Reached(l: Layout, a: Moment, b: Moment, n: nat, bn: nat)
    requires Sized(l, a.m) && Sized(l, b.m) && n < l.ninodes && bn < MAXFILE
  {
    var x := Addr(l, b.m, n, bn);
    && Paid(l, a, b, n, bn) && Mapped(l, a.m, b.m, n, bn) && 0 < x < l.size
    && if Addr(l, a.m, n, bn) != 0 then b == a else b.m.block[x] == ZeroBlock && x < |a.bitmap| && !a.bitmap[x]
  }

  /** Every block is in use, and fewer than needed have been allocated. */
  ghost predicate RanOut(a: seq<bool>, b: seq<bool>, need: nat) {
    Full(b) && Marks(a, b) && |Bits(a, b)| < need
  }

  lemma OneBit(a: seq<bool>, x: nat)
    requires x < |a| && !a[x]
    ensures Marks(a, a[x := true]) && Bits(a, a[x := true]) == {x}
  {
  }

  lemma NoBits(a: seq<bool>)
    ensures Marks(a, a) && Bits(a, a) == {}
  {
  }

  lemma MapsOne(l: Layout, x: nat)
    ensures Maps(l, {x}) == {x / BPB + l.bmapstart} && Maps(l, {}) == {}
  {
  }

  lemma MapsUnion(l: Layout, s: set<nat>, t: set<nat>)
    ensures Maps(l, s + t) == Maps(l, s) + Maps(l, t)
  {
  }

  lemma BitsTwice(a: seq<bool>, b: seq<bool>, c: seq<bool>)
    requires Marks(a, b) && Marks(b, c)
    ensures Marks(a, c) && Bits(a, c) == Bits(a, b) + Bits(b, c) && |Bits(a, c)| == |Bits(a, b)| + |Bits(b, c)|
  {
    assert Bits(a, b) !! Bits(b, c);
  }

  lemma TookBits(l: Layout, a: Moment, b: Moment, x: nat, extra: set<nat>)
    requires Took(l, a, b, x, extra)
    ensures Marks(a.bitmap, b.bitmap) && |Bits(a.bitmap, b.bitmap)| == 1
    ensures b.logged == a.logged + Maps(l, Bits(a.bitmap, b.bitmap)) + {x} + extra
  {
    OneBit(a.bitmap, x);
    MapsOne(l, x);
  }

  lemma TookTwice(l: Layout, a: Moment, c: Moment, b: Moment, x: nat, y: nat)
    requires Took(l, a, c, x, {}) && Took(l, c, b, y, {x})
    ensures Marks(a.bitmap, b.bitmap) && |Bits(a.bitmap, b.bitmap)| == 2
    ensures b.logged == a.logged + Maps(l, Bits(a.bitmap, b.bitmap)) + {y} + {x}
  {
    TookBits(l, a, c, x, {});
    TookBits(l, c, b, y, {x});
    hide Took, Maps, Bits, Marks;
    BitsTwice(a.bitmap, c.bitmap, b.bitmap);
    MapsUnion(l, Bits(a.bitmap, c.bitmap), Bits(c.bitmap, b.bitmap));
  }

  /** Nothing to do. */
  lemma PaidNothing(l: Layout, a: Moment, n: nat, bn: nat)
    requires Sized(l, a.m) && n < l.ninodes && bn < MAXFILE && Addr(l, a.m, n, bn) != 0
    ensures Paid(l, a, a, n, bn)
  {
    NoBits(a.bitmap);
    MapsOne(l, 0);
  }

  lemma FillNothing(l: Layout, a: Moment, owner: map<nat, Slot>, s: Slot, extra: set<nat>)
    requires Owned(l, a.m, a.bitmap, owner) && SlotOk(l, s) && Ptr(l, a.m, s) != 0
    ensures Filled(l, a, a, s, extra)
  {
  }

  /** balloc's block `x`, zeroed, for entry `i` of the indirect block. */
  lemma FillEntry(l: Layout, a: Moment, b: Moment, owner: map<nat, Slot>, n: nat, i: nat, x: Word)
    requires Owned(l, a.m, a.bitmap, owner) && Free(l, a.bitmap, x) && n < l.ninodes && i < NINDIRECT
    requires 0 < Ind(l, a.m, n) < l.size && Ptr(l, a.m, Entry(n, i)) == 0
    requires var (ind, zeroed) := (Ind(l, a.m, n), a.m.block[x := ZeroBlock]);
      && b.m == a.m.(block := zeroed[ind := PutWord(zeroed[ind], i, x)]) && b.bitmap == a.bitmap[x := true]
      && b.logged == a.logged + {x / BPB + l.bmapstart, x} + {ind}
    ensures Owned(l, b.m, b.bitmap, owner[x := Entry(n, i)])
    ensures Filled(l, a, b, Entry(n, i), {Ind(l, a.m, n)}) && Ptr(l, b.m, Entry(n, i)) == x
  {
    hide GetWord, PutWord;
    FreeUnused(l, a.m, a.bitmap, owner, x, ZeroBlock);
    var m1 := a.m.(block := a.m.block[x := ZeroBlock]);
    EntrySet(l, m1, a.bitmap, owner, n, i, x);
  }

  lemma ReachedDirect(l: Layout, a: Moment, b: Moment, n: nat, bn: nat)
    requires Sized(l, a.m) && Sized(l, b.m) && n < l.ninodes && bn < NDIRECT && Filled(l, a, b, Direct(n, bn), {})
    ensures Reached(l, a, b, n, bn)
  {
    if Addr(l, a.m, n, bn) != 0 {
      PaidNothing(l, a, n, bn);
    } else {
      TookBits(l, a, b, Addr(l, b.m, n, bn), {});
      hide Maps, Bits, Marks;
    }
  }

  lemma FilledPtr(l: Layout, a: Moment, b: Moment, s: Slot, extra: set<nat>)
    requires Sized(l, a.m) && Sized(l, b.m) && SlotOk(l, s) && Filled(l, a, b, s, extra)
    ensures 0 < Ptr(l, b.m, s) < l.size && (Ptr(l, a.m, s) != 0 ==> b == a)
    ensures Ptr(l, a.m, s) == 0 ==> Took(l, a, b, Ptr(l, b.m, s), extra) && b.m.block[Ptr(l, b.m, s)] == ZeroBlock
  {
  }

  lemma PaidThrough(l: Layout, a: Moment, c: Moment, b: Moment, n: nat, i: nat)
    requires Sized(l, a.m) && Sized(l, c.m) && Sized(l, b.m) && n < l.ninodes && i < NINDIRECT
    requires Filled(l, a, c, Indirect(n), {}) && Filled(l, c, b, Entry(n, i), {Ind(l, c.m, n)})
    ensures Paid(l, a, b, n, NDIRECT + i)
  {
    hide Took, Maps, Bits, Marks;
    var (x: nat, y: nat) := (Ind(l, c.m, n), Ptr(l, b.m, Entry(n, i)));
    assert Ptr(l, c.m, Entry(n, i)) == Ptr(l, a.m, Entry(n, i)) && Ind(l, b.m, n) == x;
    if Ind(l, a.m, n) == 0 {
      TookTwice(l, a, c, b, x, y);
    } else if Ptr(l, c.m, Entry(n, i)) == 0 {
      TookBits(l, c, b, y, {x});
    } else {
      PaidNothing(l, a, n, NDIRECT + i);
    }
  }

  lemma ReachedThrough(l: Layout, a: Moment, c: Moment, b: Moment, n: nat, i: nat)
    requires Sized(l, a.m) && Sized(l, c.m) && Sized(l, b.m) && n < l.ninodes && i < NINDIRECT
    requires Filled(l, a, c, Indirect(n), {}) && Filled(l, c, b, Entry(n, i), {Ind(l, c.m, n)})
    ensures Reached(l, a, b, n, NDIRECT + i)
  {
    hide Paid;
    PaidThrough(l, a, c, b, n, i);
    AddedTwice(l, a.m, c.m, b.m, n, NDIRECT + i);
    FilledPtr(l, a, c, Indirect(n), {});
    FilledPtr(l, c, b, Entry(n, i), {Ind(l, c.m, n)});
    hide Filled, Mapped;
  }

  /** There is no block for the indirect block. */
  lemma RanOutIndirect(l: Layout, m: Image, bitmap: seq<bool>, n: nat, i: nat)
    requires Sized(l, m) && n < l.ninodes && i < NINDIRECT && Ind(l, m, n) == 0 && Full(bitmap)
    ensures RanOut(bitmap, bitmap, NewBlocks(l, m, n, NDIRECT + i))
  {
    NoBits(bitmap);
  }

  /** There is one for the indirect block, or it was there, but none for the entry. */
  lemma RanOutEntry(l: Layout, a: Moment, c: Moment, n: nat, i: nat)
    requires Sized(l, a.m) && Sized(l, c.m) && n < l.ninodes && i < NINDIRECT && Ptr(l, c.m, Entry(n, i)) == 0
    requires Filled(l, a, c, Indirect(n), {}) && Full(c.bitmap)
    ensures RanOut(a.bitmap, c.bitmap, NewBlocks(l, a.m, n, NDIRECT + i))
  {
    NoBits(a.bitmap);
    if Ind(l, a.m, n) == 0 {
      TookBits(l, a, c, Ind(l, c.m, n), {});
    }
  }

  /** Pointers that were there stay. */
  ghost predicate Stays(l: Layout, m: Image, m': Image)
    requires Sized(l, m) && Sized(l, m')
  {
    forall s :: SlotOk(l, s) && Ptr(l, m, s) != 0 ==> Ptr(l, m', s) == Ptr(l, m, s)
  }

  /** Bytes stored in the block change no pointer. */
  lemma PaidSplice(l: Layout, a: Moment, b: Moment, owner: map<nat, Slot>, n: nat, pos: nat, piece: seq<Byte>)
    requires Sized(l, a.m) && Owned(l, b.m, b.bitmap, owner) && n < l.ninodes && pos < MAXFILE * BSIZE
    requires Paid(l, a, b, n, pos / BSIZE) && pos % BSIZE + |piece| <= BSIZE && Addr(l, b.m, n, pos / BSIZE) < l.size
    ensures var x := Addr(l, b.m, n, pos / BSIZE);
      PaidStore(l, a, Moment(SpliceAt(l, b.m, x, pos % BSIZE, piece), b.bitmap, b.logged + {x}), n, pos / BSIZE)
  {
    hide Maps, Bits, Marks;
    var x := Addr(l, b.m, n, pos / BSIZE);
    DataSet(l, b.m, b.bitmap, owner, SlotOf(n, pos / BSIZE), Splice(b.m.block[x], pos % BSIZE, piece));
  }

  lemma StaysSplice(l: Layout, m: Image, m1: Image, bitmap: seq<bool>, owner: map<nat, Slot>, n: nat, pos: nat,
                    piece: seq<Byte>)
    requires Sized(l, m) && Owned(l, m1, bitmap, owner) && n < l.ninodes && pos < MAXFILE * BSIZE
    requires Mapped(l, m, m1, n, pos / BSIZE) && 0 < Addr(l, m1, n, pos / BSIZE) < l.size
    requires pos % BSIZE + |piece| <= BSIZE
    ensures Stays(l, m, SpliceAt(l, m1, Addr(l, m1, n, pos / BSIZE), pos % BSIZE, piece))
  {
    var x := Addr(l, m1, n, pos / BSIZE);
    DataSet(l, m1, bitmap, owner, SlotOf(n, pos / BSIZE), Splice(m1.block[x], pos % BSIZE, piece));
  }

  // ---- over a whole write ----

  /** Addresses of the `t` blocks from `first` on. */
  function Data(l: Layout, m: Image, n: nat, first: nat, t: nat): (r: set<nat>)
    requires Sized(l, m) && n < l.ninodes && first + t <= MAXFILE
  {
    if t == 0 then {} else Data(l, m, n, first, t - 1) + {Addr(l, m, n, first + t - 1)}
  }

  /** How many of them have to be allocated. */
  function Missing(l: Layout, m: Image, n: nat, first: nat, t: nat): (r: nat)
    requires Sized(l, m) && n < l.ninodes && first + t <= MAXFILE
    ensures r <= t
  {
    if t == 0 then 0 else Missing(l, m, n, first, t - 1) + if Addr(l, m, n, first + t - 1) == 0 then 1 else 0
  }

  /** Whether the indirect block gets a new entry. */
  predicate NewEntries(l: Layout, m: Image, n: nat, first: nat, t: nat)
    requires Sized(l, m) && n < l.ninodes && first + t <= MAXFILE
  {
    t > 0 && (NewEntries(l, m, n, first, t - 1) || NewEntry(l, m, n, first + t - 1))
  }

  /** The indirect block, if it got an entry. */
  function Entries(l: Layout, m: Image, m': Image, n: nat, first: nat, t: nat): (r: set<nat>)
    requires Sized(l, m) && Sized(l, m') && n < l.ninodes && first + t <= MAXFILE
  {
    if NewEntries(l, m, n, first, t) then {Ind(l, m', n)} else {}
  }

  /** Blocks that writing to the `t` blocks from `first` on has to allocate. */
  function Need(l: Layout, m: Image, n: nat, first: nat, t: nat): (r: nat)
    requires Sized(l, m) && n < l.ninodes && first + t <= MAXFILE
  {
    Missing(l, m, n, first, t) + if NewEntries(l, m, n, first, t) && Ind(l, m, n) == 0 then 1 else 0
  }

  /** What a write has logged when it is done with the `t` blocks from `first` on: those blocks, the indirect block if
      it got an entry, and the free-map blocks of all that was allocated. */
  ghost function Cost(l: Layout, a: Moment, b: Moment, n: nat, first: nat, t: nat): (r: set<nat>)
    requires Sized(l, a.m) && Sized(l, b.m) && n < l.ninodes && first + t <= MAXFILE
  {
    Data(l, b.m, n, first, t) + Maps(l, Bits(a.bitmap, b.bitmap)) + Entries(l, a.m, b.m, n, first, t)
  }

  ghost predicate SpentBits(l: Layout, a: Moment, b: Moment, n: nat, first: nat, t: nat)
    requires Sized(l, a.m) && n < l.ninodes && first + t <= MAXFILE
  {
    Marks(a.bitmap, b.bitmap) && |Bits(a.bitmap, b.bitmap)| == Need(l, a.m, n, first, t)
  }

  ghost predicate SpentIndirect(l: Layout, m: Image, m': Image, n: nat, first: nat, t: nat)
    requires Sized(l, m) && Sized(l, m') && n < l.ninodes && first + t <= MAXFILE
  {
    && (Ind(l, m, n) != 0 ==> Ind(l, m', n) == Ind(l, m, n))
    && (Ind(l, m', n) == 0 <==> Ind(l, m, n) == 0 && !NewEntries(l, m, n, first, t))
  }

  /** A write is done with the `t` blocks from `first` on. */
  ghost predicate Spent(l: Layout, a: Moment, b: Moment, n: nat, first: nat, t: nat)
    requires Sized(l, a.m) && Sized(l, b.m) && n < l.ninodes && first + t <= MAXFILE
  {
    && SpentBits(l, a, b, n, first, t) && SpentIndirect(l, a.m, b.m, n, first, t)
    && b.logged == a.logged + Cost(l, a, b, n, first, t)
  }

  lemma SpentNothing(l: Layout, a: Moment, n: nat, first: nat)
    requires Sized(l, a.m) && n < l.ninodes && first <= MAXFILE
    ensures Spent(l, a, a, n, first, 0)
  {
    NoBits(a.bitmap);
    MapsOne(l, 0);
  }

  lemma {:induction false} DataSame(l: Layout, m: Image, m': Image, n: nat, first: nat, t: nat)
    requires Sized(l, m) && Sized(l, m') && n < l.ninodes && first + t <= MAXFILE
    requires forall bn :: first <= bn < first + t ==> Addr(l, m', n, bn) == Addr(l, m, n, bn)
    ensures Data(l, m', n, first, t) == Data(l, m, n, first, t)
  {
    if t > 0 {
      DataSame(l, m, m', n, first, t - 1);
    }
  }

  lemma DataNext(l: Layout, m: Image, n: nat, first: nat, t: nat)
    requires Sized(l, m) && n < l.ninodes && first + t < MAXFILE
    ensures Data(l, m, n, first, t + 1) == Data(l, m, n, first, t) + {Addr(l, m, n, first + t)}
  {
  }

  /** The next block needs what it needs now that the ones before it are there. */
  lemma NeedNext(l: Layout, m: Image, m': Image, n: nat, first: nat, t: nat)
    requires Sized(l, m) && Sized(l, m') && n < l.ninodes && first + t < MAXFILE
    requires SpentIndirect(l, m, m', n, first, t) && Addr(l, m', n, first + t) == Addr(l, m, n, first + t)
    ensures Need(l, m, n, first, t + 1) == Need(l, m, n, first, t) + NewBlocks(l, m', n, first + t)
  {
    hide Ptr, Addr;
  }

  lemma EntriesNext(l: Layout, a: Image, b: Image, c: Image, n: nat, first: nat, t: nat)
    requires Sized(l, a) && Sized(l, b) && Sized(l, c) && n < l.ninodes && first + t < MAXFILE
    requires SpentIndirect(l, a, b, n, first, t) && IndirectKept(l, b, c, n, first + t)
    requires Addr(l, b, n, first + t) == Addr(l, a, n, first + t)
    ensures SpentIndirect(l, a, c, n, first, t + 1)
    ensures Entries(l, a, c, n, first, t + 1)
      == Entries(l, a, b, n, first, t) + if NewEntry(l, b, n, first + t) then {Ind(l, c, n)} else {}
  {
    hide Ptr, Addr;
  }

  lemma CostNext(l: Layout, a: Moment, b: Moment, c: Moment, n: nat, first: nat, t: nat)
    requires Sized(l, a.m) && Sized(l, b.m) && Sized(l, c.m) && n < l.ninodes && first + t < MAXFILE
    requires Marks(a.bitmap, b.bitmap) && Marks(b.bitmap, c.bitmap)
    requires SpentIndirect(l, a.m, b.m, n, first, t) && IndirectKept(l, b.m, c.m, n, first + t)
    requires Addr(l, b.m, n, first + t) == Addr(l, a.m, n, first + t)
    requires forall bn :: first <= bn < first + t ==> Addr(l, c.m, n, bn) == Addr(l, b.m, n, bn)
    ensures Cost(l, a, c, n, first, t + 1)
      == Cost(l, a, b, n, first, t) + MapCost(l, b, c, n, first + t) + {Addr(l, c.m, n, first + t)}
  {
    hide Marks, Bits, Maps, Data, Ptr, Entries, NewEntries, SpentIndirect, IndirectKept;
    BitsTwice(a.bitmap, b.bitmap, c.bitmap);
    MapsUnion(l, Bits(a.bitmap, b.bitmap), Bits(b.bitmap, c.bitmap));
    DataSame(l, b.m, c.m, n, first, t);
    DataNext(l, c.m, n, first, t);
    EntriesNext(l, a.m, b.m, c.m, n, first, t);
  }

  /** One turn: the next block is mapped and written to. */
  lemma SpentMore(l: Layout, a: Moment, b: Moment, c: Moment, n: nat, first: nat, t: nat)
    requires Sized(l, a.m) && Sized(l, b.m) && Sized(l, c.m) && n < l.ninodes && first + t < MAXFILE
    requires Spent(l, a, b, n, first, t) && PaidStore(l, b, c, n, first + t)
    requires Addr(l, b.m, n, first + t) == Addr(l, a.m, n, first + t)
    requires forall bn :: first <= bn < first + t ==> Addr(l, c.m, n, bn) == Addr(l, b.m, n, bn)
    ensures Spent(l, a, c, n, first, t + 1)
  {
    hide Marks, Bits, Maps, Data, Ptr, Entries, NewEntries, Cost, MapCost, Need, NewBlocks, SpentIndirect, IndirectKept;
    BitsTwice(a.bitmap, b.bitmap, c.bitmap);
    NeedNext(l, a.m, b.m, n, first, t);
    EntriesNext(l, a.m, b.m, c.m, n, first, t);
    CostNext(l, a, b, c, n, first, t);
  }

  // ---- whether there are enough free blocks ----

  lemma {:induction false} NeedGrows(l: Layout, m: Image, n: nat, first: nat, t: nat, t': nat)
    requires Sized(l, m) && n < l.ninodes && first + t' <= MAXFILE && t <= t'
    ensures Need(l, m, n, first, t) <= Need(l, m, n, first, t')
    decreases t'
  {
    if t < t' {
      NeedGrows(l, m, n, first, t, t' - 1);
    }
  }

  /** A run short of blocks needs more than were free. */
  lemma RanOutFrees(a: seq<bool>, b: seq<bool>, need: nat)
    requires RanOut(a, b, need)
    ensures |Frees(a)| < need
  {
    assert Bits(a, b) == Frees(a);
  }

  lemma SpentFrees(l: Layout, a: Moment, b: Moment, n: nat, first: nat, t: nat)
    requires Sized(l, a.m) && n < l.ninodes && first + t <= MAXFILE && SpentBits(l, a, b, n, first, t)
    ensures Need(l, a.m, n, first, t) <= |Frees(a.bitmap)|
  {
    SubsetCard(Bits(a.bitmap, b.bitmap), Frees(a.bitmap));
  }

  /** Running short at the next block is running short of what the write needs. */
  lemma RanOutMore(l: Layout, a: Moment, b: Moment, c: seq<bool>, n: nat, first: nat, t: nat, t': nat)
    requires Sized(l, a.m) && Sized(l, b.m) && n < l.ninodes && first + t < first + t' <= MAXFILE
    requires Spent(l, a, b, n, first, t) && RanOut(b.bitmap, c, NewBlocks(l, b.m, n, first + t))
    requires Addr(l, b.m, n, first + t) == Addr(l, a.m, n, first + t)
    ensures |Frees(a.bitmap)| < Need(l, a.m, n, first, t')
  {
    hide Marks, Bits, Ptr, Need, NewBlocks, SpentIndirect, Frees, Full;
    BitsTwice(a.bitmap, b.bitmap, c);
    NeedNext(l, a.m, b.m, n, first, t);
    RanOutFrees(a.bitmap, c, Need(l, a.m, n, first, t + 1));
    NeedGrows(l, a.m, n, first, t + 1, t');
  }

  /** Blocks below the end of a file are there, so writing to them needs none. */
  lemma {:induction false} NeedNothing(l: Layout, m: Image, n: nat, first: nat, t: nat)
    requires Sized(l, m) && n < l.ninodes && first + t <= MAXFILE && NoHoles(l, m, n)
    requires t > 0 ==> (first + t - 1) * BSIZE < m.inode[n].size
    ensures Need(l, m, n, first, t) == 0 && Missing(l, m, n, first, t) == 0 && !NewEntries(l, m, n, first, t)
    decreases t
  {
    if t > 0 {
      NeedNothing(l, m, n, first, t - 1);
      assert Addr(l, m, n, first + t - 1) != 0;
    }
  }

  // ---- how many blocks that is ----

  /** Number of blocks that hold bytes `off` to `off + cnt`. */
  function Touched(off: nat, cnt: nat): (r: nat)
    ensures off + cnt <= MAXFILE * BSIZE ==> off / BSIZE + r <= MAXFILE
  {
    if cnt == 0 then 0 else (off + cnt - 1) / BSIZE - off / BSIZE + 1
  }

  lemma TouchedMore(off: nat, tot: nat, m: nat)
    requires 0 < m && (off + tot) % BSIZE + m <= BSIZE && (tot == 0 || (off + tot) % BSIZE == 0)
    ensures Touched(off, tot + m) == Touched(off, tot) + 1 && (off + tot) / BSIZE == off / BSIZE + Touched(off, tot)
  {
  }

  /** Blocks that storing `cnt` bytes at `off` has to allocate. */
  function Needs(l: Layout, m: Image, n: nat, off: nat, cnt: nat): (r: nat)
    requires Sized(l, m) && n < l.ninodes && off + cnt <= MAXFILE * BSIZE
  {
    Need(l, m, n, off / BSIZE, Touched(off, cnt))
  }

  // ---- one write after another ----

  /** `m` is mapped as after a write to the `t` blocks from `first` on: pointers that were there stay, those blocks are
      there, those behind them are as they were, and so is the indirect block unless it was needed. */
  ghost predicate Reaches(l: Layout, m0: Image, m: Image, n: nat, first: nat, t: nat)
    requires Sized(l, m0) && Sized(l, m) && n < l.ninodes && first + t <= MAXFILE
  {
    && Stays(l, m0, m) && (forall bn :: first <= bn < first + t ==> Addr(l, m, n, bn) != 0)
    && (forall bn :: first + t <= bn < MAXFILE ==> Addr(l, m, n, bn) == Addr(l, m0, n, bn))
    && SpentIndirect(l, m0, m, n, first, t)
  }

  /** What comes after the `t` blocks needs what it needs now that they are there. */
  lemma {:induction false} NeedParts(l: Layout, m0: Image, m: Image, n: nat, first: nat, t: nat, u: nat)
    requires Sized(l, m0) && Sized(l, m) && n < l.ninodes && first + t + u <= MAXFILE && Reaches(l, m0, m, n, first, t)
    ensures Missing(l, m0, n, first, t + u) == Missing(l, m0, n, first, t) + Missing(l, m, n, first + t, u)
    ensures NewEntries(l, m0, n, first, t + u) <==>
      NewEntries(l, m0, n, first, t) || NewEntries(l, m, n, first + t, u)
    decreases u
  {
    if u > 0 {
      NeedParts(l, m0, m, n, first, t, u - 1);
      hide Stays, Ptr;
      assert Addr(l, m, n, first + t + u - 1) == Addr(l, m0, n, first + t + u - 1);
    }
  }

  /** A block that is there needs nothing. */
  lemma {:induction false} NeedSkip(l: Layout, m: Image, n: nat, first: nat, u: nat)
    requires Sized(l, m) && n < l.ninodes && first + u <= MAXFILE && u > 0 && Addr(l, m, n, first) != 0
    ensures Missing(l, m, n, first, u) == Missing(l, m, n, first + 1, u - 1)
    ensures NewEntries(l, m, n, first, u) <==> NewEntries(l, m, n, first + 1, u - 1)
    decreases u
  {
    if u > 1 {
      NeedSkip(l, m, n, first, u - 1);
    }
  }

  /** Two writes in a row, the second going on in the last block of the first (`d` is 1) or behind it, need together
      what one write to all these blocks needs. */
  lemma NeedJoins(l: Layout, m0: Image, m: Image, n: nat, first: nat, t: nat, d: nat, u: nat)
    requires Sized(l, m0) && Sized(l, m) && n < l.ninodes && d <= 1 && d <= t && d <= u
    requires first + t + u - d <= MAXFILE && Reaches(l, m0, m, n, first, t)
    ensures Need(l, m0, n, first, t + u - d) == Need(l, m0, n, first, t) + Need(l, m, n, first + t - d, u)
    ensures NewEntries(l, m0, n, first, t + u - d) <==>
      NewEntries(l, m0, n, first, t) || NewEntries(l, m, n, first + t - d, u)
  {
    hide Ptr, Stays, Missing, NewEntries;
    NeedParts(l, m0, m, n, first, t, u - d);
    if d == 1 {
      NeedSkip(l, m, n, first + t - 1, u);
    }
  }

  /** And they leave the file mapped alike. */
  lemma ReachesJoin(l: Layout, m0: Image, m: Image, m2: Image, n: nat, first: nat, t: nat, d: nat, u: nat)
    requires Sized(l, m0) && Sized(l, m) && Sized(l, m2) && n < l.ninodes && d <= 1 && d <= t && d <= u
    requires first + t + u - d <= MAXFILE && Reaches(l, m0, m, n, first, t) && Reaches(l, m, m2, n, first + t - d, u)
    ensures Reaches(l, m0, m2, n, first, t + u - d)
  {
    hide Ptr, Stays, Missing, NewEntries, Need;
    NeedJoins(l, m0, m, n, first, t, d, u);
    StaysTwice(l, m0, m, m2);
    StaysAddr(l, m, m2, n);
  }

  lemma StaysTwice(l: Layout, m0: Image, m: Image, m2: Image)
    requires Sized(l, m0) && Sized(l, m) && Sized(l, m2) && Stays(l, m0, m) && Stays(l, m, m2)
    ensures Stays(l, m0, m2)
  {
  }

  lemma StaysAddr(l: Layout, m: Image, m2: Image, n: nat)
    requires Sized(l, m) && Sized(l, m2) && n < l.ninodes && Stays(l, m, m2)
    ensures forall bn :: 0 <= bn < MAXFILE && Addr(l, m, n, bn) != 0 ==> Addr(l, m2, n, bn) == Addr(l, m, n, bn)
  {
  }

  /** The blocks of two ranges that adjoin. */
  lemma TouchedJoins(off: nat, a: nat, b: nat) returns (d: nat)
    requires b > 0
    ensures d <= 1 && d <= Touched(off, a) && d <= Touched(off + a, b)
    ensures Touched(off, a + b) == Touched(off, a) + Touched(off + a, b) - d
    ensures (off + a) / BSIZE == off / BSIZE + Touched(off, a) - d
  {
    d := if a > 0 && (off + a) % BSIZE != 0 then 1 else 0;
    if a > 0 {
      BlockOfLast(off + a);
    }
  }

  lemma BlockOfLast(x: nat)
    requires x > 0
    ensures (x - 1) / BSIZE == if x % BSIZE == 0 then x / BSIZE - 1 else x / BSIZE
  {
  }

  /** The same in bytes. */
  lemma NeedsJoin(l: Layout, m0: Image, m: Image, m2: Image, n: nat, off: nat, a: nat, b: nat)
    requires Sized(l, m0) && Sized(l, m) && Sized(l, m2) && n < l.ninodes && off + a + b <= MAXFILE * BSIZE && b > 0
    requires Reaches(l, m0, m, n, off / BSIZE, Touched(off, a))
    ensures Needs(l, m0, n, off, a + b) == Needs(l, m0, n, off, a) + Needs(l, m, n, off + a, b)
    ensures Reaches(l, m, m2, n, (off + a) / BSIZE, Touched(off + a, b)) ==>
      Reaches(l, m0, m2, n, off / BSIZE, Touched(off, a + b))
  {
    hide Touched, Reaches, Need;
    var d := TouchedJoins(off, a, b);
    NeedJoins(l, m0, m, n, off / BSIZE, Touched(off, a), d, Touched(off + a, b));
    if Reaches(l, m, m2, n, (off + a) / BSIZE, Touched(off + a, b)) {
      ReachesJoin(l, m0, m, m2, n, off / BSIZE, Touched(off, a), d, Touched(off + a, b));
    }
  }

  lemma NeedsGrow(l: Layout, m: Image, n: nat, off: nat, a: nat, b: nat)
    requires Sized(l, m) && n < l.ninodes && a <= b && off + b <= MAXFILE * BSIZE
    ensures Needs(l, m, n, off, a) <= Needs(l, m, n, off, b)
  {
    TouchedGrows(off, a, b);
    NeedGrows(l, m, n, off / BSIZE, Touched(off, a), Touched(off, b));
  }

  lemma TouchedGrows(off: nat, a: nat, b: nat)
    requires a <= b
    ensures Touched(off, a) <= Touched(off, b)
  {
  }

  /** Bits set are bits that were free. */
  lemma FreesLeft(a: seq<bool>, b: seq<bool>)
    requires Marks(a, b)
    ensures |Frees(b)| + |Bits(a, b)| == |Frees(a)|
  {
    assert Frees(a) == Frees(b) + Bits(a, b);
    assert Frees(b) !! Bits(a, b);
  }

  /** Blocks that storing `cnt` bytes at `off` logs, the inode's block among them if the file grows. */
  ghost function Logs(l: Layout, a: Moment, b: Moment, n: nat, off: nat, cnt: nat): (r: set<nat>)
    requires Sized(l, a.m) && Sized(l, b.m) && n < l.ninodes && off + cnt <= MAXFILE * BSIZE
  {
    Cost(l, a, b, n, off / BSIZE, Touched(off, cnt))
    + if cnt > 0 && off + cnt > a.m.inode[n].size then {n / IPB + l.inodestart} else {}
  }

  /** Each block written, its free-map block unless it was there already, the indirect block and its free-map block, and
      the inode's block. */
  function Budget(off: nat, cnt: nat): (r: nat) {
    2 * Touched(off, cnt) + 3 - (if off % BSIZE != 0 && cnt > 0 then 1 else 0)
  }

  /** No two of the blocks have their bits in the same block of the free map. */
  predicate Separate(s: set<nat>) {
    forall x, y :: x in s && y in s && x / BPB == y / BPB ==> x == y
  }

  lemma MapsOneMore(l: Layout, s: set<nat>, x: nat)
    requires x !in s
    ensures |Maps(l, s + {x})| <= |Maps(l, s)| + 1
    ensures |Maps(l, s + {x})| == |Maps(l, s)| + 1 <==> forall y :: y in s ==> y / BPB != x / BPB
  {
    MapsUnion(l, s, {x});
    MapsOne(l, x);
    var mx := x / BPB + l.bmapstart;
    assert mx in Maps(l, s) <==> exists y :: y in s && y / BPB == x / BPB;
    hide Maps;
    if mx in Maps(l, s) {
      assert Maps(l, s) + {mx} == Maps(l, s);
    }
  }

  lemma SeparateOneMore(s: set<nat>, x: nat)
    requires x !in s
    ensures Separate(s + {x}) <==> Separate(s) && forall y :: y in s ==> y / BPB != x / BPB
  {
    if Separate(s + {x}) {
      forall y | y in s
        ensures y / BPB != x / BPB
      {
        assert y in s + {x} && x in s + {x};
      }
      forall y, z | y in s && z in s && y / BPB == z / BPB
        ensures y == z
      {
        assert y in s + {x} && z in s + {x};
      }
    }
  }

  lemma {:induction false} MapsCard(l: Layout, s: set<nat>)
    ensures |Maps(l, s)| <= |s| && (|Maps(l, s)| == |s| <==> Separate(s))
    decreases |s|
  {
    if s == {} {
      MapsOne(l, 0);
    } else {
      var x :| x in s;
      var rest := s - {x};
      MapsCard(l, rest);
      MapsOneMore(l, rest, x);
      SeparateOneMore(rest, x);
      hide Maps, Separate;
      assert rest + {x} == s;
    }
  }

  lemma {:induction false} DataCard(l: Layout, m: Image, n: nat, first: nat, t: nat)
    requires Sized(l, m) && n < l.ninodes && first + t <= MAXFILE
    ensures |Data(l, m, n, first, t)| <= t
    decreases t
  {
    if t > 0 {
      DataCard(l, m, n, first, t - 1);
      UnionCard(Data(l, m, n, first, t - 1), {Addr(l, m, n, first + t - 1)});
    }
  }

  /** One block less has to be allocated if the first is there. */
  lemma {:induction false} MissingFirst(l: Layout, m: Image, n: nat, first: nat, t: nat)
    requires Sized(l, m) && n < l.ninodes && first + t <= MAXFILE && t > 0 && Addr(l, m, n, first) != 0
    ensures Missing(l, m, n, first, t) < t
    decreases t
  {
    if t > 1 {
      MissingFirst(l, m, n, first, t - 1);
    }
  }

  /** Blocks not spared, because the write starts inside one that is there. */
  function Fresh(off: nat, cnt: nat): (r: nat) {
    Touched(off, cnt) - if off % BSIZE != 0 && cnt > 0 then 1 else 0
  }

  lemma MissingFresh(l: Layout, m: Image, n: nat, off: nat, cnt: nat)
    requires Sized(l, m) && n < l.ninodes && NoHoles(l, m, n) && off <= m.inode[n].size && off + cnt <= MAXFILE * BSIZE
    ensures Missing(l, m, n, off / BSIZE, Touched(off, cnt)) <= Fresh(off, cnt)
  {
    if off % BSIZE != 0 && cnt > 0 {
      assert off / BSIZE * BSIZE < m.inode[n].size;
      MissingFirst(l, m, n, off / BSIZE, Touched(off, cnt));
    }
  }

  /** A write stays within its budget. */
  lemma Bounded(l: Layout, a: Moment, b: Moment, n: nat, off: nat, cnt: nat)
    requires Sized(l, a.m) && Sized(l, b.m) && n < l.ninodes && off + cnt <= MAXFILE * BSIZE
    requires NoHoles(l, a.m, n) && off <= a.m.inode[n].size
    requires SpentBits(l, a, b, n, off / BSIZE, Touched(off, cnt))
    ensures |Logs(l, a, b, n, off, cnt)| <= Budget(off, cnt)
  {
    hide Bits, Maps, Data, Marks, Ptr, NoHoles, Touched;
    var (first, t) := (off / BSIZE, Touched(off, cnt));
    var (d, m, e) := (Data(l, b.m, n, first, t), Maps(l, Bits(a.bitmap, b.bitmap)), Entries(l, a.m, b.m, n, first, t));
    DataCard(l, b.m, n, first, t);
    MapsCard(l, Bits(a.bitmap, b.bitmap));
    MissingFresh(l, a.m, n, off, cnt);
    UnionCard(d, m);
    UnionCard(d + m, e);
    UnionCard(d + m + e, {n / IPB + l.inodestart});
  }

  // ---- when it is as many as that ----

  /** Inode blocks, free-map blocks and data blocks are in regions of their own, in this order. */
  predicate Regions(l: Layout) {
    && (forall n :: 0 <= n < l.ninodes ==> n / IPB + l.inodestart < l.bmapstart)
    && (forall x :: 0 <= x < l.size ==> x / BPB + l.bmapstart < l.datastart)
  }

  /** Every block touched is new, but for the one the write starts inside of; the indirect block is new; and the bits of
      all of them are in different blocks of the free map. */
  ghost predicate Worst(l: Layout, a: Moment, bitmap: seq<bool>, n: nat, off: nat, cnt: nat)
    requires Sized(l, a.m) && n < l.ninodes && off + cnt <= MAXFILE * BSIZE
  {
    && Missing(l, a.m, n, off / BSIZE, Touched(off, cnt)) == Fresh(off, cnt)
    && NewEntries(l, a.m, n, off / BSIZE, Touched(off, cnt)) && Ind(l, a.m, n) == 0
    && Separate(Bits(a.bitmap, bitmap))
  }

  /** Block `x` is one of the blocks of file `n` numbered `first` to `first + t`. */
  ghost predicate Among(owner: map<nat, Slot>, x: nat, n: nat, first: nat, t: nat) {
    && x in owner && owner[x].n == n && !owner[x].Indirect?
    && first <= (if owner[x].Direct? then owner[x].i else NDIRECT + owner[x].i) < first + t
  }

  lemma AmongNext(l: Layout, m: Image, bitmap: seq<bool>, owner: map<nat, Slot>, n: nat, bn: nat, first: nat)
    requires Owned(l, m, bitmap, owner) && n < l.ninodes && first <= bn < MAXFILE && Addr(l, m, n, bn) != 0
    ensures var x := Addr(l, m, n, bn);
      Among(owner, x, n, first, bn + 1 - first) && !Among(owner, x, n, first, bn - first)
  {
    assert owner[Addr(l, m, n, bn)] == SlotOf(n, bn);
  }

  ghost predicate AllAmong(owner: map<nat, Slot>, s: set<nat>, n: nat, first: nat, t: nat) {
    forall x :: x in s ==> Among(owner, x, n, first, t)
  }

  lemma AllAmongNext(owner: map<nat, Slot>, s: set<nat>, x: nat, n: nat, first: nat, t: nat)
    requires AllAmong(owner, s, n, first, t) && Among(owner, x, n, first, t + 1) && !Among(owner, x, n, first, t)
    ensures AllAmong(owner, s + {x}, n, first, t + 1) && |s + {x}| == |s| + 1
  {
    assert x !in s;
  }

  lemma DataExactNext(l: Layout, m: Image, bitmap: seq<bool>, owner: map<nat, Slot>, n: nat, first: nat, t: nat)
    requires Sized(l, m) && Owned(l, m, bitmap, owner)
    requires n < l.ninodes && first + t < MAXFILE && Addr(l, m, n, first + t) != 0
    requires AllAmong(owner, Data(l, m, n, first, t), n, first, t)
    ensures |Data(l, m, n, first, t + 1)| == |Data(l, m, n, first, t)| + 1
    ensures AllAmong(owner, Data(l, m, n, first, t + 1), n, first, t + 1)
  {
    hide Owned, Addr, Ptr, Data, AllAmong, Among;
    AmongNext(l, m, bitmap, owner, n, first + t, first);
    DataNext(l, m, n, first, t);
    AllAmongNext(owner, Data(l, m, n, first, t), Addr(l, m, n, first + t), n, first, t);
  }

  lemma {:induction false} DataExact(l: Layout, m: Image, bitmap: seq<bool>, owner: map<nat, Slot>, n: nat, first: nat,
                                     t: nat)
    requires Owned(l, m, bitmap, owner) && n < l.ninodes && first + t <= MAXFILE
    requires forall bn :: first <= bn < first + t ==> Addr(l, m, n, bn) != 0
    ensures |Data(l, m, n, first, t)| == t
    ensures AllAmong(owner, Data(l, m, n, first, t), n, first, t)
    decreases t
  {
    if t > 0 {
      DataExact(l, m, bitmap, owner, n, first, t - 1);
      DataExactNext(l, m, bitmap, owner, n, first, t - 1);
    }
  }

  /** Free-map blocks lie below the data and above the inodes. */
  lemma Low(l: Layout, n: nat, a: seq<bool>, b: seq<bool>)
    requires Regions(l) && n < l.ninodes && |a| == l.size > 0
    ensures forall y :: y in Maps(l, Bits(a, b)) ==> l.bmapstart <= y < l.datastart
    ensures n / IPB + l.inodestart < l.bmapstart <= l.datastart
  {
    assert 0 / BPB + l.bmapstart < l.datastart;
  }

  lemma High(l: Layout, a: Image, b: Image, bitmap: seq<bool>, owner: map<nat, Slot>, n: nat, first: nat, t: nat)
    requires Sized(l, a) && Owned(l, b, bitmap, owner) && n < l.ninodes && first + t <= MAXFILE
    requires SpentIndirect(l, a, b, n, first, t)
    requires AllAmong(owner, Data(l, b, n, first, t), n, first, t)
    ensures Data(l, b, n, first, t) !! Entries(l, a, b, n, first, t)
    ensures forall y :: y in Data(l, b, n, first, t) ==> l.datastart <= y
    ensures forall y :: y in Entries(l, a, b, n, first, t) ==> l.datastart <= y
  {
    var x := Ind(l, b, n);
    if NewEntries(l, a, n, first, t) {
      assert owner[x] == Indirect(n);
    }
  }

  lemma FourCard(d: set<nat>, m: set<nat>, e: set<nat>, i: set<nat>, lo: nat, hi: nat)
    requires d !! e && lo <= hi && (forall y :: y in d ==> hi <= y) && (forall y :: y in e ==> hi <= y)
    requires forall y :: y in m ==> lo <= y < hi
    requires forall y :: y in i ==> y < lo
    ensures |d + m + e + i| == |d| + |m| + |e| + |i|
  {
    assert d !! m && d + m !! e && d + m + e !! i;
    UnionCard(d, m);
    UnionCard(d + m, e);
    UnionCard(d + m + e, i);
  }

  /** New blocks lie at or beyond the end of the file, so the file grows. */
  lemma {:induction false} MissingGrows(l: Layout, m: Image, n: nat, off: nat, cnt: nat)
    requires Sized(l, m) && n < l.ninodes && off + cnt <= MAXFILE * BSIZE && NoHoles(l, m, n)
    requires NewEntries(l, m, n, off / BSIZE, Touched(off, cnt))
    ensures cnt > 0 && off + cnt > m.inode[n].size
  {
    if cnt > 0 && off + cnt <= m.inode[n].size {
      NeedNothing(l, m, n, off / BSIZE, Touched(off, cnt));
    }
  }

  /** How many blocks a write logs. */
  lemma LogsCard(l: Layout, a: Moment, b: Moment, owner: map<nat, Slot>, n: nat, off: nat, cnt: nat)
    requires Sized(l, a.m) && Owned(l, b.m, b.bitmap, owner) && Regions(l) && n < l.ninodes
    requires off + cnt <= MAXFILE * BSIZE && |a.bitmap| == l.size
    requires SpentIndirect(l, a.m, b.m, n, off / BSIZE, Touched(off, cnt))
    requires forall bn :: off / BSIZE <= bn < off / BSIZE + Touched(off, cnt) ==> Addr(l, b.m, n, bn) != 0
    ensures |Logs(l, a, b, n, off, cnt)| == Touched(off, cnt) + |Maps(l, Bits(a.bitmap, b.bitmap))|
      + (if NewEntries(l, a.m, n, off / BSIZE, Touched(off, cnt)) then 1 else 0)
      + (if cnt > 0 && off + cnt > a.m.inode[n].size then 1 else 0)
  {
    hide Data, Maps, Bits, Ptr, AllAmong, Touched, NewEntries, SpentIndirect, Regions;
    var (first, t) := (off / BSIZE, Touched(off, cnt));
    var bits := Bits(a.bitmap, b.bitmap);
    var i: set<nat> := if cnt > 0 && off + cnt > a.m.inode[n].size then {n / IPB + l.inodestart} else {};
    DataExact(l, b.m, b.bitmap, owner, n, first, t);
    Low(l, n, a.bitmap, b.bitmap);
    High(l, a.m, b.m, b.bitmap, owner, n, first, t);
    hide Owned, Sized;
    FourCard(Data(l, b.m, n, first, t), Maps(l, bits), Entries(l, a.m, b.m, n, first, t), i, l.bmapstart, l.datastart);
  }

  /** The number of blocks a write logs is its budget exactly in the worst case. */
  lemma BudgetReachedIff(l: Layout, a: Moment, b: Moment, owner: map<nat, Slot>, n: nat, off: nat, cnt: nat)
    requires Sized(l, a.m) && Owned(l, b.m, b.bitmap, owner) && Regions(l) && n < l.ninodes
    requires 0 < cnt && off + cnt <= MAXFILE * BSIZE && |a.bitmap| == l.size
    requires NoHoles(l, a.m, n) && off <= a.m.inode[n].size
    requires SpentBits(l, a, b, n, off / BSIZE, Touched(off, cnt))
    requires SpentIndirect(l, a.m, b.m, n, off / BSIZE, Touched(off, cnt))
    requires forall bn :: off / BSIZE <= bn < off / BSIZE + Touched(off, cnt) ==> Addr(l, b.m, n, bn) != 0
    ensures |Logs(l, a, b, n, off, cnt)| == Budget(off, cnt) <==> Worst(l, a, b.bitmap, n, off, cnt)
  {
    hide Logs, Bits, Maps, Data, Marks, Ptr, Owned, Separate, SpentIndirect, Regions, NoHoles, Touched, Missing;
    hide NewEntries;
    LogsCard(l, a, b, owner, n, off, cnt);
    MapsCard(l, Bits(a.bitmap, b.bitmap));
    MissingFresh(l, a.m, n, off, cnt);
    if NewEntries(l, a.m, n, off / BSIZE, Touched(off, cnt)) {
      MissingGrows(l, a.m, n, off, cnt);
    }
  }

  /** Once the file has its new size. */
  lemma LogsResized(l: Layout, a: Moment, b: Moment, c: Moment, n: nat, off: nat, cnt: nat, size: Word)
    requires Sized(l, a.m) && Sized(l, b.m) && n < l.ninodes && off + cnt <= MAXFILE * BSIZE
    requires c.m == Resized(b.m, n, size) && c.bitmap == b.bitmap
    ensures Sized(l, c.m) && Logs(l, a, c, n, off, cnt) == Logs(l, a, b, n, off, cnt)
  {
    ResizedSame(l, b.m, n, size);
    DataSame(l, b.m, c.m, n, off / BSIZE, Touched(off, cnt));
  }

  /** What a write, done with its blocks and the size, has logged, and how much that is. */
  lemma WriteLogs(l: Layout, a: Moment, b: Moment, c: Moment, owner: map<nat, Slot>, n: nat, off: nat, cnt: nat,
                  size: Word)
    requires Sized(l, a.m) && Owned(l, b.m, b.bitmap, owner) && n < l.ninodes && off + cnt <= MAXFILE * BSIZE
    requires NoHoles(l, a.m, n) && off <= a.m.inode[n].size && |a.bitmap| == l.size
    requires Spent(l, a, b, n, off / BSIZE, Touched(off, cnt))
    requires forall bn :: off / BSIZE <= bn < off / BSIZE + Touched(off, cnt) ==> Addr(l, b.m, n, bn) != 0
    requires c.m == Resized(b.m, n, size) && c.bitmap == b.bitmap
    requires c.logged == b.logged + if cnt > 0 && off + cnt > a.m.inode[n].size then {n / IPB + l.inodestart} else {}
    ensures Sized(l, c.m) && c.logged == a.logged + Logs(l, a, c, n, off, cnt)
    ensures SpentBits(l, a, c, n, off / BSIZE, Touched(off, cnt))
    ensures |c.logged - a.logged| <= Budget(off, cnt)
    ensures cnt > 0 && Regions(l) && a.logged == {} ==>
      (|c.logged| == Budget(off, cnt) <==> Worst(l, a, c.bitmap, n, off, cnt))
  {
    hide Cost, Bits, Marks, Ptr, Worst, Touched, Budget, Need, SpentIndirect, NoHoles;
    LogsResized(l, a, b, c, n, off, cnt, size);
    assert c.logged == a.logged + Logs(l, a, b, n, off, cnt);
    Bounded(l, a, b, n, off, cnt);
    SubsetCard(c.logged - a.logged, Logs(l, a, b, n, off, cnt));
    if cnt > 0 && Regions(l) && a.logged == {} {
      hide Regions;
      BudgetReachedIff(l, a, b, owner, n, off, cnt);
    }
  }
}
