/** Disks on which the budget of an operation is reached: one where a chunk of filewrite logs all of its share of the
    log, one where a chunk longer by a byte logs more than that, and the disks on which truncation does. */
module FsWorst {
  import opened Basics
  import opened Blocks
  import opened FsImage
  import opened FsContents
  import opened FsLog
  import opened Fs

  const FILE := 2

  /** `g` blocks of free map, each with its first block free and the others in use: file `k`, of one block, has block
      `4096 + k`. The last file, of `size` bytes, has its first twelve blocks at the end of the disk. */
  function Disk(g: nat): (l: Layout)
    requires 2 <= g <= 5
    ensures l.Ok() && Regions(l)
  {
    Layout(BPB * g + 13, BPB * (g - 1) + 1, 32, 2100, BPB)
  }

  /** Direct pointer `i` of file `k`. */
  function Held(g: nat, k: nat, i: nat): (b: Word)
    requires 2 <= g <= 5 && k <= BPB * (g - 1) && i < NDIRECT
  {
    if k == BPB * (g - 1) then BPB * g + 1 + i
    else if i == 0 && k % BPB != 0 then BPB + k
    else 0
  }

  function OwnerOf(g: nat, b: nat): (s: Slot)
    requires 2 <= g <= 5 && BPB <= b < BPB * g + 13 && b % BPB != 0
  {
    if b < BPB * g then Direct(b - BPB, 0) else Direct(BPB * (g - 1), b - BPB * g - 1)
  }

  lemma HeldOwner(g: nat, k: nat, i: nat)
    requires 2 <= g <= 5 && k <= BPB * (g - 1) && i < NDIRECT && Held(g, k, i) != 0
    ensures var b := Held(g, k, i);
      BPB <= b < BPB * g + 13 && b % BPB != 0 && OwnerOf(g, b) == Direct(k, i)
  {
  }

  lemma OwnerHeld(g: nat, b: nat)
    requires 2 <= g <= 5 && BPB <= b < BPB * g + 13 && b % BPB != 0
    ensures var s := OwnerOf(g, b);
      s.Direct? && s.n <= BPB * (g - 1) && s.i < NDIRECT && Held(g, s.n, s.i) == b
  {
  }

  function File(g: nat, k: nat, size: Word): (ip: Inode)
    requires 2 <= g <= 5 && k <= BPB * (g - 1)
  {
    Inode(FILE, 0, 0, 1, if k == BPB * (g - 1) then size else if k % BPB != 0 then BSIZE else 0,
          seq(NDIRECT + 1, i requires 0 <= i <= NDIRECT => if i < NDIRECT then Held(g, k, i) else 0))
  }

  function Crowded(g: nat, size: Word): (m: Image)
    requires 2 <= g <= 5
    ensures Sized(Disk(g), m)
  {
    Image(seq(BPB * (g - 1) + 1, k requires 0 <= k <= BPB * (g - 1) => File(g, k, size)),
          seq(BPB * g + 13, b => ZeroBlock))
  }

  function Bitmap(g: nat): (r: seq<bool>) {
    seq(BPB * g + 13, b => b < BPB || b % BPB != 0)
  }

  ghost function Owners(g: nat): (r: map<nat, Slot>)
    requires 2 <= g <= 5
  {
    map b: nat | BPB <= b < BPB * g + 13 && b % BPB != 0 :: OwnerOf(g, b)
  }

  lemma CrowdedPtr(g: nat, size: Word, s: Slot)
    requires 2 <= g <= 5 && SlotOk(Disk(g), s)
    ensures Ptr(Disk(g), Crowded(g, size), s) == if s.Direct? then Held(g, s.n, s.i) else 0
  {
  }

  lemma PtrOwned(g: nat, size: Word, s: Slot)
    requires 2 <= g <= 5 && SlotOk(Disk(g), s)
    ensures var b := Ptr(Disk(g), Crowded(g, size), s);
      b != 0 ==> b in Owners(g) && Owners(g)[b] == s
  {
    hide Held, OwnerOf, Ptr, Crowded;
    CrowdedPtr(g, size, s);
    if s.Direct? && Held(g, s.n, s.i) != 0 {
      HeldOwner(g, s.n, s.i);
    }
  }

  lemma OwnedPtr(g: nat, size: Word, b: nat)
    requires 2 <= g <= 5 && b in Owners(g)
    ensures SlotOk(Disk(g), Owners(g)[b]) && Ptr(Disk(g), Crowded(g, size), Owners(g)[b]) == b
    ensures BPB <= b < BPB * g + 13
  {
    hide Held, OwnerOf, Ptr, Crowded;
    OwnerHeld(g, b);
    CrowdedPtr(g, size, Owners(g)[b]);
  }

  lemma CrowdedOwned(g: nat, size: Word)
    requires 2 <= g <= 5
    ensures Owned(Disk(g), Crowded(g, size), Bitmap(g), Owners(g))
  {
    var (l, m, owner) := (Disk(g), Crowded(g, size), Owners(g));
    assert forall b :: 0 <= b < l.size ==> (Bitmap(g)[b] <==> b < l.datastart || b in owner);
    hide Ptr, Crowded, Owners, Bitmap;
    forall s | SlotOk(l, s) && Ptr(l, m, s) != 0
      ensures Ptr(l, m, s) in owner && owner[Ptr(l, m, s)] == s
    {
      PtrOwned(g, size, s);
    }
    forall b | b in owner
      ensures l.datastart <= b < l.size && SlotOk(l, owner[b]) && Ptr(l, m, owner[b]) == b
    {
      OwnedPtr(g, size, b);
    }
  }

  lemma CrowdedWhole(g: nat, size: Word)
    requires 2 <= g <= 5 && size <= NDIRECT * BSIZE
    ensures AllNoHoles(Disk(g), Crowded(g, size))
  {
    var (l, m) := (Disk(g), Crowded(g, size));
    forall k | 0 <= k < l.ninodes
      ensures NoHoles(l, m, k)
    {
      forall bn | 0 <= bn < MAXFILE && bn * BSIZE < m.inode[k].size
        ensures Addr(l, m, k, bn) != 0
      {
        CrowdedPtr(g, size, SlotOf(k, bn));
      }
    }
  }

  ghost function Firsts(g: nat): (r: set<nat>)
    ensures |r| == g && forall x :: x in r ==> BPB <= x <= BPB * g
  {
    if g == 0 then {} else var (rest, x: nat) := (Firsts(g - 1), BPB * g); assert x !in rest; rest + {x}
  }

  lemma {:induction false} FirstsMod(g: nat, x: nat)
    requires x in Firsts(g)
    ensures x % BPB == 0
  {
    if x != BPB * g {
      FirstsMod(g - 1, x);
    }
  }

  /** Free blocks are the first of each free-map block but the one for the metadata. */
  lemma CrowdedFrees(g: nat)
    requires 2 <= g <= 5
    ensures |Frees(Bitmap(g))| >= g && forall x :: x in Frees(Bitmap(g)) ==> x % BPB == 0
  {
    forall x | x in Firsts(g)
      ensures x in Frees(Bitmap(g))
    {
      FirstsMod(g, x);
    }
    SubsetCard(Firsts(g), Frees(Bitmap(g)));
  }

  /** Whatever is allocated has its bits in different blocks of the free map. */
  lemma CrowdedSeparate(g: nat, bitmap: seq<bool>)
    requires 2 <= g <= 5 && Marks(Bitmap(g), bitmap)
    ensures Separate(Bits(Bitmap(g), bitmap))
  {
    CrowdedFrees(g);
    forall x, y | x in Bits(Bitmap(g), bitmap) && y in Bits(Bitmap(g), bitmap) && x / BPB == y / BPB
      ensures x == y
    {
      assert x in Frees(Bitmap(g)) && y in Frees(Bitmap(g));
    }
  }

  /** Block `bn` of the last file. */
  lemma LastAddr(g: nat, size: Word, bn: nat)
    requires 2 <= g <= 5 && bn < MAXFILE
    ensures Addr(Disk(g), Crowded(g, size), BPB * (g - 1), bn) == 0 <==> bn >= NDIRECT
    ensures Ind(Disk(g), Crowded(g, size), BPB * (g - 1)) == 0
  {
    CrowdedPtr(g, size, SlotOf(BPB * (g - 1), bn));
    CrowdedPtr(g, size, Indirect(BPB * (g - 1)));
  }

  /** Blocks from number `first` on, which is 11 or 12. */
  lemma {:induction false} LastMissing(g: nat, size: Word, first: nat, t: nat)
    requires 2 <= g <= 5 && NDIRECT - 1 <= first <= NDIRECT && first + t <= MAXFILE
    ensures var (l, m, n) := (Disk(g), Crowded(g, size), BPB * (g - 1));
      && Missing(l, m, n, first, t) == (if first < NDIRECT && t > 0 then t - 1 else t)
      && (NewEntries(l, m, n, first, t) <==> first + t > NDIRECT)
  {
    if t > 0 {
      LastMissing(g, size, first, t - 1);
      LastAddr(g, size, first + t - 1);
    }
  }

  /** Storing four blocks' worth or so at the end of the last file is the worst case. */
  lemma LastWorst(g: nat, size: Word, cnt: nat, bitmap: seq<bool>)
    requires 2 <= g <= 5 && (NDIRECT - 1) * BSIZE < size <= NDIRECT * BSIZE && size + cnt <= MAXFILE * BSIZE
    requires cnt > 0 && size + cnt > NDIRECT * BSIZE && Marks(Bitmap(g), bitmap)
    ensures var (l, m, n) := (Disk(g), Crowded(g, size), BPB * (g - 1));
      && Needs(l, m, n, size, cnt) == Fresh(size, cnt) + 1
      && Worst(l, Moment(m, Bitmap(g), {}), bitmap, n, size, cnt)
  {
    LastMissing(g, size, size / BSIZE, Touched(size, cnt));
    LastAddr(g, size, 0);
    CrowdedSeparate(g, bitmap);
  }

  /** Append `src` to the last file: if there are as many groups as it takes blocks, it logs all of its budget. */
  method Append(g: nat, size: Word, src: seq<Byte>) returns (fs: FileSystem, r: Outcome)
    requires 2 <= g <= 5 && (NDIRECT - 1) * BSIZE < size <= NDIRECT * BSIZE && size + |src| <= MAXFILE * BSIZE
    requires size + |src| > NDIRECT * BSIZE && Fresh(size, |src|) < g
    ensures fresh(fs) && fs.l == Disk(g) && fs.Valid() && r == Done(|src|)
    ensures FileHas(fs.l, Crowded(g, size), fs.Now(), BPB * (g - 1), size, src)
    ensures |fs.logged| == Budget(size, |src|)
  {
    var (l, m, n) := (Disk(g), Crowded(g, size), BPB * (g - 1));
    CrowdedOwned(g, size);
    CrowdedWhole(g, size);
    CrowdedFrees(g);
    fs := new FileSystem.Mounted(l, {}, Bitmap(g), m, Owners(g));
    LastWorst(g, size, |src|, fs.bitmap);
    r := fs.Writei(n, src, size);
    LastWorst(g, size, |src|, fs.bitmap);
  }

  /** A chunk can log as many blocks as an operation may. */
  method FullChunk(src: seq<Byte>) returns (fs: FileSystem, r: Outcome)
    requires |src| == CHUNK
    ensures fs.Valid() && r == Done(CHUNK) && |fs.logged| == MAXOPBLOCKS
  {
    hide Crowded, Disk, FileHas, FileSystem.Valid;
    fs, r := Append(4, 11 * BSIZE + 1, src);
  }

  /** One byte more, and it can log more than that. */
  method LongerChunk(src: seq<Byte>) returns (fs: FileSystem, r: Outcome)
    requires |src| == CHUNK + 1
    ensures fs.Valid() && r == Done(CHUNK + 1) && |fs.logged| == MAXOPBLOCKS + 1
  {
    hide Crowded, Disk, FileHas, FileSystem.Valid;
    fs, r := Append(5, 12 * BSIZE, src);
  }

  // ---- truncation ----

  ghost function Stretch(lo: nat, n: nat): (r: set<nat>)
    ensures |r| == n && forall x :: x in r <==> lo <= x < lo + n
  {
    if n == 0 then {}
    else
      var rest := Stretch(lo, n - 1);
      assert lo + n - 1 !in rest;
      rest + {lo + n - 1}
  }

  /** How many blocks of the free map have bits of data blocks. */
  function DataMaps(l: Layout): (r: nat)
    requires l.Ok()
  {
    if l.datastart < l.size then (l.size - 1) / BPB - l.datastart / BPB + 1 else 0
  }

  /** What truncating file `n` logs. */
  ghost function TruncLogs(l: Layout, owner: map<nat, Slot>, n: nat): (r: set<nat>) {
    Maps(l, BlocksOf(owner, n)) + {n / IPB + l.inodestart}
  }

  /** On every disk of this layout, truncating any file keeps to the blocks that an operation may log. */
  ghost predicate TruncFits(l: Layout) {
    forall m, bitmap, owner, n: nat :: Owned(l, m, bitmap, owner) && AllNoHoles(l, m) && n < l.ninodes ==>
      |TruncLogs(l, owner, n)| <= MAXOPBLOCKS
  }

  lemma DataMapAt(l: Layout, b: nat)
    requires l.Ok() && l.datastart <= b < l.size
    ensures l.datastart / BPB <= b / BPB < l.datastart / BPB + DataMaps(l)
  {
  }

  lemma MapsWithin(l: Layout, s: set<nat>, lo: nat, n: nat)
    requires forall b :: b in s ==> lo <= b / BPB < lo + n
    ensures Maps(l, s) <= Stretch(lo + l.bmapstart, n)
  {
    hide Stretch;
  }

  lemma TruncAtMost(l: Layout, m: Image, bitmap: seq<bool>, owner: map<nat, Slot>, n: nat)
    requires Owned(l, m, bitmap, owner) && n < l.ninodes
    ensures |TruncLogs(l, owner, n)| <= DataMaps(l) + 1
  {
    hide Stretch, Maps, DataMaps;
    forall b | b in BlocksOf(owner, n)
      ensures l.datastart / BPB <= b / BPB < l.datastart / BPB + DataMaps(l)
    {
      DataMapAt(l, b);
    }
    hide Owned;
    var all := Stretch(l.datastart / BPB + l.bmapstart, DataMaps(l));
    MapsWithin(l, BlocksOf(owner, n), l.datastart / BPB, DataMaps(l));
    SubsetCard(TruncLogs(l, owner, n), all + {n / IPB + l.inodestart});
  }

  /** The first data block whose bit is in the `j`-th of those blocks of the free map. */
  function Far(l: Layout, j: nat): (b: Word)
    requires l.Ok() && j < DataMaps(l)
    ensures l.datastart <= b < l.size && b / BPB == l.datastart / BPB + j
  {
    if j == 0 then l.datastart else (l.datastart / BPB + j) * BPB
  }

  predicate IsFar(l: Layout, b: nat)
    requires l.Ok()
  {
    && l.datastart <= b < l.size && b / BPB - l.datastart / BPB < MAXOPBLOCKS
    && b == Far(l, b / BPB - l.datastart / BPB)
  }

  /** One file, with MAXOPBLOCKS blocks that are far apart. */
  function Scattered(l: Layout): (m: Image)
    requires l.Ok() && MAXOPBLOCKS <= DataMaps(l)
    ensures Sized(l, m)
  {
    Image(seq(l.ninodes, n =>
                Inode(FILE, 0, 0, 1, if n == 0 then MAXOPBLOCKS * BSIZE else 0,
                      seq(NDIRECT + 1, i requires 0 <= i => if n == 0 && i < MAXOPBLOCKS then Far(l, i) else 0))),
          seq(l.size, b => ZeroBlock))
  }

  function ScatteredMap(l: Layout): (r: seq<bool>)
    requires l.Ok()
  {
    seq(l.size, b requires 0 <= b => b < l.datastart || IsFar(l, b))
  }

  ghost function ScatteredOwners(l: Layout): (r: map<nat, Slot>)
    requires l.Ok()
  {
    map b: nat | b < l.size && IsFar(l, b) :: Direct(0, b / BPB - l.datastart / BPB)
  }

  lemma ScatteredPtr(l: Layout, s: Slot)
    requires l.Ok() && MAXOPBLOCKS <= DataMaps(l) && SlotOk(l, s)
    ensures Ptr(l, Scattered(l), s) == if s.Direct? && s.n == 0 && s.i < MAXOPBLOCKS then Far(l, s.i) else 0
  {
  }

  lemma ScatteredOk(l: Layout)
    requires l.Ok() && MAXOPBLOCKS <= DataMaps(l) && l.ninodes > 0
    ensures Owned(l, Scattered(l), ScatteredMap(l), ScatteredOwners(l)) && AllNoHoles(l, Scattered(l))
  {
    var (m, owner) := (Scattered(l), ScatteredOwners(l));
    hide Scattered, Ptr, Far;
    forall s | SlotOk(l, s)
      ensures Ptr(l, m, s) != 0 ==> Ptr(l, m, s) in owner && owner[Ptr(l, m, s)] == s
    {
      ScatteredPtr(l, s);
    }
    forall b | b in owner
      ensures SlotOk(l, owner[b]) && Ptr(l, m, owner[b]) == b
    {
      ScatteredPtr(l, owner[b]);
    }
    ScatteredWhole(l);
  }

  lemma ScatteredWhole(l: Layout)
    requires l.Ok() && MAXOPBLOCKS <= DataMaps(l)
    ensures AllNoHoles(l, Scattered(l))
  {
    var m := Scattered(l);
    forall k, bn | 0 <= k < l.ninodes && 0 <= bn < MAXFILE && bn * BSIZE < m.inode[k].size
      ensures Addr(l, m, k, bn) != 0
    {
      ScatteredPtr(l, SlotOf(k, bn));
    }
  }

  lemma ScatteredLogs(l: Layout)
    requires l.Ok() && MAXOPBLOCKS <= DataMaps(l) && Regions(l) && l.ninodes > 0
    ensures |TruncLogs(l, ScatteredOwners(l), 0)| == MAXOPBLOCKS + 1
  {
    hide Far, Stretch, Maps, DataMaps;
    var (owner, lo) := (ScatteredOwners(l), l.datastart / BPB);
    var ten := Stretch(lo + l.bmapstart, MAXOPBLOCKS);
    MapsWithin(l, BlocksOf(owner, 0), lo, MAXOPBLOCKS);
    forall x | x in ten
      ensures x in Maps(l, BlocksOf(owner, 0))
    {
      FarMapped(l, x - l.bmapstart - lo);
    }
    assert Maps(l, BlocksOf(owner, 0)) == ten;
    InodeApart(l, 0);
  }

  lemma InodeApart(l: Layout, n: nat)
    requires Regions(l) && n < l.ninodes
    ensures n / IPB + l.inodestart < l.bmapstart
  {
  }

  lemma FarMapped(l: Layout, j: nat)
    requires l.Ok() && j < MAXOPBLOCKS <= DataMaps(l)
    ensures l.datastart / BPB + j + l.bmapstart in Maps(l, BlocksOf(ScatteredOwners(l), 0))
  {
    hide DataMaps;
    var b := Far(l, j);
    hide Far;
    assert b in BlocksOf(ScatteredOwners(l), 0) && b / BPB == l.datastart / BPB + j;
  }

  /** So itrunc keeps to its share of the log exactly on disks whose data blocks have their bits in fewer than
      MAXOPBLOCKS blocks of the free map. */
  lemma TruncFitsIff(l: Layout)
    requires l.Ok() && Regions(l) && l.ninodes > 0
    ensures TruncFits(l) <==> DataMaps(l) < MAXOPBLOCKS
  {
    if DataMaps(l) < MAXOPBLOCKS {
      forall m, bitmap, owner, n: nat | Owned(l, m, bitmap, owner) && AllNoHoles(l, m) && n < l.ninodes
        ensures |TruncLogs(l, owner, n)| <= MAXOPBLOCKS
      {
        TruncAtMost(l, m, bitmap, owner, n);
      }
    } else {
      ScatteredOk(l);
      ScatteredLogs(l);
    }
  }

  /** On all other disks there is a file that takes more. */
  method LongTrunc(l: Layout) returns (fs: FileSystem)
    requires l.Ok() && Regions(l) && l.ninodes > 0 && MAXOPBLOCKS <= DataMaps(l)
    ensures fs.l == l && fs.Valid() && |fs.logged| == MAXOPBLOCKS + 1
  {
    ScatteredOk(l);
    ScatteredLogs(l);
    fs := new FileSystem.Mounted(l, {}, ScatteredMap(l), Scattered(l), ScatteredOwners(l));
    fs.Itrunc(0);
    assert fs.logged == TruncLogs(l, ScatteredOwners(l), 0);
  }
}
