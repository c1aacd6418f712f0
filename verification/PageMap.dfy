/** Address spaces as values: page directories and page tables, and which of their entries owns which physical page.
    Pages are named by page numbers; number 0 is no page of memory. */
module PageMap {

  const ENTRIES := 1024
  /** User addresses are below KERNBASE. */
  const USER_PAGES := 0x80000

  /** An entry that is not present, or one for page `ppn`. */
  datatype Pte = Absent | To(ppn: nat, perm: int)

  type Table = t: seq<Pte> | |t| == ENTRIES witness Blanks(ENTRIES)

  function Blanks(n: nat): (t: seq<Pte>)
    ensures |t| == n && forall i :: 0 <= i < n ==> t[i] == Absent
  {
    seq(n, i => Absent)
  }

  const Blank: Table := Blanks(ENTRIES)

  /** The pages in use as directories, and the contents of all pages in use as directories or tables. */
  datatype Spaces = Spaces(dirs: set<nat>, table: map<nat, Table>)

  /** What can own a page: a directory itself, an entry of it, or a page table's entry for user page `v`. */
  datatype Slot = Root(d: nat) | Pde(d: nat, i: nat) | User(d: nat, v: nat)

  predicate SlotOk(m: Spaces, s: Slot) {
    s.d in m.dirs && (s.Pde? ==> s.i < ENTRIES) && (s.User? ==> s.v < USER_PAGES)
  }

  function Page(e: Pte): (p: nat) {
    if e.To? then e.ppn else 0
  }

  /** The entry of `d` for page `v`, if there is a table for it. */
  function Entry(m: Spaces, d: nat, v: nat): (e: Pte)
    requires d in m.table && v < ENTRIES * ENTRIES
  {
    var q := Page(m.table[d][v / ENTRIES]);
    if q in m.table && q != 0 then m.table[q][v % ENTRIES] else Absent
  }

  function Ptr(m: Spaces, s: Slot): (p: nat)
    requires SlotOk(m, s) && s.d in m.table
  {
    match s
    case Root(d) => d
    case Pde(d, i) => Page(m.table[d][i])
    case User(d, v) => Page(Entry(m, d, v))
  }

  /** Directories and the tables they list are there; what is present names a page. */
  ghost predicate Shaped(m: Spaces) {
    && (forall d :: d in m.dirs ==> d in m.table && d != 0)
    && (forall d, i :: d in m.dirs && 0 <= i < ENTRIES && m.table[d][i].To? ==>
          m.table[d][i].ppn != 0 && m.table[d][i].ppn in m.table)
    && (forall d, v :: d in m.dirs && 0 <= v < USER_PAGES && Entry(m, d, v).To? ==> Entry(m, d, v).ppn != 0)
  }

  /** Every page is free, or owned by exactly one slot, or held by someone else in the kernel. */
  ghost predicate Owned(m: Spaces, owner: map<nat, Slot>, held: set<nat>, free: set<nat>, all: set<nat>) {
    && Shaped(m) && 0 !in all
    && (forall s :: SlotOk(m, s) && Ptr(m, s) != 0 ==> Ptr(m, s) in owner && owner[Ptr(m, s)] == s)
    && (forall p :: p in owner ==> SlotOk(m, owner[p]) && Ptr(m, owner[p]) == p)
    && all == owner.Keys + held + free && owner.Keys !! held !! free
  }

  // ---- single changes ----

  /** Entry for entry, directory `d` of `m'` is that of `m`, except for page `x`. */
  ghost predicate SameBut(m: Spaces, m': Spaces, d: nat, x: int)
    requires d in m.table && d in m'.table
  {
    forall v :: 0 <= v < ENTRIES * ENTRIES && v != x ==> Entry(m', d, v) == Entry(m, d, v)
  }

  function AddDir(m: Spaces, d: nat): (r: Spaces) {
    Spaces(m.dirs + {d}, m.table[d := Blank])
  }

  /** A page that is free or held is neither a directory nor listed in one. */
  lemma Unused(m: Spaces, owner: map<nat, Slot>, held: set<nat>, free: set<nat>, all: set<nat>, p: nat)
    requires Owned(m, owner, held, free, all) && p in held + free
    ensures p != 0 && p !in m.dirs && p !in owner
    ensures forall d, i :: d in m.dirs && 0 <= i < ENTRIES ==> Page(m.table[d][i]) != p
  {
    assert p in m.dirs ==> Ptr(m, Root(p)) == p;
    forall d, i | d in m.dirs && 0 <= i < ENTRIES
      ensures Page(m.table[d][i]) != p
    {
      assert Ptr(m, Pde(d, i)) == Page(m.table[d][i]);
    }
  }

  /** A held page becomes a directory without entries. */
  lemma DirAdded(m: Spaces, owner: map<nat, Slot>, held: set<nat>, free: set<nat>, all: set<nat>, d: nat)
    requires Owned(m, owner, held, free, all) && d in held
    ensures Owned(AddDir(m, d), owner[d := Root(d)], held - {d}, free, all)
    ensures d !in m.dirs && forall v :: 0 <= v < ENTRIES * ENTRIES ==> Entry(AddDir(m, d), d, v) == Absent
    ensures forall e :: e in m.dirs ==> SameBut(m, AddDir(m, d), e, -1)
  {
    var r := AddDir(m, d);
    Unused(m, owner, held, free, all, d);
    forall e | e in m.dirs
      ensures SameBut(m, r, e, -1)
    {
    }
    forall s | SlotOk(r, s)
      ensures Ptr(r, s) == if s.d == d then (if s.Root? then d else 0) else Ptr(m, s)
    {
      assert s.d != d ==> SameBut(m, r, s.d, -1);
    }
    assert Shaped(r);
  }

  function SetPde(m: Spaces, d: nat, i: nat, q: nat, perm: int): (r: Spaces)
    requires d in m.table && i < ENTRIES
  {
    m.(table := m.table[q := Blank][d := m.table[d][i := To(q, perm)]])
  }

  /** A held page becomes a page table without entries. */
  lemma PdeSet(m: Spaces, owner: map<nat, Slot>, held: set<nat>, free: set<nat>, all: set<nat>, d: nat, i: nat, q: nat,
               perm: int)
    requires Owned(m, owner, held, free, all) && q in held && d in m.dirs && i < ENTRIES && m.table[d][i] == Absent
    ensures Owned(SetPde(m, d, i, q, perm), owner[q := Pde(d, i)], held - {q}, free, all)
    ensures forall e :: e in m.dirs ==> SameBut(m, SetPde(m, d, i, q, perm), e, -1)
  {
    var r := SetPde(m, d, i, q, perm);
    Unused(m, owner, held, free, all, q);
    NoTwoRoles(m, owner, held, free, all, d);
    forall e | e in m.dirs
      ensures SameBut(m, r, e, -1)
    {
    }
    forall s | SlotOk(r, s)
      ensures Ptr(r, s) == if s == Pde(d, i) then q else Ptr(m, s)
    {
      assert SameBut(m, r, s.d, -1);
    }
    assert Shaped(r);
  }

  /** A directory is not listed as a page table. */
  lemma NoTwoRoles(m: Spaces, owner: map<nat, Slot>, held: set<nat>, free: set<nat>, all: set<nat>, d: nat)
    requires Owned(m, owner, held, free, all) && d in m.dirs
    ensures forall e, i :: e in m.dirs && 0 <= i < ENTRIES ==> Page(m.table[e][i]) != d
  {
    forall e, i | e in m.dirs && 0 <= i < ENTRIES
      ensures Page(m.table[e][i]) != d
    {
      assert Ptr(m, Pde(e, i)) == Page(m.table[e][i]) && Ptr(m, Root(d)) == d;
    }
  }

  function SetEntry(m: Spaces, d: nat, v: nat, e: Pte): (r: Spaces)
    requires d in m.table && v < ENTRIES * ENTRIES && Page(m.table[d][v / ENTRIES]) in m.table
  {
    var q := Page(m.table[d][v / ENTRIES]);
    m.(table := m.table[q := m.table[q][v % ENTRIES := e]])
  }

  /** Writing one entry changes that entry of that directory and nothing else. */
  lemma EntrySet(m: Spaces, owner: map<nat, Slot>, held: set<nat>, free: set<nat>, all: set<nat>, d: nat, v: nat,
                 e: Pte)
    requires Owned(m, owner, held, free, all) && d in m.dirs && v < ENTRIES * ENTRIES && m.table[d][v / ENTRIES].To?
    ensures Page(m.table[d][v / ENTRIES]) in m.table
    ensures var r := SetEntry(m, d, v, e);
      && r.dirs == m.dirs && (forall c :: c in m.dirs ==> c in r.table && r.table[c] == m.table[c])
      && Entry(r, d, v) == e
      && forall c :: c in m.dirs ==> SameBut(m, r, c, if c == d then v else -1)
  {
    var (r, q) := (SetEntry(m, d, v, e), m.table[d][v / ENTRIES].ppn);
    forall c | c in m.dirs
      ensures c != q
    {
      NoTwoRoles(m, owner, held, free, all, c);
    }
    forall c, u | c in m.dirs && 0 <= u < ENTRIES * ENTRIES && (c, u) != (d, v)
      ensures Entry(r, c, u) == Entry(m, c, u)
    {
      assert Ptr(m, Pde(c, u / ENTRIES)) == Page(m.table[c][u / ENTRIES]) && Ptr(m, Pde(d, v / ENTRIES)) == q;
      assert u == u / ENTRIES * ENTRIES + u % ENTRIES && v == v / ENTRIES * ENTRIES + v % ENTRIES;
    }
  }

  /** A held page becomes a user page. */
  lemma UserSet(m: Spaces, owner: map<nat, Slot>, held: set<nat>, free: set<nat>, all: set<nat>, d: nat, v: nat, p: nat,
                perm: int)
    requires Owned(m, owner, held, free, all) && d in m.dirs && v < USER_PAGES && m.table[d][v / ENTRIES].To?
    requires p in held && Entry(m, d, v) == Absent
    ensures Owned(SetEntry(m, d, v, To(p, perm)), owner[p := User(d, v)], held - {p}, free, all)
  {
    EntrySet(m, owner, held, free, all, d, v, To(p, perm));
    var r := SetEntry(m, d, v, To(p, perm));
    hide SetEntry;
    forall s | SlotOk(r, s)
      ensures Ptr(r, s) == if s == User(d, v) then p else Ptr(m, s)
    {
      assert SameBut(m, r, s.d, if s.d == d then v else -1);
    }
    assert Shaped(r) by {
      assert forall c :: c in m.dirs ==> SameBut(m, r, c, if c == d then v else -1);
    }
  }

  /** A user page becomes a held page. */
  lemma UserCleared(m: Spaces, owner: map<nat, Slot>, held: set<nat>, free: set<nat>, all: set<nat>, d: nat, v: nat)
    requires Owned(m, owner, held, free, all) && d in m.dirs && v < USER_PAGES && Entry(m, d, v).To?
    ensures Page(m.table[d][v / ENTRIES]) in m.table
    ensures var p := Entry(m, d, v).ppn;
      p in owner && owner[p] == User(d, v) && Owned(SetEntry(m, d, v, Absent), owner - {p}, held + {p}, free, all)
  {
    assert Ptr(m, User(d, v)) != 0;
    EntrySet(m, owner, held, free, all, d, v, Absent);
    var r := SetEntry(m, d, v, Absent);
    hide SetEntry;
    forall s | SlotOk(r, s)
      ensures Ptr(r, s) == if s == User(d, v) then 0 else Ptr(m, s)
    {
      assert SameBut(m, r, s.d, if s.d == d then v else -1);
    }
    assert Shaped(r) by {
      assert forall c :: c in m.dirs ==> SameBut(m, r, c, if c == d then v else -1);
    }
  }

  /** Entries for kernel addresses own nothing. */
  lemma KernelSet(m: Spaces, owner: map<nat, Slot>, held: set<nat>, free: set<nat>, all: set<nat>, d: nat, v: nat,
                  e: Pte)
    requires Owned(m, owner, held, free, all) && d in m.dirs && USER_PAGES <= v < ENTRIES * ENTRIES
    requires m.table[d][v / ENTRIES].To?
    ensures Page(m.table[d][v / ENTRIES]) in m.table && Owned(SetEntry(m, d, v, e), owner, held, free, all)
  {
    EntrySet(m, owner, held, free, all, d, v, e);
    var r := SetEntry(m, d, v, e);
    hide SetEntry;
    forall s | SlotOk(r, s)
      ensures Ptr(r, s) == Ptr(m, s)
    {
      assert SameBut(m, r, s.d, if s.d == d then v else -1);
    }
    assert Shaped(r) by {
      assert forall c :: c in m.dirs ==> SameBut(m, r, c, if c == d then v else -1);
    }
  }

  ghost function Others(owner: map<nat, Slot>, d: nat): (r: map<nat, Slot>) {
    map p | p in owner && owner[p].d != d :: owner[p]
  }

  ghost function Of(owner: map<nat, Slot>, d: nat): (r: set<nat>) {
    set p | p in owner && owner[p].d == d
  }

  /** A directory given up: all its pages become held pages. */
  lemma DirDropped(m: Spaces, owner: map<nat, Slot>, held: set<nat>, free: set<nat>, all: set<nat>, d: nat)
    requires Owned(m, owner, held, free, all) && d in m.dirs
    ensures Owned(m.(dirs := m.dirs - {d}), Others(owner, d), held + Of(owner, d), free, all)
  {
    var r := m.(dirs := m.dirs - {d});
    assert forall s :: SlotOk(r, s) ==> SlotOk(m, s) && Ptr(r, s) == Ptr(m, s);
    assert forall e, v :: e in r.dirs && 0 <= v < USER_PAGES ==> Entry(r, e, v) == Entry(m, e, v);
    assert owner.Keys == Others(owner, d).Keys + Of(owner, d);
  }
}
