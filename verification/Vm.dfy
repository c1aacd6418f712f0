/** The page allocator and the functions that build, grow, shrink, copy and free address spaces, in place. */
module Vm {
  import opened Basics
  import opened PageMap

  const PGSIZE := 4096
  const KERNBASE := 0x8000_0000
  const PTE_W := 2
  const PTE_U := 4

  /** `n` pages from virtual page `v` on are mapped to the physical pages from `p` on. */
  datatype Range = Range(v: nat, n: nat, p: nat, perm: int)

  /** Number of pages that hold `sz` bytes. */
  function Pages(sz: nat): (n: nat) {
    (sz + PGSIZE - 1) / PGSIZE
  }

  // ---- the free list ----

  ghost predicate ListOk(head: nat, next: map<nat, nat>, list: seq<nat>) {
    && (list == [] ==> head == 0) && (list != [] ==> head == list[0])
    && (forall k :: 0 <= k < |list| ==> NextOk(next, list, k))
    && (forall j, k :: 0 <= j < k < |list| ==> list[j] != list[k])
  }

  ghost predicate NextOk(next: map<nat, nat>, list: seq<nat>, k: nat)
    requires k < |list|
  {
    list[k] in next && list[k] != 0 && next[list[k]] == if k + 1 < |list| then list[k + 1] else 0
  }

  ghost function Elements(list: seq<nat>): (r: set<nat>) {
    set p | p in list
  }

  function Numbers(lo: nat, hi: nat): (r: set<nat>)
    ensures forall p :: p in r <==> lo <= p < hi
    decreases hi
  {
    if lo >= hi then {} else Numbers(lo, hi - 1) + {hi - 1}
  }

  class Memory {
    /** The pages there are, and the kernel's mappings. */
    const all: set<nat>
    const kmap: seq<Range>
    var head: nat
    var next: map<nat, nat>
    var table: map<nat, Table>
    ghost var list: seq<nat>
    ghost var dirs: set<nat>
    ghost var owner: map<nat, Slot>
    ghost var held: set<nat>

    ghost function View(): (m: Spaces)
      reads this
    {
      Spaces(dirs, table)
    }

    /** Every page is on the free list, or owned by exactly one directory, table or user mapping, or held elsewhere. */
    ghost predicate Valid()
      reads this
    {
      ListOk(head, next, list) && Owned(View(), owner, held, Elements(list), all) && KmapOk(kmap)
    }

    /** Before kinit: all pages from `lo` to `hi` are held by the boot code. */
    constructor (lo: nat, hi: nat, kernel: seq<Range>)
      requires 0 < lo && KmapOk(kernel)
      ensures Valid() && kmap == kernel && dirs == {} && owner == map[] && list == [] && held == all
      ensures forall p :: p in all <==> lo <= p < hi
    {
      all, kmap, head, next, table := Numbers(lo, hi), kernel, 0, map[], map[];
      list, dirs, owner, held := [], {}, map[], Numbers(lo, hi);
    }

    /** freerange: the pages from `lo` to `hi` become free, one by one. */
    method FreeRange(lo: nat, hi: nat)
      requires Valid() && lo <= hi && Numbers(lo, hi) <= held
      modifies `head, `next, `list, `held
      ensures Valid() && held == old(held) - Numbers(lo, hi) && Elements(list) == old(Elements(list)) + Numbers(lo, hi)
    {
      var p := lo;
      while p < hi
        invariant lo <= p <= hi && Valid() && held == old(held) - Numbers(lo, p)
        invariant Elements(list) == old(Elements(list)) + Numbers(lo, p)
      {
        assert p in Numbers(lo, hi);
        ghost var was := list;
        Kfree(p);
        assert Elements(list) == Elements(was) + {p};
        p := p + 1;
      }
    }

    method Kalloc() returns (p: nat)
      requires Valid()
      modifies `head, `list, `held
      ensures Valid()
      ensures p == 0 ==> list == [] && old(list) == [] && held == old(held)
      ensures p != 0 ==> p !in old(held) && held == old(held) + {p} && list == old(list)[1..] && p in old(list)
    {
      p := head;
      if p != 0 {
        assert NextOk(next, list, 0);
        head := next[p];
        held := held + {p};
        assert Elements(list) == Elements(list[1..]) + {p};
        list := list[1..];
        forall k | 0 <= k < |list|
          ensures NextOk(next, list, k)
        {
          assert NextOk(next, old(list), k + 1);
        }
      }
    }

    method Kfree(p: nat)
      requires Valid() && p in held
      modifies `head, `next, `list, `held
      ensures Valid() && held == old(held) - {p} && list == [p] + old(list)
    {
      next := next[p := head];
      head := p;
      held := held - {p};
      ghost var was := list;
      list := [p] + list;
      assert Elements(list) == Elements(was) + {p};
      forall k | 0 <= k < |list|
        ensures NextOk(next, list, k)
      {
        assert k > 0 ==> NextOk(old(next), was, k - 1);
      }
    }

    /** A new page table for entry `i` of directory `d`, or 0. */
    method AddTable(d: nat, i: nat) returns (q: nat)
      requires Valid() && d in dirs && i < ENTRIES && d in table && table[d][i] == Absent
      modifies this
      ensures Valid() && dirs == old(dirs) && held == old(held) && d in table && q == Page(table[d][i])
      ensures Same(old(View()), View()) && Grew(old(owner), owner, d, 0, 0)
      ensures q == 0 ==> table == old(table) && owner == old(owner) && list == old(list)
      ensures q == 0 ==> |list| < |{i} - Indices(table[d])|
      ensures q != 0 ==> Spent(old(table[d]), old(|list|), table[d], |list|, {i}, 0)
    {
      hide Owned, Entry, ListOk, Spent, Indices;
      Tables(View(), owner, held, Elements(list), all);
      q := Kalloc();
      if q == 0 {
        NoTable(table[d], i);
        return;
      }
      ghost var m := View();
      PdeSet(m, owner, held, Elements(list), all, d, i, q, 7);
      Unused(m, owner, held, Elements(list), all, q);
      TableSpent(table[d], old(|list|), i, q, 7);
      table := table[q := Blank];
      table := table[d := table[d][i := To(q, 7)]];
      owner := owner[q := Pde(d, i)];
      held := held - {q};
      assert View() == SetPde(m, d, i, q, 7);
    }

    /** The page table of directory `d` for page `v`, made if asked for and missing; 0 if there is none. */
    method WalkPgdir(d: nat, v: nat, alloc: bool) returns (q: nat)
      requires Valid() && d in dirs && v < ENTRIES * ENTRIES
      modifies this
      ensures Valid() && dirs == old(dirs) && held == old(held) && d in old(table) && d in table
      ensures q == Page(table[d][v / ENTRIES])
      ensures Same(old(View()), View()) && Grew(old(owner), owner, d, 0, 0)
      ensures !alloc || q == 0 || old(table)[d][v / ENTRIES].To? ==>
        table == old(table) && owner == old(owner) && list == old(list)
      ensures alloc && q == 0 ==> |list| < |{v / ENTRIES} - Indices(table[d])|
      ensures alloc && q != 0 ==> Spent(old(table[d]), old(|list|), table[d], |list|, {v / ENTRIES}, 0)
    {
      hide Spent, Indices, Owned, ListOk, Entry;
      Tables(View(), owner, held, Elements(list), all);
      if table[d][v / ENTRIES].To? {
        NothingSpent(table[d], |list|, v / ENTRIES);
        TablesThere(View(), owner, held, Elements(list), all, d, v / ENTRIES);
        return table[d][v / ENTRIES].ppn;
      }
      q := 0;
      if alloc {
        q := AddTable(d, v / ENTRIES);
      }
    }

    /** Fill an absent entry of page table `q`. */
    method PutEntry(d: nat, v: nat, q: nat, p: nat, perm: int)
      requires Valid() && d in dirs && d in table && v < ENTRIES * ENTRIES && (v < USER_PAGES ==> p in held)
      requires q == Page(table[d][v / ENTRIES]) && q != 0 && q in table && Entry(View(), d, v) == Absent
      modifies `table, `owner, `held
      ensures Valid() && Grew(old(owner), owner, d, v, v + 1)
      ensures held == if v < USER_PAGES then old(held) - {p} else old(held)
      ensures d in table && table[d] == old(table[d]) && Entry(View(), d, v) == To(p, perm)
      ensures forall c :: c in dirs ==>
        c in old(table) && c in table && SameBut(old(View()), View(), c, if c == d then v else -1)
    {
      hide Owned, Entry, ListOk;
      Tables(View(), owner, held, Elements(list), all);
      ghost var m := View();
      EntrySet(m, owner, held, Elements(list), all, d, v, To(p, perm));
      assert SetEntry(m, d, v, To(p, perm)) == Spaces(dirs, table[q := table[q][v % ENTRIES := To(p, perm)]]);
      hide SetEntry;
      if v < USER_PAGES {
        Unused(m, owner, held, Elements(list), all, p);
        UserSet(m, owner, held, Elements(list), all, d, v, p, perm);
        owner := owner[p := User(d, v)];
        held := held - {p};
      } else {
        KernelSet(m, owner, held, Elements(list), all, d, v, To(p, perm));
      }
      table := table[q := table[q][v % ENTRIES := To(p, perm)]];
    }

    /** Map one page: a held page for a user address, any page for a kernel address. It fails if there is no memory
        for a page table, and panics if the page is mapped already. */
    method MapOne(d: nat, v: nat, p: nat, perm: int) returns (ok: bool, remap: bool)
      requires Valid() && d in dirs && v < ENTRIES * ENTRIES && (v < USER_PAGES ==> p in held)
      modifies this
      ensures Valid() && dirs == old(dirs) && Grew(old(owner), owner, d, v, if ok then v + 1 else v)
      ensures held == if ok && v < USER_PAGES then old(held) - {p} else old(held)
      ensures remap == old(Entry(View(), d, v)).To? && (remap ==> !ok)
      ensures !ok ==> Same(old(View()), View())
      ensures !ok && !remap ==> d in old(table) && old(|list|) < |{v / ENTRIES} - Indices(old(table[d]))|
      ensures ok ==> d in old(table) && d in table
      ensures ok ==> Spent(old(table[d]), old(|list|), table[d], |list|, {v / ENTRIES}, 0)
      ensures ok ==> Entry(View(), d, v) == To(p, perm)
      ensures ok ==> forall c :: c in dirs ==> SameBut(old(View()), View(), c, if c == d then v else -1)
    {
      hide Owned, Entry, ListOk, Spent, Indices;
      Tables(View(), owner, held, Elements(list), all);
      var q := WalkPgdir(d, v, true);
      Tables(View(), owner, held, Elements(list), all);
      ghost var m := View();
      EntryIn(m, owner, held, Elements(list), all, d, v, q);
      assert SameBut(old(View()), m, d, -1);
      if q == 0 {
        return false, false;
      }
      remap := table[q][v % ENTRIES].To?;
      if remap {
        return false, remap;
      }
      PutEntry(d, v, q, p, perm);
      ok := true;
      forall c | c in dirs
        ensures SameBut(old(View()), View(), c, if c == d then v else -1)
      {
        assert SameBut(old(View()), m, c, -1) && SameBut(m, View(), c, if c == d then v else -1);
      }
    }

    /** mappages for a range of kernel addresses: all of it; or a failure for want of memory, which leaves user
        addresses alone; or a panic because some page of it is mapped. */
    method MapRange(d: nat, v: nat, n: nat, p: nat, perm: int) returns (ok: bool, remap: bool)
      requires Valid() && d in dirs && USER_PAGES <= v && 0 < n && v + n <= ENTRIES * ENTRIES
      modifies this
      ensures Valid() && dirs == old(dirs) && held == old(held) && Grew(old(owner), owner, d, v, v + n)
      ensures d in old(table) && SameApart(old(View()), View(), d, v, v + n)
      ensures ok ==> AbsentIn(old(View()), d, v, v + n) && RangeMapped(View(), d, Range(v, n, p, perm))
      ensures remap ==> !ok && !AbsentIn(old(View()), d, v, v + n)
      ensures ok ==> d in table && Spent(old(table[d]), old(|list|), table[d], |list|, Span(v, v + n), 0)
      ensures !ok && !remap ==> old(|list|) < |Span(v, v + n) - Indices(old(table[d]))|
    {
      hide Owned, Entry, ListOk, Spent, Span, Indices, RangeMapped, SameApart;
      Tables(View(), owner, held, Elements(list), all);
      NoneSpent(table[d], |list|, v);
      NoneMapped(View(), d, v, p, perm);
      var i := 0;
      while true
        invariant 0 <= i < n && Valid() && dirs == old(dirs) && held == old(held)
        invariant Grew(old(owner), owner, d, v, v + n)
        invariant d in table && SameApart(old(View()), View(), d, v, v + i) && AbsentIn(old(View()), d, v, v + i)
        invariant RangeMapped(View(), d, Range(v, i, p, perm))
        invariant Spent(old(table[d]), old(|list|), table[d], |list|, Span(v, v + i), 0)
        decreases n - i
      {
        ghost var (m, t, l) := (View(), table[d], |list|);
        Tables(m, owner, held, Elements(list), all);
        ok, remap := MapOne(d, v + i, p + i, perm);
        Tables(View(), owner, held, Elements(list), all);
        SameApartAt(old(View()), m, d, v, v + i, v + n);
        SpanNext(v, v + i, v + n);
        if !ok {
          SameApartSame(old(View()), m, View(), d, v, v + i, v + n);
          if !remap {
            Short(old(table[d]), old(|list|), t, l, Span(v, v + i), 0, {(v + i) / ENTRIES}, 0, Span(v, v + n), 0);
          }
          return;
        }
        RangeNext(m, View(), d, v, i, p, perm);
        SameApartNext(old(View()), m, View(), d, v, v + i);
        SpentMore(old(table[d]), old(|list|), t, l, table[d], |list|, Span(v, v + i), 0, {(v + i) / ENTRIES}, 0);
        if i == n - 1 {
          return;
        }
        i := i + 1;
      }
    }

    /** Unmap and free one user page. */
    method Unmap(d: nat, v: nat, q: nat)
      requires Valid() && d in dirs && v < USER_PAGES && Entry(View(), d, v).To? && q == Page(table[d][v / ENTRIES])
      modifies this
      ensures Valid() && dirs == old(dirs) && held == old(held)
      ensures old(Entry(View(), d, v)).ppn in old(owner) && owner == old(owner) - {old(Entry(View(), d, v)).ppn}
      ensures old(owner)[old(Entry(View(), d, v)).ppn] == User(d, v) && Entry(View(), d, v) == Absent
      ensures forall c :: c in dirs ==> SameBut(old(View()), View(), c, if c == d then v else -1)
    {
      ghost var m := View();
      var p := table[q][v % ENTRIES].ppn;
      UserCleared(m, owner, held, Elements(list), all, d, v);
      EntrySet(m, owner, held, Elements(list), all, d, v, Absent);
      assert p != 0 && p in owner;
      table := table[q := table[q][v % ENTRIES := Absent]];
      owner := owner - {p};
      held := held + {p};
      assert View() == SetEntry(m, d, v, Absent);
      Kfree(p);
    }

    /** Shrink the user part from `oldsz` to `newsz` bytes: exactly the pages in between are unmapped and freed,
        although whole missing page tables are skipped. */
    method DeallocUvm(d: nat, oldsz: nat, newsz: nat) returns (sz: nat)
      requires Valid() && d in dirs && oldsz <= KERNBASE
      modifies this
      ensures Valid() && dirs == old(dirs) && held == old(held)
      ensures sz == if newsz >= oldsz then oldsz else newsz
      ensures SameApart(old(View()), View(), d, Pages(newsz), Pages(oldsz))
      ensures newsz < oldsz ==> Pages(oldsz) <= USER_PAGES && AbsentIn(View(), d, Pages(newsz), Pages(oldsz))
      ensures owner == Without(old(owner), d, Pages(newsz), Pages(oldsz))
    {
      hide Owned, Entry;
      Tables(View(), owner, held, Elements(list), all);
      PagesBound(oldsz);
      ghost var (lo, hi) := (Pages(newsz), Pages(oldsz));
      if newsz >= oldsz {
        PagesRise(oldsz, newsz);
        assert Without(owner, d, lo, hi) == owner;
        return oldsz;
      }
      PagesRise(newsz, oldsz);
      var v := Pages(newsz);
      while v * PGSIZE < oldsz
        invariant lo <= v && Valid() && dirs == old(dirs) && held == old(held) && d in table && v <= ENTRIES * ENTRIES
        invariant SameApart(old(View()), View(), d, lo, Min(v, hi)) && AbsentIn(View(), d, lo, Min(v, hi))
        invariant Shrunk(old(owner), owner, d, lo, Min(v, hi))
        decreases ENTRIES * ENTRIES - v
      {
        PagesBelow(v, oldsz);
        ghost var m := View();
        var q := WalkPgdir(d, v, false);
        EntryIn(m, owner, held, Elements(list), all, d, v, q);
        if q == 0 {
          v := (v / ENTRIES + 1) * ENTRIES;
        } else {
          if table[q][v % ENTRIES].To? {
            Unmap(d, v, q);
            Tables(View(), owner, held, Elements(list), all);
          }
          v := v + 1;
        }
      }
      PagesBelow(v, oldsz);
      ShrunkIs(View(), old(owner), owner, held, Elements(list), all, d, lo, hi);
      sz := newsz;
    }

    /** Free a directory that has been given up, and the tables it lists. */
    method FreeTables(d: nat)
      requires Valid() && d in table && Once(table[d]) && d !in Listed(table[d], 0) && {d} + Listed(table[d], 0) <= held
      modifies `head, `next, `list, `held
      ensures Valid() && held == old(held) - {d} - Listed(table[d], 0)
    {
      hide Owned, ListOk, Listed;
      ghost var rest := held - Listed(table[d], 0);
      var i := 0;
      while i < ENTRIES
        invariant 0 <= i <= ENTRIES && Valid() && held == rest + Listed(table[d], i)
      {
        ListedNext(table[d], i);
        if table[d][i].To? {
          Kfree(table[d][i].ppn);
        }
        i := i + 1;
      }
      ListedNone(table[d]);
      Kfree(d);
    }

    /** Give an address space up: exactly its pages, each once, become free. */
    method FreeVm(d: nat)
      requires Valid() && d in dirs
      modifies this
      ensures Valid() && dirs == old(dirs) - {d} && held == old(held) && owner == Others(old(owner), d)
      ensures Kept(old(View()), View(), dirs)
    {
      hide Entry, Listed, ListOk, Owned, Others, Of, Without, Once;
      var _ := DeallocUvm(d, KERNBASE, 0);
      assert Pages(KERNBASE) == USER_PAGES && Pages(0) == 0;
      Tables(View(), owner, held, Elements(list), all);
      OnlyTables(View(), owner, held, Elements(list), all, d);
      DirDropped(View(), owner, held, Elements(list), all, d);
      OfApart(View(), owner, held, Elements(list), all, d);
      OthersWithout(old(owner), d, 0, USER_PAGES);
      TablesOnly(old(View()), View(), dirs - {d}, d);
      dirs, owner, held := dirs - {d}, Others(owner, d), held + Of(owner, d);
      FreeTables(d);
    }

    /** Map one of the kernel's ranges. */
    method MapKernelNext(d: nat, k: nat, ghost m: Spaces) returns (ok: bool)
      requires Valid() && d in dirs && k < |kmap| && d in table
      requires SameApart(m, View(), d, USER_PAGES, KernelTop(kmap, k)) && Covers(View(), d, kmap, k)
      requires AbsentIn(View(), d, KernelTop(kmap, k), ENTRIES * ENTRIES)
      modifies this
      ensures Valid() && dirs == old(dirs) && held == old(held) && Others(owner, d) == old(Others(owner, d))
      ensures d in table
      ensures USER_PAGES <= KernelTop(kmap, k + 1) <= ENTRIES * ENTRIES
      ensures SameApart(m, View(), d, USER_PAGES, KernelTop(kmap, k + 1))
      ensures AbsentIn(View(), d, KernelTop(kmap, k + 1), ENTRIES * ENTRIES)
      ensures ok ==> Covers(View(), d, kmap, k + 1)
      ensures ok ==> Spent(old(table[d]), old(|list|), table[d], |list|, RangeTables(kmap[k]), 0)
      ensures !ok ==> old(|list|) < |RangeTables(kmap[k]) - Indices(old(table[d]))|
    {
      hide Entry, ListOk, Owned, Others, RangeMapped, Spent, Indices, Span;
      Tables(View(), owner, held, Elements(list), all);
      ghost var (was, own) := (View(), owner);
      KernelNext(kmap, k);
      var remap;
      ok, remap := MapRange(d, kmap[k].v, kmap[k].n, kmap[k].p, kmap[k].perm);
      Tables(View(), owner, held, Elements(list), all);
      GrewOthers(own, owner, d, kmap[k].v, kmap[k].v + kmap[k].n);
      SameApartTwice(m, was, View(), d, USER_PAGES, KernelTop(kmap, k), kmap[k].v, kmap[k].v + kmap[k].n);
      if ok {
        CoversNext(was, View(), d, kmap, k);
      }
    }

    /** The loop of setupkvm. */
    method MapKernel(d: nat) returns (ok: bool)
      requires Valid() && d in dirs && d in table && AbsentIn(View(), d, USER_PAGES, ENTRIES * ENTRIES)
      modifies this
      ensures Valid() && dirs == old(dirs) && held == old(held) && Others(owner, d) == old(Others(owner, d))
      ensures d in table
      ensures SameApart(old(View()), View(), d, USER_PAGES, ENTRIES * ENTRIES)
      ensures ok ==> Covers(View(), d, kmap, |kmap|)
      ensures ok ==> Spent(old(table[d]), old(|list|), table[d], |list|, KernelTables(kmap, |kmap|), 0)
      ensures !ok ==> old(|list|) < |KernelTables(kmap, |kmap|) - Indices(old(table[d]))|
    {
      hide Entry, ListOk, Owned, Others, RangeMapped, Spent, Indices, RangeTables;
      Tables(View(), owner, held, Elements(list), all);
      NoneSpent(table[d], |list|, 0);
      var k := 0;
      while k < |kmap|
        invariant 0 <= k <= |kmap| && Valid() && held == old(held) && dirs == old(dirs) && d in table
        invariant Others(owner, d) == old(Others(owner, d)) && Covers(View(), d, kmap, k)
        invariant USER_PAGES <= KernelTop(kmap, k) <= ENTRIES * ENTRIES
        invariant SameApart(old(View()), View(), d, USER_PAGES, KernelTop(kmap, k))
        invariant AbsentIn(View(), d, KernelTop(kmap, k), ENTRIES * ENTRIES)
        invariant Spent(old(table[d]), old(|list|), table[d], |list|, KernelTables(kmap, k), 0)
      {
        ghost var (t, l) := (table[d], |list|);
        ok := MapKernelNext(d, k, old(View()));
        KernelTablesRise(kmap, k + 1);
        if !ok {
          Short(old(table[d]), old(|list|), t, l, KernelTables(kmap, k), 0, RangeTables(kmap[k]), 0,
                KernelTables(kmap, |kmap|), 0);
          return;
        }
        SpentMore(old(table[d]), old(|list|), t, l, table[d], |list|, KernelTables(kmap, k), 0, RangeTables(kmap[k]),
                  0);
        k := k + 1;
      }
      ok := true;
    }

    /** A new directory without entries, or 0. */
    method NewDir() returns (d: nat)
      requires Valid()
      modifies this
      ensures Valid() && held == old(held)
      ensures d == 0 ==> dirs == old(dirs) && table == old(table) && owner == old(owner) && list == old(list) == []
      ensures d != 0 ==> d !in old(dirs) && dirs == old(dirs) + {d} && Others(owner, d) == old(owner)
      ensures d != 0 ==> d in table && table[d] == Blank && old(|list|) == |list| + 1
      ensures d != 0 ==> AbsentIn(View(), d, 0, ENTRIES * ENTRIES) && Kept(old(View()), View(), old(dirs))
    {
      hide Entry, ListOk, Owned, Others;
      Tables(View(), owner, held, Elements(list), all);
      d := Kalloc();
      if d == 0 {
        return;
      }
      DirAdded(View(), owner, held, Elements(list), all, d);
      FreshOwner(View(), owner, held, Elements(list), all, d);
      table := table[d := Blank];
      dirs, owner, held := dirs + {d}, owner[d := Root(d)], held - {d};
    }

    /** A new address space with the kernel's part only, or 0 and everything as it was: that is so exactly if there are
        not as many free pages as it takes, one for the directory and one for each page table. */
    method SetupKvm() returns (d: nat)
      requires Valid()
      modifies this
      ensures Valid() && held == old(held)
      ensures d == 0 ==> dirs == old(dirs) && owner == old(owner) && Elements(list) == old(Elements(list))
      ensures d != 0 ==> d !in old(dirs) && dirs == old(dirs) + {d} && Others(owner, d) == old(owner) && d in table
      ensures d != 0 ==> AbsentIn(View(), d, 0, USER_PAGES) && Covers(View(), d, kmap, |kmap|)
      ensures d != 0 ==> Spent(Blank, old(|list|), table[d], |list|, KernelTables(kmap, |kmap|), 1)
      ensures d == 0 <==> old(|list|) < 1 + |KernelTables(kmap, |kmap|)|
      ensures Kept(old(View()), View(), old(dirs))
    {
      hide Entry, ListOk, Owned, Others, Covers, Spent, Indices, KernelTables, Kept, SameApart, AbsentIn;
      ghost var m := View();
      BlankHas();
      Tables(m, owner, held, Elements(list), all);
      FreeIs(m, owner, held, Elements(list), all);
      KeptSelf(m);
      d := NewDir();
      if d == 0 {
        return;
      }
      ghost var m1 := View();
      AbsentApart(m1, m1, d, 0, USER_PAGES, ENTRIES * ENTRIES);
      var ok := MapKernel(d);
      KeptApart(m, m1, View(), old(dirs), d, USER_PAGES, ENTRIES * ENTRIES);
      if !ok {
        ghost var m2 := View();
        FreeVm(d);
        FreeIs(View(), owner, held, Elements(list), all);
        KeptTwice(m, m2, View(), old(dirs), dirs);
        return 0;
      }
      AbsentApart(m1, View(), d, 0, USER_PAGES, ENTRIES * ENTRIES);
      OnePage(Blank, old(|list|), table[d], |list|, KernelTables(kmap, |kmap|));
      SpentNeeds(Blank, old(|list|), table[d], |list|, KernelTables(kmap, |kmap|), 1);
    }

    /** kalloc of a page, and mappages of it at user page `v`. */
    method MapFresh(d: nat, v: nat, perm: int) returns (p: nat, ok: bool)
      requires Valid() && d in dirs && d in table && v < USER_PAGES && Entry(View(), d, v) == Absent
      modifies this
      ensures Valid() && dirs == old(dirs) && d in table
      ensures held == (if p == 0 || ok then old(held) else old(held) + {p}) && (ok ==> p != 0) && p !in old(held)
      ensures Grew(old(owner), owner, d, v, if ok then v + 1 else v)
      ensures SameApart(old(View()), View(), d, v, if ok then v + 1 else v)
      ensures ok ==> Entry(View(), d, v) == To(p, perm)
      ensures ok ==> Spent(old(table[d]), old(|list|), table[d], |list|, {v / ENTRIES}, 1)
      ensures !ok ==> old(|list|) < |{v / ENTRIES} - Indices(old(table[d]))| + 1
    {
      hide Owned, Entry, ListOk, Spent, Indices;
      Tables(View(), owner, held, Elements(list), all);
      NotHeldZero(View(), owner, held, Elements(list), all);
      ok := false;
      p := Kalloc();
      if p == 0 {
        return;
      }
      var remap;
      ok, remap := MapOne(d, v, p, perm);
      Tables(View(), owner, held, Elements(list), all);
      if ok {
        OnePage(old(table[d]), old(|list|), table[d], |list|, {v / ENTRIES});
      }
    }

    /** Take back what has been mapped so far. */
    method TakeBack(d: nat, oldsz: nat, newsz: nat, ghost m: Spaces, ghost was: map<nat, Slot>, ghost v: nat)
      requires Valid() && d in dirs && d in table && oldsz <= newsz < KERNBASE
      requires Pages(oldsz) <= v <= Pages(newsz) <= USER_PAGES
      requires SameApart(m, View(), d, Pages(oldsz), v) && AbsentIn(m, d, Pages(oldsz), Pages(newsz))
      requires Grew(was, owner, d, Pages(oldsz), v)
      requires forall p :: p in was ==> !UserIn(was[p], d, Pages(oldsz), Pages(newsz))
      modifies this
      ensures Valid() && dirs == old(dirs) && held == old(held)
      ensures SameApart(m, View(), d, 0, 0) && Grew(was, owner, d, 0, 0)
    {
      hide Owned, Entry, ListOk;
      ghost var (mid, own) := (View(), owner);
      var _ := DeallocUvm(d, newsz, oldsz);
      Undone(m, mid, View(), d, Pages(oldsz), v, Pages(newsz));
    }

    /** Grow the user part from `oldsz` to `newsz` bytes with fresh pages, exactly if there are enough of them and for
        the missing page tables; otherwise nothing is mapped that was not, and only page tables are kept. */
    method AllocUvm(d: nat, oldsz: nat, newsz: nat) returns (r: nat)
      requires Valid() && d in dirs && d in table
      requires (newsz < KERNBASE ==> AbsentIn(View(), d, Pages(oldsz), Min(Pages(newsz), USER_PAGES)))
      modifies this
      ensures Valid() && dirs == old(dirs) && held == old(held)
      ensures newsz >= KERNBASE || newsz < oldsz ==> unchanged(this) && r == if newsz >= KERNBASE then 0 else oldsz
      ensures oldsz <= newsz < KERNBASE ==>
        && Grown(old(View()), View(), old(owner), owner, d, Pages(oldsz), Pages(newsz), r == newsz)
        && (r == newsz || r == 0)
      ensures oldsz <= newsz < KERNBASE ==>
        var (lo, hi) := (Pages(oldsz), Pages(newsz));
        && (r == newsz <==> hi - lo + |Span(lo, hi) - Indices(old(table[d]))| <= old(|list|))
        && (r == newsz ==> Spent(old(table[d]), old(|list|), table[d], |list|, Span(lo, hi), hi - lo))
    {
      hide Owned, Entry, ListOk, Spent, Span, Indices, SameApart, Grew, PermIn;
      Tables(View(), owner, held, Elements(list), all);
      if newsz >= KERNBASE {
        return 0;
      }
      if newsz < oldsz {
        return oldsz;
      }
      PagesBound(newsz);
      PagesRise(oldsz, newsz);
      ghost var (lo, hi) := (Pages(oldsz), Pages(newsz));
      NoUsers(View(), owner, held, Elements(list), all, d, lo, hi);
      NoneSpent(table[d], |list|, lo);
      NoneGrown(View(), owner, d, lo);
      var v := Pages(oldsz);
      while v * PGSIZE < newsz
        invariant lo <= v <= hi && Valid() && dirs == old(dirs) && held == old(held) && d in table
        invariant SameApart(old(View()), View(), d, lo, v) && AbsentIn(View(), d, v, hi)
        invariant PermIn(View(), d, lo, v, PTE_W + PTE_U)
        invariant Grew(old(owner), owner, d, lo, v)
        invariant Spent(old(table[d]), old(|list|), table[d], |list|, Span(lo, v), v - lo)
        decreases hi - v
      {
        PagesBelow(v, newsz);
        ghost var (t, l) := (table[d], |list|);
        SpanNext(lo, v, hi);
        ghost var (m, own) := (View(), owner);
        var p, ok := MapFresh(d, v, PTE_W + PTE_U);
        GrownNext(old(View()), m, View(), old(owner), own, owner, d, lo, v, hi, ok);
        if !ok {
          Short(old(table[d]), old(|list|), t, l, Span(lo, v), v - lo, {v / ENTRIES}, 1, Span(lo, hi), hi - lo);
          TakeBack(d, oldsz, newsz, old(View()), old(owner), v);
          if p != 0 {
            Kfree(p);
          }
          return 0;
        }
        SpentMore(old(table[d]), old(|list|), t, l, table[d], |list|, Span(lo, v), v - lo, {v / ENTRIES}, 1);
        v := v + 1;
      }
      PagesBelow(v, newsz);
      SpentNeeds(old(table[d]), old(|list|), table[d], |list|, Span(lo, hi), hi - lo);
      r := newsz;
    }

    /** A copy of the first `sz` bytes of address space `d`, with pages of its own, or 0 and everything as it was: that
        is so exactly if there are not enough free pages for the copies and for all tables. */
    method CopyUvm(d: nat, sz: nat) returns (e: nat)
      requires Valid() && d in dirs && d in table && sz <= KERNBASE && Pages(sz) <= USER_PAGES
      requires PresentIn(View(), d, 0, Pages(sz))
      modifies this
      ensures Valid() && held == old(held)
      ensures e == 0 ==> dirs == old(dirs) && owner == old(owner) && Elements(list) == old(Elements(list))
      ensures e != 0 ==> e !in old(dirs) && dirs == old(dirs) + {e} && Others(owner, e) == old(owner) && e in table
      ensures e != 0 ==> Copied(old(View()), View(), d, e, Pages(sz))
      ensures e != 0 ==> AbsentIn(View(), e, Pages(sz), USER_PAGES) && Covers(View(), e, kmap, |kmap|)
      ensures e == 0 <==> old(|list|) < 1 + Pages(sz) + |KernelTables(kmap, |kmap|) + Span(0, Pages(sz))|
      ensures Kept(old(View()), View(), old(dirs))
    {
      hide Owned, Entry, ListOk, Others, Covers, Spent, Span, Indices, KernelTables, CopyOf, AbsentIn, PresentIn, Kept;
      FreeIs(View(), owner, held, Elements(list), all);
      Tables(View(), owner, held, Elements(list), all);
      ghost var (m, n, kt, pages) := (View(), |list|, KernelTables(kmap, |kmap|), Pages(sz));
      e := SetupKvm();
      KernelFirst(n, kmap, pages);
      if e == 0 {
        return;
      }
      ghost var (m1, t1, n1) := (View(), table[e], |list|);
      KeptPresent(m, m1, old(dirs), d, pages);
      var ok := CopyPages(d, e, sz);
      Tables(View(), owner, held, Elements(list), all);
      KeptApart(m, m1, View(), old(dirs), e, 0, USER_PAGES);
      if !ok {
        CopyShort(n, t1, n1, kt, pages);
        ghost var m2 := View();
        FreeVm(e);
        FreeIs(View(), owner, held, Elements(list), all);
        KeptTwice(m, m2, View(), old(dirs), dirs);
        return 0;
      }
      CopyNeeds(n, t1, n1, table[e], |list|, kt, pages);
      CopiedFrom(m, m1, View(), d, e, pages);
    }

    /** The loop of copyuvm. */
    method CopyPages(d: nat, e: nat, sz: nat) returns (ok: bool)
      requires Valid() && d in dirs && e in dirs && d != e && d in table && e in table
      requires sz <= KERNBASE && Pages(sz) <= USER_PAGES && PresentIn(View(), d, 0, Pages(sz))
      requires AbsentIn(View(), e, 0, USER_PAGES) && Covers(View(), e, kmap, |kmap|)
      modifies this
      ensures Valid() && dirs == old(dirs) && held == old(held) && Others(owner, e) == old(Others(owner, e))
      ensures SameApart(old(View()), View(), e, 0, USER_PAGES) && e in table
      ensures ok ==> Copied(old(View()), View(), d, e, Pages(sz)) && AbsentIn(View(), e, Pages(sz), USER_PAGES)
      ensures ok ==> Covers(View(), e, kmap, |kmap|)
      ensures ok ==> Spent(old(table[e]), old(|list|), table[e], |list|, Span(0, Pages(sz)), Pages(sz))
      ensures !ok ==> old(|list|) < |Span(0, Pages(sz)) - Indices(old(table[e]))| + Pages(sz)
    {
      hide Owned, Entry, ListOk, Others, Covers, Spent, Span, Indices, Copied, AbsentIn, PresentIn, SameApart;
      Tables(View(), owner, held, Elements(list), all);
      ghost var (m0, t0, n0) := (View(), table[e], |list|);
      NoneSpent(t0, n0, 0);
      NoneCopied(m0, d, e);
      var v := 0;
      while v * PGSIZE < sz
        invariant 0 <= v <= Pages(sz) && Valid() && held == old(held) && dirs == old(dirs) && d in table && e in table
        invariant Others(owner, e) == old(Others(owner, e)) && SameApart(m0, View(), e, 0, v)
        invariant Copied(m0, View(), d, e, v) && AbsentIn(View(), e, v, USER_PAGES) && Covers(View(), e, kmap, |kmap|)
        invariant Spent(t0, n0, table[e], |list|, Span(0, v), v)
        decreases Pages(sz) - v
      {
        PagesBelow(v, sz);
        SpanNext(0, v, Pages(sz));
        ghost var (m, t, l) := (View(), table[e], |list|);
        var q := WalkPgdir(d, v, false);
        EntryIn(m, owner, held, Elements(list), all, d, v, q);
        PresentAt(m0, m, d, e, v, Pages(sz));
        var perm := table[q][v % ENTRIES].perm;
        ok := CopyPage(e, v, perm);
        Tables(View(), owner, held, Elements(list), all);
        SameApartTwice(m0, m, View(), e, 0, v, v, if ok then v + 1 else v);
        if !ok {
          Short(t0, n0, t, l, Span(0, v), v, {v / ENTRIES}, 1, Span(0, Pages(sz)), Pages(sz));
          SameApartWide(m0, View(), e, v);
          return;
        }
        CopiedNext(m0, m, View(), d, e, v);
        SpentMore(t0, n0, t, l, table[e], |list|, Span(0, v), v, {v / ENTRIES}, 1);
        CoversKept(m, View(), e, kmap, v);
        v := v + 1;
      }
      PagesBelow(v, sz);
      SameApartWide(m0, View(), e, v);
      ok := true;
    }

    /** A fresh page mapped at `v`; the page is given back if there is no page table for it. */
    method CopyPage(e: nat, v: nat, perm: int) returns (ok: bool)
      requires Valid() && e in dirs && e in table && v < USER_PAGES && Entry(View(), e, v) == Absent
      modifies this
      ensures Valid() && dirs == old(dirs) && held == old(held) && Others(owner, e) == old(Others(owner, e))
      ensures SameApart(old(View()), View(), e, v, if ok then v + 1 else v) && e in table
      ensures ok ==> Entry(View(), e, v).To? && Entry(View(), e, v).perm == perm
      ensures ok ==> Spent(old(table[e]), old(|list|), table[e], |list|, {v / ENTRIES}, 1)
      ensures !ok ==> old(|list|) < |{v / ENTRIES} - Indices(old(table[e]))| + 1
    {
      hide Owned, Entry, ListOk, Others, Spent, Indices;
      Tables(View(), owner, held, Elements(list), all);
      ghost var own := owner;
      var p;
      p, ok := MapFresh(e, v, perm);
      GrewOthers(own, owner, e, v, if ok then v + 1 else v);
      if !ok && p != 0 {
        Kfree(p);
      }
    }
  }

  // ---- how many pages it takes ----

  /** Where directory `t` has page tables. */
  ghost function Indices(t: Table): (r: set<nat>) {
    set i | 0 <= i < ENTRIES && t[i].To?
  }

  /** Where page tables are needed for the pages from `lo` to `hi`. */
  ghost function Span(lo: nat, hi: nat): (r: set<nat>) {
    if lo < hi then Numbers(lo / ENTRIES, (hi - 1) / ENTRIES + 1) else {}
  }

  lemma SpanNext(lo: nat, v: nat, hi: nat)
    requires lo <= v < hi
    ensures Span(lo, v + 1) == Span(lo, v) + {v / ENTRIES} && Span(lo, v + 1) <= Span(lo, hi)
  {
  }

  ghost function RangeTables(r: Range): (s: set<nat>) {
    Span(r.v, r.v + r.n)
  }

  /** Where the first `k` of the kernel's ranges need page tables. */
  ghost function KernelTables(kmap: seq<Range>, k: nat): (s: set<nat>)
    requires k <= |kmap|
  {
    if k == 0 then {} else KernelTables(kmap, k - 1) + RangeTables(kmap[k - 1])
  }

  lemma {:induction false} KernelTablesRise(kmap: seq<Range>, k: nat)
    requires k <= |kmap|
    ensures KernelTables(kmap, k) <= KernelTables(kmap, |kmap|)
    decreases |kmap| - k
  {
    if k < |kmap| {
      KernelTablesRise(kmap, k + 1);
    }
  }

  /** A directory has come to have the page tables `used` besides those it had, and `pages` other pages were taken: so
      many fewer of `n` free pages are left. */
  ghost predicate Spent(t: Table, n: nat, t': Table, n': nat, used: set<nat>, pages: nat) {
    Indices(t') == Indices(t) + used && n' + pages + |used - Indices(t)| == n
  }

  lemma SpentNeeds(t: Table, n: nat, t': Table, n': nat, used: set<nat>, pages: nat)
    requires Spent(t, n, t', n', used, pages)
    ensures pages + |used - Indices(t)| <= n
  {
  }

  lemma NothingSpent(t: Table, n: nat, i: nat)
    requires i < ENTRIES && t[i].To?
    ensures Spent(t, n, t, n, {i}, 0)
  {
    assert {i} - Indices(t) == {};
  }

  lemma NoneSpent(t: Table, n: nat, v: nat)
    ensures Spent(t, n, t, n, {}, 0) && Span(v, v) == {}
  {
  }

  lemma TableSpent(t: Table, n: nat, i: nat, q: nat, perm: int)
    requires i < ENTRIES && t[i] == Absent && n > 0
    ensures Spent(t, n, t[i := To(q, perm)], n - 1, {i}, 0)
  {
    assert {i} - Indices(t) == {i};
  }

  lemma NoTable(t: Table, i: nat)
    requires i < ENTRIES && t[i] == Absent
    ensures |{i} - Indices(t)| == 1
  {
    assert {i} - Indices(t) == {i};
  }

  lemma OnePage(t: Table, n: nat, t': Table, n': nat, used: set<nat>)
    requires n > 0 && Spent(t, n - 1, t', n', used, 0)
    ensures Spent(t, n, t', n', used, 1)
  {
  }

  lemma BlankHas()
    ensures Indices(Blank) == {} && forall s: set<nat> :: s - Indices(Blank) == s
  {
  }

  /** What a set has outside another, in two parts. */
  lemma PartsCard(u: set<nat>, w: set<nat>, x: set<nat>)
    ensures |u + w - x| == |u - x| + |w - (x + u)|
  {
    assert u + w - x == (u - x) + (w - (x + u));
  }

  lemma SpentMore(t0: Table, n0: nat, t1: Table, n1: nat, t2: Table, n2: nat, u: set<nat>, a: nat, w: set<nat>, b: nat)
    requires Spent(t0, n0, t1, n1, u, a) && Spent(t1, n1, t2, n2, w, b)
    ensures Spent(t0, n0, t2, n2, u + w, a + b)
  {
    hide Indices;
    PartsCard(u, w, Indices(t0));
  }

  /** If what is left is not enough for a part, then what there was is not enough for the whole. */
  lemma Short(t0: Table, n0: nat, t1: Table, n1: nat, u: set<nat>, a: nat, w: set<nat>, b: nat, all: set<nat>,
              pages: nat)
    requires Spent(t0, n0, t1, n1, u, a) && n1 < |w - Indices(t1)| + b && u + w <= all && a + b <= pages
    ensures n0 < |all - Indices(t0)| + pages
  {
    hide Indices;
    PartsCard(u, w, Indices(t0));
    PartsCard(u + w, all, Indices(t0));
    assert u + w + all == all;
  }

  lemma KernelFirst(n: nat, kmap: seq<Range>, pages: nat)
    ensures var kt := KernelTables(kmap, |kmap|);
      n < 1 + |kt| ==> n < 1 + pages + |kt + Span(0, pages)|
  {
    PartsCard(KernelTables(kmap, |kmap|), Span(0, pages), {});
    var kt := KernelTables(kmap, |kmap|);
    assert kt + Span(0, pages) - {} == kt + Span(0, pages) && kt - {} == kt;
  }

  lemma CopyShort(n: nat, t1: Table, n1: nat, kt: set<nat>, pages: nat)
    requires Spent(Blank, n, t1, n1, kt, 1) && n1 < |Span(0, pages) - Indices(t1)| + pages
    ensures n < 1 + pages + |kt + Span(0, pages)|
  {
    hide Indices, Span, Spent;
    BlankHas();
    Short(Blank, n, t1, n1, kt, 1, Span(0, pages), pages, kt + Span(0, pages), 1 + pages);
  }

  lemma CopyNeeds(n: nat, t1: Table, n1: nat, t2: Table, n2: nat, kt: set<nat>, pages: nat)
    requires Spent(Blank, n, t1, n1, kt, 1) && Spent(t1, n1, t2, n2, Span(0, pages), pages)
    ensures 1 + pages + |kt + Span(0, pages)| <= n
  {
    hide Indices, Span, Spent;
    BlankHas();
    SpentMore(Blank, n, t1, n1, t2, n2, kt, 1, Span(0, pages), pages);
    SpentNeeds(Blank, n, t2, n2, kt + Span(0, pages), 1 + pages);
  }

  /** The entries of all directories are as they were. */
  ghost predicate Same(m: Spaces, m': Spaces) {
    m'.dirs == m.dirs && forall d :: d in m.dirs ==> d in m.table && d in m'.table && SameBut(m, m', d, -1)
  }

  /** Nothing that was owned is owned differently, and what is newly owned are tables of `d` or its user pages from
      `lo` to `hi`. */
  ghost predicate Grew(was: map<nat, Slot>, now: map<nat, Slot>, d: nat, lo: nat, hi: nat) {
    && (forall p :: p in was ==> p in now && now[p] == was[p])
    && (forall p :: p in now && p !in was ==> (now[p].Pde? && now[p].d == d) || UserIn(now[p], d, lo, hi))
  }

  /** The kernel's mappings are above KERNBASE and do not overlap. */
  ghost predicate KmapOk(kmap: seq<Range>) {
    && (forall k :: 0 <= k < |kmap| ==>
          USER_PAGES <= kmap[k].v && kmap[k].n > 0 && kmap[k].v + kmap[k].n <= ENTRIES * ENTRIES)
    && (forall j, k :: 0 <= j < k < |kmap| ==> kmap[j].v + kmap[j].n <= kmap[k].v)
  }

  ghost predicate AbsentIn(m: Spaces, d: nat, lo: nat, hi: nat)
    requires d in m.table && hi <= ENTRIES * ENTRIES
  {
    forall v :: lo <= v < hi ==> Entry(m, d, v) == Absent
  }

  predicate MappedTo(m: Spaces, d: nat, v: nat, i: nat, p: nat, perm: int) {
    d in m.table && v + i < ENTRIES * ENTRIES && Entry(m, d, v + i) == To(p + i, perm)
  }

  ghost predicate RangeMapped(m: Spaces, d: nat, r: Range) {
    forall i :: 0 <= i < r.n ==> MappedTo(m, d, r.v, i, r.p, r.perm)
  }

  /** The first `k` of the kernel's ranges are mapped. */
  ghost predicate Covers(m: Spaces, d: nat, kmap: seq<Range>, k: nat)
    requires k <= |kmap|
  {
    forall j :: 0 <= j < k ==> RangeMapped(m, d, kmap[j])
  }

  lemma RangeNext(m: Spaces, m': Spaces, d: nat, v: nat, i: nat, p: nat, perm: int)
    requires RangeMapped(m, d, Range(v, i, p, perm)) && d in m.table && d in m'.table && v + i < ENTRIES * ENTRIES
    requires SameBut(m, m', d, v + i) && Entry(m', d, v + i) == To(p + i, perm)
    ensures RangeMapped(m', d, Range(v, i + 1, p, perm))
  {
    hide Entry;
    forall j | 0 <= j <= i
      ensures MappedTo(m', d, v, j, p, perm)
    {
      assert j < i ==> MappedTo(m, d, v, j, p, perm);
    }
  }

  lemma NoneMapped(m: Spaces, d: nat, v: nat, p: nat, perm: int)
    requires forall c :: c in m.dirs ==> c in m.table
    ensures RangeMapped(m, d, Range(v, 0, p, perm)) && SameApart(m, m, d, v, v)
  {
  }

  lemma SameApartAt(m: Spaces, mid: Spaces, d: nat, lo: nat, v: nat, hi: nat)
    requires SameApart(m, mid, d, lo, v) && d in m.dirs && lo <= v < hi <= ENTRIES * ENTRIES
    ensures d in m.table && d in mid.table && Entry(mid, d, v) == Entry(m, d, v)
  {
  }

  lemma SameApartSame(m: Spaces, mid: Spaces, m': Spaces, d: nat, lo: nat, v: nat, hi: nat)
    requires SameApart(m, mid, d, lo, v) && Same(mid, m') && v <= hi
    ensures SameApart(m, m', d, lo, hi)
  {
    hide Entry;
    forall c | c in m.dirs
      ensures c in mid.table && c in m'.table && SameBut(mid, m', c, -1) && (c != d ==> SameBut(m, m', c, -1))
    {
      assert c != d ==> SameBut(m, mid, c, -1);
    }
  }

  lemma SameApartNext(m: Spaces, mid: Spaces, m': Spaces, d: nat, lo: nat, v: nat)
    requires SameApart(m, mid, d, lo, v) && m'.dirs == mid.dirs && lo <= v
    requires forall c :: c in mid.dirs ==>
      c in mid.table && c in m'.table && SameBut(mid, m', c, if c == d then v else -1)
    ensures SameApart(m, m', d, lo, v + 1)
  {
    hide Entry;
    forall c | c in m.dirs
      ensures SameBut(mid, m', c, if c == d then v else -1) && (c != d ==> SameBut(m, m', c, -1))
    {
      assert c != d ==> SameBut(m, mid, c, -1);
    }
  }

  lemma CoversNext(m: Spaces, m': Spaces, d: nat, kmap: seq<Range>, k: nat)
    requires KmapOk(kmap) && k < |kmap| && Covers(m, d, kmap, k) && RangeMapped(m', d, kmap[k]) && d in m.dirs
    requires SameApart(m, m', d, kmap[k].v, kmap[k].v + kmap[k].n)
    ensures Covers(m', d, kmap, k + 1)
  {
    hide Entry;
    forall j | 0 <= j < k
      ensures RangeMapped(m', d, kmap[j])
    {
      var r := kmap[j];
      assert RangeMapped(m, d, r) && r.v + r.n <= kmap[k].v;
      forall i | 0 <= i < r.n
        ensures MappedTo(m', d, r.v, i, r.p, r.perm)
      {
        assert MappedTo(m, d, r.v, i, r.p, r.perm);
      }
    }
  }

  /** Mapping a user page leaves the kernel's ranges mapped. */
  lemma CoversKept(m: Spaces, m': Spaces, d: nat, kmap: seq<Range>, v: nat)
    requires KmapOk(kmap) && Covers(m, d, kmap, |kmap|) && d in m.table && d in m'.table && v < USER_PAGES
    requires SameBut(m, m', d, v)
    ensures Covers(m', d, kmap, |kmap|)
  {
    hide Entry;
    forall j | 0 <= j < |kmap|
      ensures RangeMapped(m', d, kmap[j])
    {
      var r := kmap[j];
      assert RangeMapped(m, d, r);
      forall i | 0 <= i < r.n
        ensures MappedTo(m', d, r.v, i, r.p, r.perm)
      {
        assert MappedTo(m, d, r.v, i, r.p, r.perm);
      }
    }
  }

  lemma SameApartTwice(m: Spaces, mid: Spaces, m': Spaces, d: nat, lo: nat, top: nat, at: nat, hi: nat)
    requires lo <= top <= at <= hi && d in m.dirs && SameApart(m, mid, d, lo, top) && SameApart(mid, m', d, at, hi)
    ensures SameApart(m, m', d, lo, hi)
  {
    hide Entry;
    forall c | c in m.dirs && c != d
      ensures SameBut(m, m', c, -1)
    {
      assert SameBut(m, mid, c, -1) && SameBut(mid, m', c, -1);
    }
  }

  /** kmap, in pages: I/O space, the kernel's text, its data and the rest of memory, and devices; `data` is the first
      page of data. */
  function KernelMap(data: nat): (kmap: seq<Range>)
    requires 0x80100 < data < 0x8E000
  {
    [Range(0x80000, 0x100, 0, PTE_W), Range(0x80100, data - 0x80100, 0x100, 0),
     Range(data, 0x8E000 - data, data - 0x80000, PTE_W), Range(0xFE000, 0x2000, 0xFE000, PTE_W)]
  }

  lemma KernelMapOk(data: nat)
    requires 0x80100 < data < 0x8E000
    ensures KmapOk(KernelMap(data))
  {
  }

  lemma {:induction false} NumbersCard(lo: nat, hi: nat)
    requires lo <= hi
    ensures |Numbers(lo, hi)| == hi - lo
    decreases hi
  {
    if lo < hi {
      NumbersCard(lo, hi - 1);
    }
  }

  /** So setupkvm takes 65 pages, and copyuvm of `n` pages these, the copies, and a page table for every 1024 of
      them. */
  lemma PagesNeeded(data: nat, n: nat)
    requires 0x80100 < data < 0x8E000 && n <= USER_PAGES
    ensures var kt := KernelTables(KernelMap(data), |KernelMap(data)|);
      && |kt| == 64 && |kt + Span(0, n)| == 64 + (n + ENTRIES - 1) / ENTRIES
  {
    hide Numbers;
    KernelTablesAre(data);
    var k := (n + ENTRIES - 1) / ENTRIES;
    assert Span(0, n) == Numbers(0, k);
    ThreeCard(k, 512, 568, 1016, 1024);
  }

  lemma ThreeCard(k: nat, a: nat, b: nat, c: nat, e: nat)
    requires k <= a <= b <= c <= e
    ensures var s := Numbers(a, b) + Numbers(c, e); |s| == b - a + e - c && |s + Numbers(0, k)| == b - a + e - c + k
  {
    hide Numbers;
    NumbersCard(a, b);
    NumbersCard(c, e);
    NumbersCard(0, k);
    assert Numbers(a, b) !! Numbers(c, e);
    assert Numbers(a, b) + Numbers(c, e) !! Numbers(0, k);
  }

  lemma KernelTablesAre(data: nat)
    requires 0x80100 < data < 0x8E000
    ensures KernelTables(KernelMap(data), 4) == Numbers(512, 568) + Numbers(1016, 1024)
  {
    hide Numbers;
    var kmap := KernelMap(data);
    assert KernelTables(kmap, 1) == RangeTables(kmap[0]);
    assert KernelTables(kmap, 2) == RangeTables(kmap[0]) + RangeTables(kmap[1]);
    assert RangeTables(kmap[3]) == Numbers(1016, 1024);
    assert RangeTables(kmap[0]) + RangeTables(kmap[1]) + RangeTables(kmap[2]) == Numbers(512, 568);
  }

  /** Other directories are as they were, and `d` outside `lo` to `hi`. */
  ghost predicate SameApart(m: Spaces, m': Spaces, d: nat, lo: nat, hi: nat) {
    && m'.dirs == m.dirs && (forall c :: c in m.dirs ==> c in m.table && c in m'.table)
    && (forall c :: c in m.dirs && c != d ==> SameBut(m, m', c, -1))
    && (d in m.dirs ==> forall v :: 0 <= v < ENTRIES * ENTRIES && !(lo <= v < hi) ==> Entry(m', d, v) == Entry(m, d, v))
  }

  lemma Tables(m: Spaces, owner: map<nat, Slot>, held: set<nat>, free: set<nat>, all: set<nat>)
    requires Owned(m, owner, held, free, all)
    ensures forall d :: d in m.dirs ==> d in m.table
  {
  }

  lemma TablesThere(m: Spaces, owner: map<nat, Slot>, held: set<nat>, free: set<nat>, all: set<nat>, d: nat, i: nat)
    requires Owned(m, owner, held, free, all) && d in m.dirs && d in m.table && i < ENTRIES && m.table[d][i].To?
    ensures m.table[d][i].ppn != 0
  {
  }

  lemma NotHeldZero(m: Spaces, owner: map<nat, Slot>, held: set<nat>, free: set<nat>, all: set<nat>)
    requires Owned(m, owner, held, free, all)
    ensures 0 !in held
  {
    assert held <= all;
  }

  /** Ownership without the user pages of `d` from `lo` to `hi`. */
  ghost function Without(owner: map<nat, Slot>, d: nat, lo: nat, hi: nat): (r: map<nat, Slot>) {
    map p | p in owner && !UserIn(owner[p], d, lo, hi) :: owner[p]
  }

  predicate UserIn(s: Slot, d: nat, lo: nat, hi: nat) {
    s.User? && s.d == d && lo <= s.v < hi
  }

  /** What is no longer owned were user pages of `d` from `lo` to `hi`. */
  ghost predicate Shrunk(was: map<nat, Slot>, now: map<nat, Slot>, d: nat, lo: nat, hi: nat) {
    && (forall p :: p in now ==> p in was && was[p] == now[p])
    && (forall p :: p in was && p !in now ==> UserIn(was[p], d, lo, hi))
  }

  lemma ShrunkIs(m: Spaces, was: map<nat, Slot>, now: map<nat, Slot>, held: set<nat>, free: set<nat>, all: set<nat>,
                 d: nat, lo: nat, hi: nat)
    requires Owned(m, now, held, free, all) && d in m.table && hi <= USER_PAGES && Shrunk(was, now, d, lo, hi)
    requires AbsentIn(m, d, lo, hi)
    ensures now == Without(was, d, lo, hi)
  {
    forall p | p in now
      ensures !UserIn(now[p], d, lo, hi)
    {
      assert Ptr(m, now[p]) == p;
    }
  }

  lemma EntryIn(m: Spaces, owner: map<nat, Slot>, held: set<nat>, free: set<nat>, all: set<nat>, d: nat, v: nat, q: nat)
    requires Owned(m, owner, held, free, all) && d in m.dirs && d in m.table && v < ENTRIES * ENTRIES
    requires q == Page(m.table[d][v / ENTRIES])
    ensures q == 0 ==> AbsentIn(m, d, v, (v / ENTRIES + 1) * ENTRIES) && Entry(m, d, v) == Absent
    ensures q != 0 ==> q in m.table && Entry(m, d, v) == m.table[q][v % ENTRIES]
  {
    if q == 0 {
      forall u | v <= u < (v / ENTRIES + 1) * ENTRIES
        ensures Entry(m, d, u) == Absent
      {
        assert u / ENTRIES == v / ENTRIES;
      }
    }
  }

  lemma PagesBound(sz: nat)
    requires sz <= KERNBASE
    ensures Pages(sz) <= USER_PAGES
  {
  }

  lemma PagesRise(a: nat, b: nat)
    requires a <= b
    ensures Pages(a) <= Pages(b)
  {
  }

  lemma PagesBelow(v: nat, sz: nat)
    ensures v * PGSIZE < sz <==> v < Pages(sz)
  {
  }

  /** Pages listed from entry `i` on. */
  ghost function Listed(t: Table, i: nat): (r: set<nat>)
    requires i <= ENTRIES
  {
    set j | i <= j < ENTRIES && t[j].To? :: t[j].ppn
  }

  /** Without user pages, a directory owns itself and the tables it lists, each once. */
  lemma OnlyTables(m: Spaces, owner: map<nat, Slot>, held: set<nat>, free: set<nat>, all: set<nat>, d: nat)
    requires Owned(m, owner, held, free, all) && d in m.dirs && AbsentIn(m, d, 0, USER_PAGES)
    ensures Of(owner, d) == {d} + Listed(m.table[d], 0) && d !in Listed(m.table[d], 0)
    ensures Once(m.table[d])
  {
    assert Ptr(m, Root(d)) == d;
    forall i | 0 <= i < ENTRIES && m.table[d][i].To?
      ensures m.table[d][i].ppn in owner && owner[m.table[d][i].ppn] == Pde(d, i)
    {
      assert Ptr(m, Pde(d, i)) == m.table[d][i].ppn;
    }
    forall p | p in Of(owner, d)
      ensures p in {d} + Listed(m.table[d], 0)
    {
      assert Ptr(m, owner[p]) == p;
    }
  }

  ghost predicate Once(t: Table) {
    forall i, j :: 0 <= i < j < ENTRIES && t[i].To? && t[j].To? ==> t[i].ppn != t[j].ppn
  }

  lemma ListedNext(t: Table, i: nat)
    requires i < ENTRIES && Once(t)
    ensures Listed(t, i) == if t[i].To? then {t[i].ppn} + Listed(t, i + 1) else Listed(t, i + 1)
    ensures t[i].To? ==> t[i].ppn !in Listed(t, i + 1) && t[i].ppn in Listed(t, 0)
  {
  }

  lemma ListedNone(t: Table)
    ensures Listed(t, ENTRIES) == {}
  {
  }

  lemma OfApart(m: Spaces, owner: map<nat, Slot>, held: set<nat>, free: set<nat>, all: set<nat>, d: nat)
    requires Owned(m, owner, held, free, all)
    ensures Of(owner, d) !! held
  {
  }

  lemma OthersWithout(owner: map<nat, Slot>, d: nat, lo: nat, hi: nat)
    ensures Others(Without(owner, d, lo, hi), d) == Others(owner, d)
  {
  }

  /** What the entries are does not depend on the set of directories. */
  lemma TablesOnly(m: Spaces, m': Spaces, dirs: set<nat>, d: nat)
    requires SameApart(m, m', d, 0, USER_PAGES)
    ensures forall c :: c in m.dirs && c != d ==> c in m.table && c in m'.table && SameBut(m, m'.(dirs := dirs), c, -1)
  {
    forall c | c in m.dirs && c != d
      ensures SameBut(m, m'.(dirs := dirs), c, -1)
    {
      assert SameBut(m, m', c, -1);
    }
  }

  /** First page above the first `k` kernel mappings. */
  function KernelTop(kmap: seq<Range>, k: nat): (r: nat)
    requires k <= |kmap|
  {
    if k == 0 then USER_PAGES else kmap[k - 1].v + kmap[k - 1].n
  }

  lemma KernelNext(kmap: seq<Range>, k: nat)
    requires KmapOk(kmap) && k < |kmap|
    ensures USER_PAGES <= KernelTop(kmap, k) <= kmap[k].v < KernelTop(kmap, k + 1) <= ENTRIES * ENTRIES
  {
  }

  lemma GrewOthers(was: map<nat, Slot>, now: map<nat, Slot>, d: nat, lo: nat, hi: nat)
    requires Grew(was, now, d, lo, hi)
    ensures Others(now, d) == Others(was, d)
  {
  }

  lemma FreshOwner(m: Spaces, owner: map<nat, Slot>, held: set<nat>, free: set<nat>, all: set<nat>, d: nat)
    requires Owned(m, owner, held, free, all) && d in held
    ensures Others(owner[d := Root(d)], d) == owner
  {
    Unused(m, owner, held, free, all, d);
  }

  lemma FreeIs(m: Spaces, owner: map<nat, Slot>, held: set<nat>, free: set<nat>, all: set<nat>)
    requires Owned(m, owner, held, free, all)
    ensures free == all - owner.Keys - held
  {
  }

  ghost predicate PresentIn(m: Spaces, d: nat, lo: nat, hi: nat)
    requires d in m.table && hi <= ENTRIES * ENTRIES
  {
    forall v :: lo <= v < hi ==> Entry(m, d, v).To?
  }

  /** Those pages are mapped with permissions `perm`. */
  ghost predicate PermIn(m: Spaces, d: nat, lo: nat, hi: nat, perm: int)
    requires d in m.table && hi <= ENTRIES * ENTRIES
  {
    forall v :: lo <= v < hi ==> Entry(m, d, v).To? && Entry(m, d, v).perm == perm
  }

  /** The outcome of growing `d`: all pages from `lo` to `hi` are there, or none and at most page tables are new. */
  ghost predicate Grown(m: Spaces, m': Spaces, was: map<nat, Slot>, now: map<nat, Slot>, d: nat, lo: nat, hi: nat,
                        ok: bool) {
    if ok then
      d in m'.table && hi <= USER_PAGES && SameApart(m, m', d, lo, hi) && Grew(was, now, d, lo, hi)
      && PermIn(m', d, lo, hi, PTE_W + PTE_U)
    else SameApart(m, m', d, 0, 0) && Grew(was, now, d, 0, 0)
  }

  lemma NoneGrown(m: Spaces, owner: map<nat, Slot>, d: nat, lo: nat)
    requires d in m.table && lo <= ENTRIES * ENTRIES && forall c :: c in m.dirs ==> c in m.table
    ensures SameApart(m, m, d, lo, lo) && Grew(owner, owner, d, lo, lo) && PermIn(m, d, lo, lo, PTE_W + PTE_U)
  {
  }

  /** One page more, or none. */
  lemma GrownNext(m: Spaces, mid: Spaces, m': Spaces, was: map<nat, Slot>, own: map<nat, Slot>, now: map<nat, Slot>,
                  d: nat, lo: nat, v: nat, hi: nat, ok: bool)
    requires d in m.dirs && d in mid.table && d in m'.table && lo <= v < hi <= USER_PAGES
    requires SameApart(m, mid, d, lo, v) && Grew(was, own, d, lo, v)
    requires AbsentIn(mid, d, v, hi) && PermIn(mid, d, lo, v, PTE_W + PTE_U)
    requires SameApart(mid, m', d, v, if ok then v + 1 else v) && Grew(own, now, d, v, if ok then v + 1 else v)
    requires ok ==> Entry(m', d, v).To? && Entry(m', d, v).perm == PTE_W + PTE_U
    ensures SameApart(m, m', d, lo, if ok then v + 1 else v) && Grew(was, now, d, lo, if ok then v + 1 else v)
    ensures ok ==> AbsentIn(m', d, v + 1, hi) && PermIn(m', d, lo, v + 1, PTE_W + PTE_U)
  {
    hide Entry;
    SameApartTwice(m, mid, m', d, lo, v, v, if ok then v + 1 else v);
  }

  lemma NoUsers(m: Spaces, owner: map<nat, Slot>, held: set<nat>, free: set<nat>, all: set<nat>, d: nat, lo: nat,
                hi: nat)
    requires Owned(m, owner, held, free, all) && d in m.table && hi <= USER_PAGES && AbsentIn(m, d, lo, hi)
    ensures forall p :: p in owner ==> !UserIn(owner[p], d, lo, hi)
  {
    forall p | p in owner
      ensures !UserIn(owner[p], d, lo, hi)
    {
      assert Ptr(m, owner[p]) == p;
    }
  }

  /** Mapping part of a range that was not mapped and then unmapping all of it changes nothing. */
  lemma Undone(m: Spaces, mid: Spaces, m': Spaces, d: nat, lo: nat, v: nat, hi: nat)
    requires d in m.dirs && lo <= v <= hi <= USER_PAGES && SameApart(m, mid, d, lo, v) && SameApart(mid, m', d, lo, hi)
    requires d in m.table && AbsentIn(m, d, lo, hi) && d in m'.table && (lo < hi ==> AbsentIn(m', d, lo, hi))
    ensures SameApart(m, m', d, 0, 0)
  {
    hide Entry;
    forall c | c in m.dirs && c != d
      ensures SameBut(m, m', c, -1)
    {
      assert SameBut(m, mid, c, -1) && SameBut(mid, m', c, -1);
    }
  }

  lemma PresentAt(m: Spaces, mid: Spaces, d: nat, e: nat, v: nat, hi: nat)
    requires d in m.dirs && d in m.table && d in mid.table && e in mid.table && v < hi <= USER_PAGES && d != e
    requires PresentIn(m, d, 0, hi) && SameApart(m, mid, e, 0, v) && AbsentIn(mid, e, v, USER_PAGES)
    ensures Entry(mid, d, v).To? && Entry(mid, d, v) == Entry(m, d, v) && Entry(mid, e, v) == Absent
  {
    assert SameBut(m, mid, d, -1);
  }

  lemma NoneCopied(m: Spaces, d: nat, e: nat)
    requires forall c :: c in m.dirs ==> c in m.table
    ensures Copied(m, m, d, e, 0) && SameApart(m, m, e, 0, 0)
  {
  }

  lemma CopiedNext(m: Spaces, mid: Spaces, m': Spaces, d: nat, e: nat, v: nat)
    requires d in m.table && e in mid.table && e in m'.table && e in mid.dirs && v < USER_PAGES
    requires Copied(m, mid, d, e, v) && SameApart(mid, m', e, v, v + 1) && AbsentIn(mid, e, v, USER_PAGES)
    requires Entry(m, d, v).To? && Entry(m', e, v).To? && Entry(m', e, v).perm == Entry(m, d, v).perm
    ensures Copied(m, m', d, e, v + 1) && AbsentIn(m', e, v + 1, USER_PAGES) && SameBut(mid, m', e, v)
  {
    hide Entry;
    forall u | 0 <= u <= v
      ensures CopyOf(m, m', d, e, u)
    {
      assert u < v ==> CopyOf(m, mid, d, e, u);
    }
  }

  /** The same pages copied, seen from before the new directory was there. */
  lemma CopiedFrom(m: Spaces, m1: Spaces, m': Spaces, d: nat, e: nat, n: nat)
    requires Copied(m1, m', d, e, n) && d in m.table && d in m1.table && SameBut(m, m1, d, -1)
    ensures Copied(m, m', d, e, n)
  {
    hide Entry;
    forall u | 0 <= u < n
      ensures CopyOf(m, m', d, e, u)
    {
      assert CopyOf(m1, m', d, e, u);
    }
  }

  lemma SameApartWide(m: Spaces, m': Spaces, d: nat, v: nat)
    requires SameApart(m, m', d, 0, v) && v <= USER_PAGES
    ensures SameApart(m, m', d, 0, USER_PAGES)
  {
  }

  /** The entries of the directories `cs` are as they were. */
  ghost predicate Kept(m: Spaces, m': Spaces, cs: set<nat>) {
    forall c :: c in cs ==> c in m.table && c in m'.table && SameBut(m, m', c, -1)
  }

  lemma KeptTwice(m: Spaces, mid: Spaces, m': Spaces, cs: set<nat>, cs': set<nat>)
    requires Kept(m, mid, cs) && Kept(mid, m', cs') && cs <= cs'
    ensures Kept(m, m', cs)
  {
    hide Entry;
    forall c | c in cs
      ensures SameBut(m, m', c, -1)
    {
      assert SameBut(m, mid, c, -1) && SameBut(mid, m', c, -1);
    }
  }

  lemma KeptSelf(m: Spaces)
    requires forall c :: c in m.dirs ==> c in m.table
    ensures Kept(m, m, m.dirs)
  {
  }

  /** A directory without entries has none below `at` when only those above have changed. */
  lemma AbsentApart(m: Spaces, m': Spaces, d: nat, lo: nat, at: nat, top: nat)
    requires d in m.dirs && d in m.table && d in m'.table && lo <= at <= top == ENTRIES * ENTRIES
    requires AbsentIn(m, d, lo, top) && (m == m' || SameApart(m, m', d, at, top))
    ensures AbsentIn(m', d, lo, at) && (m == m' ==> AbsentIn(m', d, at, top))
  {
  }

  lemma KeptApart(m: Spaces, mid: Spaces, m': Spaces, cs: set<nat>, e: nat, lo: nat, hi: nat)
    requires Kept(m, mid, cs) && SameApart(mid, m', e, lo, hi) && cs <= mid.dirs && e !in cs
    ensures Kept(m, m', cs)
  {
    hide Entry;
    forall c | c in cs
      ensures SameBut(m, m', c, -1)
    {
      assert SameBut(m, mid, c, -1) && SameBut(mid, m', c, -1);
    }
  }

  lemma KeptPresent(m: Spaces, m': Spaces, cs: set<nat>, d: nat, n: nat)
    requires Kept(m, m', cs) && d in cs && d in m.table && n <= USER_PAGES && PresentIn(m, d, 0, n)
    ensures d in m'.table && PresentIn(m', d, 0, n) && SameBut(m, m', d, -1)
  {
    hide Entry;
  }

  /** Page `v` of `e` is mapped with the permissions of page `v` of `d`. */
  ghost predicate CopyOf(m: Spaces, m': Spaces, d: nat, e: nat, v: nat) {
    && v < USER_PAGES && d in m.table && e in m'.table && Entry(m, d, v).To? && Entry(m', e, v).To?
    && Entry(m', e, v).perm == Entry(m, d, v).perm
  }

  /** The first `n` pages of `d` are. */
  ghost predicate Copied(m: Spaces, m': Spaces, d: nat, e: nat, n: nat) {
    forall v :: 0 <= v < n ==> CopyOf(m, m', d, e, v)
  }
}
