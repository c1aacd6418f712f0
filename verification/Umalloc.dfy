/** malloc and free: the searches along the free list and the updates of the headers, in place. */
module Umalloc {
  import opened Basics
  import opened HeapBlocks

  const HEADER := 8
  const MIN_UNITS := 4096

  /** Units for a request of `nbytes`, in 32-bit arithmetic, one of them for the header. */
  function Units(nbytes: Word): (n: nat)
    ensures 0 < n
  {
    (nbytes + HEADER - 1) % WORD_LIMIT / HEADER + 1
  }

  /** The argument of sbrk, `nu * 8` as a 32-bit signed number. */
  function SbrkBytes(nu: nat): (r: int) {
    var w := nu * HEADER % WORD_LIMIT;
    if w < WORD_LIMIT / 2 then w else w - WORD_LIMIT
  }

  /** The request is computed and passed on as meant exactly up to 2^31 - 16 bytes. */
  lemma RequestIff(nbytes: Word)
    ensures (Units(nbytes) - 1) * HEADER >= nbytes <==> nbytes + HEADER - 1 < WORD_LIMIT
    ensures SbrkBytes(Units(nbytes)) == Units(nbytes) * HEADER <==> Units(nbytes) < WORD_LIMIT / 2 / HEADER
    ensures ((Units(nbytes) - 1) * HEADER >= nbytes && SbrkBytes(Units(nbytes)) == Units(nbytes) * HEADER)
      <==> nbytes <= WORD_LIMIT / 2 - 2 * HEADER
  {
    var w := nbytes + HEADER - 1;
    assert w == w / HEADER * HEADER + w % HEADER;
  }

  /** Whether sbrk is asked for as many bytes as malloc then puts on the free list. */
  predicate SbrkExact(n: nat) {
    SbrkBytes(Max(n, MIN_UNITS)) == Max(n, MIN_UNITS) * HEADER
  }

  lemma SbrkExactIff(n: nat)
    requires n <= WORD_LIMIT / HEADER
    ensures SbrkExact(n) <==> n < WORD_LIMIT / 2 / HEADER
  {
  }

  /** What the kernel answers to sbrk: no, or the address of the new memory. */
  datatype Sbrk = Fails | At(addr: nat)

  function Max(a: nat, b: nat): (r: nat) {
    if a < b then b else a
  }

  /** Steps along a ring of `n` from `k` to `f`. */
  function Steps(n: nat, f: nat, k: nat): (r: nat)
    requires k < n && f < n
  {
    if k <= f then f - k else n - k + f
  }

  predicate SameAt(m: map<nat, nat>, m': map<nat, nat>, x: nat) {
    (x in m <==> x in m') && (x in m ==> m[x] == m'[x])
  }

  /** The allocated blocks, except `b`, are still allocated and are made of the same units, and no header field inside
      them has been written. */
  ghost predicate Leaves(a: Arena, r: Arena, b: nat) {
    forall x :: x in a.cover && a.cover[x] in a.live && a.cover[x] != b ==> LeavesUnit(a, r, x)
  }

  ghost predicate LeavesUnit(a: Arena, r: Arena, x: nat)
    requires x in a.cover
  {
    a.cover[x] in r.live && SameAt(a.cover, r.cover, x) && SameAt(a.ptr, r.ptr, x) && SameAt(a.size, r.size, x)
  }

  lemma LeavesTwice(a: Arena, r: Arena, q: Arena)
    requires Leaves(a, r, 0) && Leaves(r, q, 0)
    ensures Leaves(a, q, 0)
  {
    forall x | x in a.cover && a.cover[x] in a.live && a.cover[x] != 0
      ensures LeavesUnit(a, q, x)
    {
      assert LeavesUnit(a, r, x) && LeavesUnit(r, q, x);
    }
  }

  /** It is enough that the fields are not written. */
  lemma LeavesIf(base: nat, a: Arena, r: Arena, b: nat)
    requires Ok(base, a) && Ok(base, r) && a.live - {b} <= r.live
    requires forall x :: x in a.cover && a.cover[x] in a.live && a.cover[x] != b ==>
      SameAt(a.ptr, r.ptr, x) && SameAt(a.size, r.size, x)
    ensures Leaves(a, r, b)
  {
    forall x | x in a.cover && a.cover[x] in a.live && a.cover[x] != b
      ensures LeavesUnit(a, r, x)
    {
      var h := a.cover[x];
      assert Inside(a.size, h, h) && Inside(a.size, h, x);
      assert a.cover[h] == h && SameAt(a.size, r.size, h);
      assert Inside(r.size, h, x);
    }
  }

  class Heap {
    /** Address of the static header that starts the list. */
    const base: nat
    var ptr: map<nat, nat>
    var size: map<nat, nat>
    var freep: nat
    ghost var list: seq<nat>
    ghost var live: set<nat>
    ghost var cover: map<nat, nat>

    /** Nothing allocated, and no list yet. */
    constructor (header: nat)
      requires header > 0
      ensures Valid() && base == header && live == {} && cover == map[]
    {
      base, ptr, size, freep := header, map[], map[], 0;
      list, live, cover := [], {}, map[];
    }

    ghost function View(): (a: Arena)
      reads this
    {
      Arena(list, ptr, size, live, cover)
    }

    ghost predicate Valid()
      reads this
    {
      base > 0 && if freep == 0 then live == {} && cover == map[] && list == [] else Ok(base, View()) && freep in list
    }

    /** Walk the list from `freep` to the block's place. */
    method FindPlace(bp: nat) returns (p: nat, ghost j: nat)
      requires freep in list && Ok(base, View()) && bp in live
      ensures Place(list, bp, j) && p == list[j]
    {
      ghost var a := View();
      j := PlaceExists(list, bp);
      p := freep;
      ghost var k :| 0 <= k < |list| && list[k] == freep;
      while true
        invariant 0 <= k < |list| && p == list[k]
        decreases if k <= j then j - k else |list| - k + j
      {
        assert Link(list, ptr, k);
        AtPlace(base, a, bp, j, k);
        if bp > p && bp < ptr[p] {
          return;
        }
        if p >= ptr[p] && (bp > p || bp < ptr[p]) {
          return;
        }
        p := ptr[p];
        k := After(list, k);
      }
    }

    /** Link `bp` in after `p`, joined with the blocks it touches. */
    method LinkAfter(bp: nat, p: nat)
      requires p in ptr && bp in size && p in size && ptr[p] in size && ptr[p] in ptr && p != bp
      modifies `ptr, `size, `freep
      ensures (ptr, size) == FreedMaps(old(ptr), old(size), p, bp, old(ptr)[p])
      ensures freep == p
    {
      var nx := ptr[p];
      if bp + size[bp] == nx {
        size := size[bp := size[bp] + size[nx]];
        ptr := ptr[bp := ptr[nx]];
      } else {
        ptr := ptr[bp := nx];
      }
      if p + size[p] == bp {
        size := size[p := size[p] + size[bp]];
        ptr := ptr[p := ptr[bp]];
      } else {
        ptr := ptr[p := bp];
      }
      freep := p;
    }

    method Free(ap: nat)
      requires Valid() && ap > 0 && ap - 1 in live
      modifies this
      ensures Valid() && freep != 0 && live == old(live) - {ap - 1} && cover.Keys == old(cover).Keys
      ensures Leaves(old(View()), View(), ap - 1)
      ensures ap - 1 in old(size) && freep in ptr && freep in size
      ensures size[freep] >= old(size)[ap - 1] || (ptr[freep] in size && size[ptr[freep]] >= old(size)[ap - 1])
    {
      hide FreedMaps, Ringed, Ordered, Tiled;
      var bp := ap - 1;
      ghost var a := View();
      var p, j := FindPlace(bp);
      ghost var r := Freed(base, a, bp, j);
      FreeWrites(base, a, bp, p);
      FreedWhere(a.ptr, a.size, p, bp, list[After(list, j)]);
      InRing(base, a, j);
      LinkAfter(bp, p);
      list, live, cover := r.list, r.live, r.cover;
      assert View() == r;
      LeavesIf(base, a, r, bp);
    }

    /** Ask for at least MIN_UNITS more units and put them on the free list. If sbrk is asked for some other number of
        bytes the call has gone astray, and the model stops. */
    method Morecore(nu: nat, brk: Sbrk) returns (r: nat, astray: bool)
      requires Valid() && freep != 0
      requires brk.At? ==> brk.addr > base && forall u :: u in cover ==> u < brk.addr
      modifies this
      ensures astray == !SbrkExact(nu) && (astray || brk.Fails? ==> r == 0 && unchanged(this))
      ensures !astray && brk.At? ==> Valid() && r == freep != 0 && live == old(live) && Leaves(old(View()), View(), 0)
      ensures !astray && brk.At? ==> cover.Keys == old(cover).Keys + Range(brk.addr, Max(nu, MIN_UNITS))
      ensures !astray && brk.At? ==> freep in ptr && freep in size
      ensures !astray && brk.At? ==> size[freep] >= nu || (ptr[freep] in size && size[ptr[freep]] >= nu)
    {
      var n := if nu < MIN_UNITS then MIN_UNITS else nu;
      astray := SbrkBytes(n) != n * HEADER;
      if astray || brk.Fails? {
        return 0, astray;
      }
      hide Ok, Leaves, Range;
      ghost var a := View();
      GrownLeaves(base, a, brk.addr, n);
      size := size[brk.addr := n];
      ghost var g := Grow(a, brk.addr, n);
      live, cover := g.live, g.cover;
      assert View() == g;
      Free(brk.addr + 1);
      LeavesGrown(a, g, View(), brk.addr);
      r := freep;
    }

    /** Give out `n` units of free block `p`: all of it, or its tail. */
    method Take(prevp: nat, p: nat, n: nat, ghost k: nat) returns (ap: nat)
      requires Valid() && freep != 0 && 0 < n && 0 < k < |list| && p == list[k] && prevp == list[k - 1]
      requires p in size && size[p] >= n
      modifies this
      ensures Valid() && ap > 0 && ap - 1 !in old(live) && live == old(live) + {ap - 1} && cover.Keys == old(cover).Keys
      ensures ap - 1 in size && size[ap - 1] == n && Leaves(old(View()), View(), 0)
    {
      hide Ok, Leaves, Unlink, Split;
      ghost var a := View();
      InRing(base, a, k);
      InRing(base, a, k - 1);
      if size[p] == n {
        UnlinkLeaves(base, a, k);
        ptr := ptr[prevp := ptr[p]];
        ghost var r := Unlink(a, k);
        list, live := r.list, r.live;
        assert View() == r;
        ap := p + 1;
      } else {
        SplitLeaves(base, a, k, n);
        size := size[p := size[p] - n];
        var q := p + size[p];
        size := size[q := n];
        ghost var r := Split(a, k, n);
        live, cover := r.live, r.cover;
        assert View() == r;
        ap := q + 1;
      }
      freep := prevp;
    }

    /** Enlarge the heap and start over at `freep`: the new block is there or next. */
    method Refill(n: nat, brk: Sbrk) returns (ok: bool, astray: bool, prevp: nat, p: nat, ghost f: nat)
      requires Valid() && freep != 0
      requires brk.At? ==> brk.addr > base && forall u :: u in cover ==> u < brk.addr
      modifies this
      ensures astray == !SbrkExact(n) && ok == (brk.At? && !astray)
      ensures live == old(live) && Valid() && freep != 0 && Leaves(old(View()), View(), 0)
      ensures !ok ==> unchanged(this)
      ensures ok ==> Grew(old(cover).Keys, cover.Keys, brk, n)
      ensures ok ==>
        f < |list| && prevp == freep == list[f] && p == list[After(list, f)] && Follows(list, prevp, After(list, f))
      ensures ok ==> freep in size && p in size && (size[freep] >= n || size[p] >= n)
    {
      hide Ok, Range;
      prevp, astray := Morecore(n, brk);
      ok := prevp != 0;
      p, f := 0, 0;
      if ok {
        f :| 0 <= f < |list| && list[f] == freep;
        InRing(base, View(), f);
        Headers(base, View(), After(list, f));
        FollowsAfter(list, f);
        p := ptr[prevp];
      }
    }

    /** The first call makes a list of the static block alone. */
    method Start()
      requires Valid() && freep == 0
      modifies this
      ensures Valid() && freep != 0 && live == old(live) && cover == old(cover)
    {
      ptr, size, freep := ptr[base := base], size[base := 0], base;
      list := [base];
      FirstArena(base, View());
    }

    /** malloc, since the heap was `was`, has come to free block `k`, which is `p`, after `prevp`. `f` is the place of
        `freep`. Until the heap is enlarged, all blocks passed are too small; then the new block is `freep` or next. */
    ghost predicate Looking(was: Arena, brk: Sbrk, n: nat, grown: bool, f: nat, k: nat, prevp: nat, p: nat)
      reads this
    {
      && Valid() && freep != 0 && f < |list| && list[f] == freep
      && k < |list| && p == list[k] && p in size && Follows(list, prevp, k)
      && live == was.live && Leaves(was, View(), 0) && Grew(was.cover.Keys, cover.Keys, brk, n)
      && (grown ==> AllSmall(was, n))
      && if grown then brk.At? && freep in size && (size[freep] >= n || (k == After(list, f) && size[p] >= n))
         else
           && cover.Keys == was.cover.Keys && SmallBefore(list, size, f, k, n)
           && (was.list == [] || (list == was.list && size == was.size))
           && (brk.At? ==> brk.addr > base && forall u :: u in cover ==> u < brk.addr)
    }

    /** The search starts behind `freep`. */
    method Begin(ghost n: nat, ghost brk: Sbrk) returns (prevp: nat, p: nat, ghost f: nat, ghost k: nat)
      requires Valid() && (brk.At? ==> brk.addr > base && forall u :: u in cover ==> u < brk.addr)
      modifies this
      ensures Looking(old(View()), brk, n, false, f, k, prevp, p)
    {
      hide Ringed, Ordered, Tiled;
      if freep == 0 {
        Start();
      }
      f :| 0 <= f < |list| && list[f] == freep;
      InRing(base, View(), f);
      Headers(base, View(), After(list, f));
      FollowsAfter(list, f);
      k := After(list, f);
      prevp, p := freep, ptr[freep];
    }

    /** The block is large enough. */
    method Found(n: nat, ghost brk: Sbrk, ghost grown: bool, prevp: nat, p: nat, ghost f: nat, ghost k: nat,
                 ghost was: Arena)
      returns (ap: nat)
      requires Looking(was, brk, n, grown, f, k, prevp, p) && size[p] >= n > 0
      modifies this
      ensures Valid() && freep != 0 && ap > 0 && ap - 1 !in was.live && live == was.live + {ap - 1}
      ensures Grew(was.cover.Keys, cover.Keys, brk, n) && Leaves(was, View(), 0)
      ensures cover.Keys != was.cover.Keys ==> AllSmall(was, n)
      ensures ap - 1 in size && size[ap - 1] == n
    {
      hide Leaves, Ok, Grew, SmallBefore, After;
      Headers(base, View(), k);
      ghost var a := View();
      ap := Take(prevp, p, n, k);
      LeavesTwice(was, a, View());
    }

    /** All the way round: enlarge the heap. */
    method Around(n: nat, brk: Sbrk, ghost f: nat, ghost k: nat, ghost prev: nat, ghost q: nat, ghost was: Arena)
      returns (ok: bool, astray: bool, prevp: nat, p: nat, ghost f': nat, ghost k': nat)
      requires Looking(was, brk, n, false, f, k, prev, q) && q == freep && size[q] < n
      modifies this
      ensures astray == !SbrkExact(n) && ok == (brk.At? && !astray)
      ensures !ok ==> unchanged(this) && forall i :: 0 <= i < |list| ==> Small(list, size, i, n)
      ensures ok ==> Looking(was, brk, n, true, f', k', prevp, p)
    {
      hide Leaves, Ok, SmallBefore, After, Range;
      SameIndex(base, View(), k, f);
      SmallAll(list, size, f, n);
      ghost var a := View();
      ok, astray, prevp, p, f' := Refill(n, brk);
      k' := 0;
      if ok {
        k' := After(list, f');
        LeavesTwice(was, a, View());
      }
    }

    /** One block further. */
    lemma Further(was: Arena, brk: Sbrk, n: nat, grown: bool, f: nat, k: nat, prevp: nat, p: nat)
      requires Looking(was, brk, n, grown, f, k, prevp, p) && p != freep && size[p] < n
      ensures p in ptr && Looking(was, brk, n, grown, f, After(list, k), p, ptr[p])
      ensures Steps(|list|, f, After(list, k)) < Steps(|list|, f, k)
    {
      hide Leaves, Ok, SmallBefore, Steps;
      InRing(base, View(), k);
      Headers(base, View(), After(list, k));
      SmallNext(list, size, f, k, n);
    }

    /** A block of at least the size asked for; from the kernel only when no free block is large enough. Or 0 when no
        free block is large enough and the kernel has no memory; or the call goes astray, when none is and the size in
        bytes does not fit sbrk's argument. */
    method Malloc(nbytes: Word, brk: Sbrk) returns (ap: nat, astray: bool)
      requires Valid() && (brk.At? ==> brk.addr > base && forall u :: u in cover ==> u < brk.addr)
      modifies this
      ensures Valid() && Leaves(old(View()), View(), 0) && freep != 0
      ensures astray == (ap == 0 && !SbrkExact(Units(nbytes)))
      ensures ap == 0 ==> (astray || brk.Fails?) && live == old(live) && cover.Keys == old(cover).Keys
      ensures ap == 0 ==> forall i :: 0 <= i < |list| ==> Small(list, size, i, Units(nbytes))
      ensures cover.Keys != old(cover).Keys ==> AllSmall(old(View()), Units(nbytes))
      ensures ap != 0 ==> ap - 1 !in old(live) && live == old(live) + {ap - 1}
      ensures ap != 0 ==> ap - 1 in size && size[ap - 1] == Units(nbytes)
      ensures ap != 0 ==> ((size[ap - 1] - 1) * HEADER >= nbytes <==> nbytes + HEADER - 1 < WORD_LIMIT)
      ensures ap != 0 ==> Grew(old(cover).Keys, cover.Keys, brk, Units(nbytes))
    {
      hide Leaves, Ok, Grew, SmallBefore, Steps, After, Units, SbrkExact;
      var n := Units(nbytes);
      RequestIff(nbytes);
      astray := false;
      ghost var (was, grown) := (View(), false);
      var prevp, p, f, k := Begin(n, brk);
      while true
        invariant Looking(was, brk, n, grown, f, k, prevp, p) && !astray
        decreases !grown, Steps(|list|, f, k)
      {
        if size[p] >= n {
          ap := Found(n, brk, grown, prevp, p, f, k, was);
          return;
        }
        if p == freep {
          var ok;
          ok, astray, prevp, p, f, k := Around(n, brk, f, k, prevp, p, was);
          if !ok {
            return 0, astray;
          }
          grown := true;
        } else {
          Further(was, brk, n, grown, f, k, prevp, p);
          k := After(list, k);
          prevp, p := p, ptr[p];
        }
      }
    }
  }

  /** `prevp` is the element before `list[k]` in the ring. */
  predicate Follows(list: seq<nat>, prevp: nat, k: nat)
    requires k < |list|
  {
    prevp == list[if k == 0 then |list| - 1 else k - 1]
  }

  lemma FollowsAfter(list: seq<nat>, k: nat)
    requires k < |list|
    ensures Follows(list, list[k], After(list, k))
  {
  }

  /** The blocks passed on the way from `f` round to `k` are too small. */
  ghost predicate SmallBefore(list: seq<nat>, size: map<nat, nat>, f: nat, k: nat, n: nat)
    requires f < |list| && k < |list|
  {
    forall i :: 0 <= i < |list| && Steps(|list|, f, i) > Steps(|list|, f, k) ==> Small(list, size, i, n)
  }

  lemma SmallNext(list: seq<nat>, size: map<nat, nat>, f: nat, k: nat, n: nat)
    requires f < |list| && k < |list| && k != f && Small(list, size, k, n)
    ensures Steps(|list|, f, After(list, k)) < Steps(|list|, f, k)
    ensures SmallBefore(list, size, f, k, n) ==> SmallBefore(list, size, f, After(list, k), n)
    ensures Follows(list, list[k], After(list, k))
  {
  }

  lemma SmallAll(list: seq<nat>, size: map<nat, nat>, f: nat, n: nat)
    requires f < |list| && SmallBefore(list, size, f, f, n) && Small(list, size, f, n)
    ensures forall i :: 0 <= i < |list| ==> Small(list, size, i, n)
  {
    forall i | 0 <= i < |list|
      ensures Small(list, size, i, n)
    {
      assert i != f ==> Steps(|list|, f, i) > Steps(|list|, f, f);
    }
  }

  /** The heap is what it was, or what it was and the memory asked for. */
  ghost predicate Grew(was: set<nat>, now: set<nat>, brk: Sbrk, n: nat) {
    now == was || (brk.At? && now == was + Range(brk.addr, Max(n, MIN_UNITS)))
  }

  /** No free block has `n` units. */
  ghost predicate AllSmall(a: Arena, n: nat) {
    forall i :: 0 <= i < |a.list| ==> Small(a.list, a.size, i, n)
  }

  ghost predicate Small(list: seq<nat>, size: map<nat, nat>, i: nat, n: nat) {
    i < |list| && list[i] in size && size[list[i]] < n
  }

  lemma InRing(base: nat, a: Arena, k: nat)
    requires Ok(base, a) && k < |a.list|
    ensures a.list[k] >= base && a.list[k] in a.ptr && a.ptr[a.list[k]] == a.list[After(a.list, k)]
  {
    assert Link(a.list, a.ptr, k);
  }

  /** Which header fields change, and where the freed block is afterwards. */
  lemma FreedWhere(ptr: map<nat, nat>, size: map<nat, nat>, p: nat, b: nat, nx: nat)
    requires b in size && p in size && nx in size && nx in ptr && p != b
    ensures var (ptr', size') := FreedMaps(ptr, size, p, b, nx);
      && (forall x :: x != p && x != b ==> SameAt(ptr, ptr', x) && SameAt(size, size', x))
      && p in ptr' && p in size'
      && (size'[p] >= size[b] || (ptr'[p] in size' && size'[ptr'[p]] >= size[b]))
  {
  }

  /** Neither the header of a free block nor that of `b` lies in another allocated block. */
  lemma FreeWrites(base: nat, a: Arena, b: nat, p: nat)
    requires Ok(base, a) && b in a.live && p in a.list
    ensures p in a.cover ==> a.cover[p] !in a.live
    ensures b in a.cover && a.cover[b] == b
  {
    assert Inside(a.size, b, b);
    if p in a.cover && p != base {
      assert Inside(a.size, p, p);
    }
  }

  /** The search stops exactly at the block's place. */
  lemma AtPlace(base: nat, a: Arena, b: nat, j: nat, k: nat)
    requires Ok(base, a) && b in a.live && Place(a.list, b, j) && k < |a.list|
    ensures var (p, nx) := (a.list[k], a.list[After(a.list, k)]);
      (b > p && b < nx) || (p >= nx && (b > p || b < nx)) <==> k == j
  {
    if k < j {
      assert Precedes(a.list, a.size, k, j) && Precedes(a.list, a.size, k, k + 1);
      assert k + 1 < j ==> Precedes(a.list, a.size, k + 1, j);
    } else if j < k {
      assert Precedes(a.list, a.size, j, k) && (j + 1 < k ==> Precedes(a.list, a.size, j + 1, k));
      assert k + 1 < |a.list| ==> Precedes(a.list, a.size, k, k + 1);
    } else {
      assert k + 1 < |a.list| ==> Precedes(a.list, a.size, k, k + 1);
    }
  }

  lemma LeavesGrown(a: Arena, g: Arena, r: Arena, h: nat)
    requires Leaves(a, g, 0) && Leaves(g, r, h) && h !in a.live && 0 !in a.live
    ensures Leaves(a, r, 0)
  {
    forall x | x in a.cover && a.cover[x] in a.live && a.cover[x] != 0
      ensures LeavesUnit(a, r, x)
    {
      assert LeavesUnit(a, g, x) && LeavesUnit(g, r, x);
    }
  }

  lemma FirstArena(base: nat, a: Arena)
    requires a.list == [base] && base in a.ptr && a.ptr[base] == base && base in a.size && a.size[base] == 0
    requires a.live == {} && a.cover == map[]
    ensures Ok(base, a)
  {
  }

  /** Sizes on the list: only the static block has none. */
  lemma Headers(base: nat, a: Arena, k: nat)
    requires Ok(base, a) && k < |a.list|
    ensures a.list[k] in a.size && (k == 0 <==> a.size[a.list[k]] == 0)
  {
  }

  lemma SameIndex(base: nat, a: Arena, j: nat, k: nat)
    requires Ok(base, a) && j < |a.list| && k < |a.list| && a.list[j] == a.list[k]
    ensures j == k
  {
    OrderedDistinct(base, a.list, a.size);
  }

  /** New memory lies outside every allocated block. */
  lemma GrownAt(base: nat, a: Arena, h: nat, n: nat)
    requires Ok(base, a) && h > base && forall u :: u in a.cover ==> u < h
    ensures h !in a.live && h !in a.list && h !in a.cover
    ensures Grow(a, h, n).cover.Keys == a.cover.Keys + Range(h, n)
    ensures Grow(a, h, n).live - {h} == a.live
  {
    if a.Has(h) {
      GrownAbove(base, a, h, h);
    }
  }

  lemma GrownLeaves(base: nat, a: Arena, h: nat, n: nat)
    requires Ok(base, a) && h > base && n > 0 && forall u :: u in a.cover ==> u < h
    ensures var g := Grow(a, h, n);
      && Ok(base, g) && Leaves(a, g, 0) && h in g.live && g.live - {h} == a.live && h !in a.live && 0 !in a.live
      && h in g.size && g.size[h] == n && g.cover.Keys == a.cover.Keys + Range(h, n)
  {
    Grown(base, a, h, n);
    GrownAt(base, a, h, n);
    hide Tiled, Ordered, Ringed, Range;
    LeavesIf(base, a, Grow(a, h, n), 0);
  }

  lemma UnlinkLeaves(base: nat, a: Arena, k: nat)
    requires Ok(base, a) && 0 < k < |a.list| && a.list[k] in a.ptr
    ensures var r := Unlink(a, k);
      && Ok(base, r) && Leaves(a, r, 0) && a.list[k - 1] in r.list && a.list[k] in a.size && a.list[k] !in a.live
      && r == Arena(r.list, a.ptr[a.list[k - 1] := a.ptr[a.list[k]]], a.size, a.live + {a.list[k]}, a.cover)
  {
    Unlinked(base, a, k);
    Headers(base, a, k);
    TakeWrites(base, a, k, a.size[a.list[k]]);
    var r := Unlink(a, k);
    assert r.list[k - 1] == a.list[k - 1];
    hide Ok, Ringed, Ordered, Tiled, Touching, RemoveAt;
    LeavesIf(base, a, r, 0);
  }

  lemma SplitLeaves(base: nat, a: Arena, k: nat, n: nat)
    requires Ok(base, a) && 0 < k < |a.list| && a.list[k] in a.size && 0 < n < a.size[a.list[k]]
    ensures var (p, r) := (a.list[k], Split(a, k, n));
      var h := p + a.size[p] - n;
      && Ok(base, r) && Leaves(a, r, 0) && h !in a.live && r.cover.Keys == a.cover.Keys
      && r == Arena(a.list, a.ptr, a.size[p := a.size[p] - n][h := n], a.live + {h}, r.cover)
  {
    hide Ok, LeavesUnit;
    Splitted(base, a, k, n);
    TakeWrites(base, a, k, n);
    var (p, r) := (a.list[k], Split(a, k, n));
    var h := p + a.size[p] - n;
    assert forall x :: x in a.cover && a.cover[x] in a.live ==> x != p && x != h;
    LeavesIf(base, a, r, 0);
    assert r.cover.Keys == a.cover.Keys;
  }

  /** What Take writes lies outside every allocated block. */
  lemma TakeWrites(base: nat, a: Arena, k: nat, n: nat)
    requires Ok(base, a) && 0 < k < |a.list| && a.list[k] in a.size && 0 < n <= a.size[a.list[k]]
    ensures a.list[k] !in a.live && a.list[k] in a.cover && a.cover[a.list[k]] !in a.live
    ensures a.list[k - 1] in a.cover ==> a.cover[a.list[k - 1]] !in a.live
    ensures var h := a.list[k] + a.size[a.list[k]] - n; h !in a.live && h in a.cover && a.cover[h] !in a.live
  {
    var p := a.list[k];
    assert Inside(a.size, p, p) && Inside(a.size, p, p + a.size[p] - n);
    if a.list[k - 1] in a.cover && k > 1 {
      assert Inside(a.size, a.list[k - 1], a.list[k - 1]);
    }
    var h := p + a.size[p] - n;
    if h in a.live {
      assert Inside(a.size, h, h);
    }
  }
}
