/** The heap of the user-level allocator as a value: a circular, address-ordered free list of blocks measured in
    header-sized units, the allocated blocks, and the five ways in which the allocator rearranges them. */
module HeapBlocks {

  /** The header fields of every block, the free list in address order (starting with the static block), the allocated
      blocks, and for every unit of the heap the block it lies in. */
  datatype Arena = Arena(list: seq<nat>, ptr: map<nat, nat>, size: map<nat, nat>, live: set<nat>, cover: map<nat, nat>)
  {
    predicate Has(h: nat) {
      h in list || h in live
    }
  }

  function After(list: seq<nat>, k: nat): (r: nat)
    requires k < |list|
    ensures r < |list|
  {
    if k + 1 == |list| then 0 else k + 1
  }

  ghost predicate Link(list: seq<nat>, ptr: map<nat, nat>, k: nat)
    requires k < |list|
  {
    list[k] in ptr && ptr[list[k]] == list[After(list, k)]
  }

  ghost predicate Ringed(list: seq<nat>, ptr: map<nat, nat>) {
    forall k :: 0 <= k < |list| ==> Link(list, ptr, k)
  }

  /** Free block `j` ends before block `k` starts. */
  ghost predicate Precedes(list: seq<nat>, size: map<nat, nat>, j: nat, k: nat) {
    j < |list| && k < |list| && list[j] in size && list[j] + size[list[j]] <= list[k]
  }

  ghost predicate Ordered(base: nat, list: seq<nat>, size: map<nat, nat>) {
    && |list| > 0 && list[0] == base && base in size && size[base] == 0
    && (forall k :: 0 < k < |list| ==> base < list[k] && list[k] in size && size[list[k]] > 0)
    && (forall j, k :: 0 <= j < k < |list| ==> Precedes(list, size, j, k))
  }

  /** Free block `k` ends where the next one starts. */
  predicate Touching(list: seq<nat>, size: map<nat, nat>, k: nat) {
    k + 1 < |list| && list[k] in size && list[k] + size[list[k]] == list[k + 1]
  }

  ghost predicate Inside(size: map<nat, nat>, h: nat, u: nat) {
    h in size && h <= u < h + size[h]
  }

  /** The blocks do not overlap and together are the whole heap. */
  ghost predicate Tiled(a: Arena) {
    && (forall h, u :: a.Has(h) && Inside(a.size, h, u) ==> u in a.cover && a.cover[u] == h)
    && (forall u :: u in a.cover ==> a.Has(a.cover[u]) && Inside(a.size, a.cover[u], u))
  }

  ghost predicate LiveOk(base: nat, a: Arena) {
    forall h :: h in a.live ==> h > base && h in a.size && a.size[h] > 0 && h !in a.list
  }

  ghost predicate Sound(base: nat, a: Arena) {
    Ringed(a.list, a.ptr) && Ordered(base, a.list, a.size) && Tiled(a) && LiveOk(base, a)
  }

  /** Moreover, free blocks that touch have been joined. */
  ghost predicate Ok(base: nat, a: Arena) {
    Sound(base, a) && forall k :: 0 <= k < |a.list| ==> !Touching(a.list, a.size, k)
  }

  lemma Apart(base: nat, a: Arena, h: nat, g: nat)
    requires Sound(base, a) && a.Has(h) && a.Has(g) && h < g
    ensures h in a.size && h + a.size[h] <= g
  {
    if g != base && Inside(a.size, h, g) {
      assert Inside(a.size, g, g);
    }
  }

  /** Re-labelling the units of the blocks in `gone` as one block `h` that takes their place. */
  lemma Retiled(a: Arena, a': Arena, gone: set<nat>, h: nat)
    requires Tiled(a) && a'.cover == map u | u in a.cover :: if a.cover[u] in gone then h else a.cover[u]
    requires h in gone && forall g :: a'.Has(g) <==> g == h || (a.Has(g) && g !in gone)
    requires forall g :: a.Has(g) && g !in gone ==>
      (g in a'.size <==> g in a.size) && (g in a.size ==> a'.size[g] == a.size[g])
    requires forall u :: Inside(a'.size, h, u) <==> u in a.cover && a.cover[u] in gone
    ensures Tiled(a')
  {
    forall g, u | a'.Has(g) && Inside(a'.size, g, u)
      ensures u in a'.cover && a'.cover[u] == g
    {
      if g != h {
        assert Inside(a.size, g, u);
      }
    }
    forall u | u in a'.cover
      ensures a'.Has(a'.cover[u]) && Inside(a'.size, a'.cover[u], u)
    {
      assert a.Has(a.cover[u]) && Inside(a.size, a.cover[u], u);
    }
  }

  // ---- putting a block on the free list ----

  /** The place of `b` in the list: after `list[j]` and before the next. */
  predicate Place(list: seq<nat>, b: nat, j: nat) {
    j < |list| && list[j] < b && (j + 1 < |list| ==> b < list[j + 1])
  }

  lemma PlaceExists(list: seq<nat>, b: nat) returns (j: nat)
    requires |list| > 0 && list[0] < b && b !in list
    ensures Place(list, b, j)
  {
    j := 0;
    while j + 1 < |list| && list[j + 1] < b
      invariant j < |list| && list[j] < b
    {
      j := j + 1;
    }
  }

  function InsertAt(list: seq<nat>, j: nat, b: nat): (r: seq<nat>)
    requires j < |list|
    ensures |r| == |list| + 1 && forall k :: 0 <= k < |r| ==>
      r[k] == if k <= j then list[k] else if k == j + 1 then b else list[k - 1]
    ensures forall g :: g in r <==> g in list || g == b
  {
    var r := list[..j + 1] + [b] + list[j + 1..];
    assert r[j + 1] == b && list == list[..j + 1] + list[j + 1..];
    r
  }

  function Insert(a: Arena, b: nat, j: nat): (r: Arena)
    requires j < |a.list|
  {
    Arena(InsertAt(a.list, j, b), a.ptr[b := a.list[After(a.list, j)]][a.list[j] := b], a.size, a.live - {b}, a.cover)
  }

  ghost predicate Distinct(list: seq<nat>) {
    forall j, k :: 0 <= j < k < |list| ==> list[j] != list[k]
  }

  lemma OrderedDistinct(base: nat, list: seq<nat>, size: map<nat, nat>)
    requires Ordered(base, list, size)
    ensures Distinct(list)
  {
    forall j, k | 0 <= j < k < |list|
      ensures list[j] != list[k]
    {
      assert Precedes(list, size, j, k);
    }
  }

  lemma InsertedRing(list: seq<nat>, ptr: map<nat, nat>, b: nat, j: nat)
    requires Ringed(list, ptr) && Distinct(list) && b !in list && j < |list|
    ensures Ringed(InsertAt(list, j, b), ptr[b := list[After(list, j)]][list[j] := b])
  {
    var (r, ptr') := (InsertAt(list, j, b), ptr[b := list[After(list, j)]][list[j] := b]);
    forall k | 0 <= k < |r|
      ensures Link(r, ptr', k)
    {
      if k != j + 1 {
        var i := if k <= j then k else k - 1;
        assert r[k] == list[i] && Link(list, ptr, i);
      }
    }
  }

  lemma InsertedOrder(base: nat, a: Arena, b: nat, j: nat)
    requires Sound(base, a) && b in a.live && Place(a.list, b, j)
    ensures Ordered(base, InsertAt(a.list, j, b), a.size)
  {
    var r := InsertAt(a.list, j, b);
    forall i, k | 0 <= i < k < |r|
      ensures Precedes(r, a.size, i, k)
    {
      if k <= j {
        assert Precedes(a.list, a.size, i, k);
      } else if i > j + 1 {
        assert Precedes(a.list, a.size, i - 1, k - 1);
      } else if i <= j && k > j + 1 {
        assert Precedes(a.list, a.size, i, k - 1);
      } else {
        InsertedPair(base, a, b, j, if i == j + 1 then k - 1 else i);
      }
    }
  }

  lemma InsertedPair(base: nat, a: Arena, b: nat, j: nat, k: nat)
    requires Sound(base, a) && b in a.live && Place(a.list, b, j) && k < |a.list|
    ensures a.list[k] in a.size && b in a.size
    ensures if k <= j then a.list[k] + a.size[a.list[k]] <= b else b + a.size[b] <= a.list[k]
  {
    if k <= j {
      assert k < j ==> Precedes(a.list, a.size, k, j);
      Apart(base, a, a.list[k], b);
    } else {
      assert j + 1 < k ==> Precedes(a.list, a.size, j + 1, k);
      Apart(base, a, b, a.list[k]);
    }
  }

  lemma Inserted(base: nat, a: Arena, b: nat, j: nat)
    requires Sound(base, a) && b in a.live && Place(a.list, b, j)
    ensures Sound(base, Insert(a, b, j))
  {
    OrderedDistinct(base, a.list, a.size);
    InsertedRing(a.list, a.ptr, b, j);
    InsertedOrder(base, a, b, j);
    InsertedTiles(base, a, b, j);
    hide Ringed, Ordered, Tiled, LiveOk, InsertAt;
  }

  lemma InsertedTiles(base: nat, a: Arena, b: nat, j: nat)
    requires Tiled(a) && LiveOk(base, a) && b in a.live && j < |a.list|
    ensures Tiled(Insert(a, b, j)) && LiveOk(base, Insert(a, b, j))
  {
    assert forall g :: Insert(a, b, j).Has(g) <==> a.Has(g);
  }

  // ---- taking a block off the list, joining, splitting, and enlarging the heap ----

  function RemoveAt(list: seq<nat>, k: nat): (r: seq<nat>)
    requires k < |list|
    ensures |r| == |list| - 1 && forall i :: 0 <= i < |r| ==> r[i] == if i < k then list[i] else list[i + 1]
  {
    list[..k] + list[k + 1..]
  }

  lemma RemovedMembers(list: seq<nat>, k: nat)
    requires Distinct(list) && k < |list|
    ensures forall g :: g in RemoveAt(list, k) <==> g in list && g != list[k]
  {
    forall g | g in list && g != list[k]
      ensures g in RemoveAt(list, k)
    {
      var i :| 0 <= i < |list| && list[i] == g;
      assert RemoveAt(list, k)[if i < k then i else i - 1] == g;
    }
  }

  lemma RemovedRing(list: seq<nat>, ptr: map<nat, nat>, k: nat)
    requires Ringed(list, ptr) && Distinct(list) && 0 < k < |list|
    ensures Link(list, ptr, k) && Ringed(RemoveAt(list, k), ptr[list[k - 1] := ptr[list[k]]])
  {
    assert Link(list, ptr, k);
    var (r, ptr') := (RemoveAt(list, k), ptr[list[k - 1] := ptr[list[k]]]);
    forall i | 0 <= i < |r|
      ensures Link(r, ptr', i)
    {
      assert Link(list, ptr, if i < k then i else i + 1);
    }
  }

  lemma RemovedOrder(base: nat, list: seq<nat>, size: map<nat, nat>, k: nat)
    requires Ordered(base, list, size) && 0 < k < |list|
    ensures Ordered(base, RemoveAt(list, k), size)
  {
    var r := RemoveAt(list, k);
    forall i, j | 0 <= i < j < |r|
      ensures Precedes(r, size, i, j)
    {
      assert Precedes(list, size, if i < k then i else i + 1, if j < k then j else j + 1);
    }
  }

  function Unlink(a: Arena, k: nat): (r: Arena)
    requires 0 < k < |a.list| && a.list[k] in a.ptr
  {
    Arena(RemoveAt(a.list, k), a.ptr[a.list[k - 1] := a.ptr[a.list[k]]], a.size, a.live + {a.list[k]}, a.cover)
  }

  lemma UnlinkedGaps(base: nat, a: Arena, k: nat)
    requires Ordered(base, a.list, a.size) && 0 < k < |a.list|
    requires forall i :: 0 <= i < |a.list| ==> !Touching(a.list, a.size, i)
    ensures var r := RemoveAt(a.list, k); forall i :: 0 <= i < |r| ==> !Touching(r, a.size, i)
  {
    var r := RemoveAt(a.list, k);
    assert Precedes(a.list, a.size, k - 1, k) && (k + 1 < |a.list| ==> Precedes(a.list, a.size, k, k + 1));
    forall i | 0 <= i < |r|
      ensures !Touching(r, a.size, i)
    {
      assert !Touching(a.list, a.size, if i < k then i else i + 1);
    }
  }

  lemma Unlinked(base: nat, a: Arena, k: nat)
    requires Ok(base, a) && 0 < k < |a.list|
    ensures a.list[k] in a.ptr && Ok(base, Unlink(a, k))
  {
    OrderedDistinct(base, a.list, a.size);
    RemovedRing(a.list, a.ptr, k);
    RemovedMembers(a.list, k);
    RemovedOrder(base, a.list, a.size, k);
    UnlinkedGaps(base, a, k);
    UnlinkedTiles(base, a, k);
    hide Ringed, Ordered, Touching, RemoveAt, Tiled, LiveOk;
  }

  lemma UnlinkedTiles(base: nat, a: Arena, k: nat)
    requires Ok(base, a) && 0 < k < |a.list| && a.list[k] in a.ptr
    ensures Tiled(Unlink(a, k)) && LiveOk(base, Unlink(a, k))
  {
    OrderedDistinct(base, a.list, a.size);
    RemovedMembers(a.list, k);
    var r := Unlink(a, k);
    hide Ringed, Touching, RemoveAt;
    assert forall g :: r.Has(g) <==> a.Has(g);
  }

  function Join(a: Arena, k: nat): (r: Arena)
    requires k + 1 < |a.list| && a.list[k + 1] in a.ptr && a.list[k] in a.size && a.list[k + 1] in a.size
  {
    var (h, g) := (a.list[k], a.list[k + 1]);
    Arena(RemoveAt(a.list, k + 1), a.ptr[h := a.ptr[g]], a.size[h := a.size[h] + a.size[g]], a.live,
          map u | u in a.cover :: if a.cover[u] in {h, g} then h else a.cover[u])
  }

  lemma JoinedOrder(base: nat, list: seq<nat>, size: map<nat, nat>, k: nat)
    requires Ordered(base, list, size) && Touching(list, size, k)
    ensures Ordered(base, RemoveAt(list, k + 1), size[list[k] := size[list[k]] + size[list[k + 1]]])
  {
    RemovedOrder(base, list, size, k + 1);
    OrderedDistinct(base, list, size);
    var (r, size') := (RemoveAt(list, k + 1), size[list[k] := size[list[k]] + size[list[k + 1]]]);
    forall i, j | 0 <= i < j < |r|
      ensures Precedes(r, size', i, j)
    {
      assert Precedes(r, size, i, j);
      if i == k {
        assert Precedes(list, size, k + 1, j + 1);
      }
    }
  }

  lemma JoinedTiles(base: nat, a: Arena, k: nat)
    requires Ordered(base, a.list, a.size) && Tiled(a) && LiveOk(base, a) && Distinct(a.list)
    requires Touching(a.list, a.size, k) && a.list[k + 1] in a.ptr
    ensures Tiled(Join(a, k))
  {
    RemovedMembers(a.list, k + 1);
    var r := Join(a, k);
    var (h, g) := (a.list[k], a.list[k + 1]);
    hide Ordered;
    forall u
      ensures Inside(r.size, h, u) <==> u in a.cover && a.cover[u] in {h, g}
    {
      assert Inside(r.size, h, u) <==> Inside(a.size, h, u) || Inside(a.size, g, u);
      assert a.Has(h) && a.Has(g);
    }
    hide Tiled;
    Retiled(a, r, {h, g}, h);
  }

  lemma Joined(base: nat, a: Arena, k: nat)
    requires Sound(base, a) && Touching(a.list, a.size, k)
    ensures a.list[k + 1] in a.ptr && Sound(base, Join(a, k))
  {
    OrderedDistinct(base, a.list, a.size);
    RemovedRing(a.list, a.ptr, k + 1);
    JoinedTiles(base, a, k);
    JoinedOrder(base, a.list, a.size, k);
    RemovedMembers(a.list, k + 1);
    hide Ringed, Tiled;
  }

  function Split(a: Arena, k: nat, n: nat): (r: Arena)
    requires k < |a.list| && a.list[k] in a.size && n < a.size[a.list[k]]
  {
    var rest := a.size[a.list[k]] - n;
    var h := a.list[k] + rest;
    Arena(a.list, a.ptr, a.size[a.list[k] := rest][h := n], a.live + {h},
          map u | u in a.cover :: if h <= u < h + n then h else a.cover[u])
  }

  lemma SplittedOrder(base: nat, a: Arena, k: nat, n: nat)
    requires Ok(base, a) && 0 < k < |a.list| && 0 < n < a.size[a.list[k]]
    requires !a.Has(a.list[k] + a.size[a.list[k]] - n)
    ensures var r := Split(a, k, n); Ordered(base, r.list, r.size) && forall i :: 0 <= i < |r.list| ==>
      !Touching(r.list, r.size, i)
  {
    OrderedDistinct(base, a.list, a.size);
    var r := Split(a, k, n);
    forall i, j | 0 <= i < j < |r.list|
      ensures Precedes(r.list, r.size, i, j)
    {
      assert Precedes(a.list, a.size, i, j);
    }
    forall i | 0 <= i < |r.list|
      ensures !Touching(r.list, r.size, i)
    {
      assert !Touching(a.list, a.size, i);
      assert i + 1 < |a.list| ==> Precedes(a.list, a.size, i, i + 1);
    }
  }

  lemma SplittedTiles(base: nat, a: Arena, k: nat, n: nat)
    requires Sound(base, a) && 0 < k < |a.list| && 0 < n < a.size[a.list[k]]
    requires !a.Has(a.list[k] + a.size[a.list[k]] - n)
    ensures Tiled(Split(a, k, n))
  {
    hide Ringed, Precedes, LiveOk;
    var (p, r) := (a.list[k], Split(a, k, n));
    var h := p + a.size[p] - n;
    assert r.Has(h) && r.Has(p) && Inside(a.size, p, h);
    forall g, u | r.Has(g) && Inside(r.size, g, u)
      ensures u in r.cover && r.cover[u] == g
    {
      assert Inside(a.size, if g == h then p else g, u);
    }
    forall u | u in r.cover
      ensures r.Has(r.cover[u]) && Inside(r.size, r.cover[u], u)
    {
      assert a.Has(a.cover[u]) && Inside(a.size, a.cover[u], u);
      assert Inside(a.size, p, u) ==> a.cover[u] == p;
    }
  }

  lemma Splitted(base: nat, a: Arena, k: nat, n: nat)
    requires Ok(base, a) && 0 < k < |a.list| && 0 < n < a.size[a.list[k]]
    ensures Ok(base, Split(a, k, n))
  {
    var p := a.list[k];
    var h := p + a.size[p] - n;
    assert Inside(a.size, p, h);
    assert !a.Has(h) by {
      if a.Has(h) {
        Apart(base, a, p, h);
      }
    }
    SplittedOrder(base, a, k, n);
    SplittedTiles(base, a, k, n);
    hide Ringed, Ordered, Tiled, Touching;
  }

  function Range(h: nat, n: nat): (r: set<nat>)
    ensures forall u :: u in r <==> h <= u < h + n
  {
    if n == 0 then {} else Range(h, n - 1) + {h + n - 1}
  }

  function Grow(a: Arena, h: nat, n: nat): (r: Arena) {
    Arena(a.list, a.ptr, a.size[h := n], a.live + {h},
          map u | u in a.cover.Keys + Range(h, n) :: if h <= u < h + n then h else a.cover[u])
  }

  lemma GrownAbove(base: nat, a: Arena, h: nat, g: nat)
    requires Ok(base, a) && h > base && a.Has(g) && forall u :: u in a.cover ==> u < h
    ensures g in a.size && g < h && g + a.size[g] <= h
  {
    if g != base {
      assert Inside(a.size, g, g) && Inside(a.size, g, g + a.size[g] - 1);
    }
  }

  lemma GrownTiles(a: Arena, h: nat, n: nat)
    requires Tiled(a) && n > 0 && forall u :: u in a.cover ==> u < h
    requires forall g: nat :: a.Has(g) ==> g != h
    ensures Tiled(Grow(a, h, n))
  {
    var r := Grow(a, h, n);
    forall g, u | r.Has(g) && Inside(r.size, g, u)
      ensures u in r.cover && r.cover[u] == g
    {
      assert g != h ==> Inside(a.size, g, u);
    }
    forall u | u in r.cover
      ensures r.Has(r.cover[u]) && Inside(r.size, r.cover[u], u)
    {
      assert u in a.cover ==> a.Has(a.cover[u]) && Inside(a.size, a.cover[u], u);
    }
  }

  lemma Grown(base: nat, a: Arena, h: nat, n: nat)
    requires Ok(base, a) && h > base && n > 0 && forall u :: u in a.cover ==> u < h
    ensures Ok(base, Grow(a, h, n))
  {
    hide Ringed, Tiled;
    forall g: nat | a.Has(g)
      ensures g < h
    {
      GrownAbove(base, a, h, g);
    }
    GrownTiles(a, h, n);
    var r := Grow(a, h, n);
    assert forall k :: 0 <= k < |a.list| ==> a.Has(a.list[k]);
    assert LiveOk(base, r);
    forall i, j | 0 <= i < j < |r.list|
      ensures Precedes(r.list, r.size, i, j)
    {
      assert Precedes(a.list, a.size, i, j) && a.Has(a.list[i]);
    }
    forall i | 0 <= i < |r.list|
      ensures !Touching(r.list, r.size, i)
    {
      assert !Touching(a.list, a.size, i) && a.Has(a.list[i]);
    }
  }

  // ---- freeing: insert, then join with the block after and with the block before ----

  ghost predicate UntouchedBut(a: Arena, k: nat, j: nat) {
    forall i :: 0 <= i < |a.list| && i != k && i != j ==> !Touching(a.list, a.size, i)
  }

  function JoinIf(a: Arena, k: nat): (r: Arena)
    requires Touching(a.list, a.size, k) ==> a.list[k + 1] in a.ptr && a.list[k + 1] in a.size
  {
    if Touching(a.list, a.size, k) then Join(a, k) else a
  }

  lemma JoinedIf(base: nat, a: Arena, k: nat, j: nat)
    requires Sound(base, a) && k < |a.list| && j < |a.list| && j <= k && UntouchedBut(a, k, j)
    ensures Touching(a.list, a.size, k) ==> a.list[k + 1] in a.ptr && a.list[k + 1] in a.size
    ensures var r := JoinIf(a, k);
      && Sound(base, r) && UntouchedBut(r, j, j) && k < |r.list| && (j == k ==> !Touching(r.list, r.size, j))
      && r.list[..k + 1] == a.list[..k + 1]
      && r.live == a.live && r.cover.Keys == a.cover.Keys
      && a.list[k] in r.size && a.list[k] in a.size && r.size[a.list[k]] >= a.size[a.list[k]]
  {
    if Touching(a.list, a.size, k) {
      Joined(base, a, k);
      JoinedShape(base, a, k);
      JoinedGaps(base, a, k, j);
      hide Sound, Join, UntouchedBut;
    }
  }

  lemma JoinedShape(base: nat, a: Arena, k: nat)
    requires Sound(base, a) && Touching(a.list, a.size, k) && a.list[k + 1] in a.ptr
    ensures var r := Join(a, k);
      && k < |r.list| && r.list[..k + 1] == a.list[..k + 1] && r.live == a.live && r.cover.Keys == a.cover.Keys
      && a.list[k] in r.size && r.size[a.list[k]] >= a.size[a.list[k]]
  {
    hide Ringed, Tiled, Precedes;
    var r := Join(a, k);
    assert r.cover.Keys == a.cover.Keys;
    assert r.list[..k + 1] == a.list[..k + 1];
  }

  lemma JoinedGaps(base: nat, a: Arena, k: nat, j: nat)
    requires Sound(base, a) && Touching(a.list, a.size, k) && a.list[k + 1] in a.ptr && j <= k && UntouchedBut(a, k, j)
    ensures UntouchedBut(Join(a, k), j, j) && (j == k ==> !Touching(Join(a, k).list, Join(a, k).size, j))
  {
    var r := Join(a, k);
    OrderedDistinct(base, a.list, a.size);
    hide Ringed, Tiled, Ordered;
    forall i | 0 <= i < |r.list| && (i != j || j == k)
      ensures !Touching(r.list, r.size, i)
    {
      assert !Touching(a.list, a.size, if i < k then i else i + 1);
    }
  }

  /** The header fields after `b` has been put between `p` and `nx`. */
  function FreedMaps(ptr: map<nat, nat>, size: map<nat, nat>, p: nat, b: nat,
                     nx: nat): (r: (map<nat, nat>, map<nat, nat>))
    requires b in size && p in size && nx in size && nx in ptr && p != b
  {
    var up := b + size[b] == nx;
    var size1 := if up then size[b := size[b] + size[nx]] else size;
    var ptr1 := ptr[b := if up then ptr[nx] else nx];
    if p + size1[p] == b then (ptr1[p := ptr1[b]], size1[p := size1[p] + size1[b]]) else (ptr1[p := b], size1)
  }

  lemma FreedInsert(base: nat, a: Arena, b: nat, j: nat)
    requires Ok(base, a) && b in a.live && Place(a.list, b, j)
    ensures Sound(base, Insert(a, b, j)) && UntouchedBut(Insert(a, b, j), j + 1, j)
  {
    Inserted(base, a, b, j);
    hide Sound;
    var a1 := Insert(a, b, j);
    forall i | 0 <= i < |a1.list| && i != j && i != j + 1
      ensures !Touching(a1.list, a1.size, i)
    {
      assert !Touching(a.list, a.size, if i < j then i else i - 1);
    }
  }

  /** The two joins write the header fields as `FreedMaps` says. */
  lemma FreedSame(a: Arena, b: nat, j: nat, a2: Arena, r: Arena)
    requires j < |a.list| && b in a.size && a.list[j] in a.size && b != a.list[j]
    requires var nx := a.list[After(a.list, j)];
      nx in a.size && nx in a.ptr && (j + 1 == |a.list| ==> nx < b) && nx != b
    requires j + 1 < |a.list| ==> a.list[j] != a.list[j + 1]
    requires a2 == JoinIf(Insert(a, b, j), j + 1) && j + 1 < |a2.list| && a2.list[j] == a.list[j] && a2.list[j + 1] == b
    requires b in a2.ptr && b in a2.size && r == JoinIf(a2, j)
    ensures (r.ptr, r.size) == FreedMaps(a.ptr, a.size, a.list[j], b, a.list[After(a.list, j)])
  {
    var (p, nx) := (a.list[j], a.list[After(a.list, j)]);
    var up := b + a.size[b] == nx;
    assert Touching(Insert(a, b, j).list, a.size, j + 1) == up;
    assert a2.size == if up then a.size[b := a.size[b] + a.size[nx]] else a.size;
    assert a2.ptr == a.ptr[b := if up then a.ptr[nx] else nx][p := b];
    assert Touching(a2.list, a2.size, j) == (p + a2.size[p] == b);
    assert r.ptr == FreedMaps(a.ptr, a.size, p, b, nx).0;
  }

  lemma Freed(base: nat, a: Arena, b: nat, j: nat) returns (r: Arena)
    requires Ok(base, a) && b in a.live && Place(a.list, b, j)
    ensures Ok(base, r) && r.live == a.live - {b} && r.cover.Keys == a.cover.Keys && a.list[j] in r.list
    ensures var (p, nx) := (a.list[j], a.list[After(a.list, j)]);
      && b in a.size && p in a.size && nx in a.size && nx in a.ptr && p != b
      && (r.ptr, r.size) == FreedMaps(a.ptr, a.size, p, b, nx)
  {
    hide FreedMaps, Tiled, Precedes;
    assert Link(a.list, a.ptr, j) && Link(a.list, a.ptr, After(a.list, j));
    OrderedDistinct(base, a.list, a.size);
    FreedInsert(base, a, b, j);
    var a1 := Insert(a, b, j);
    JoinedIf(base, a1, j + 1, j);
    var a2 := JoinIf(a1, j + 1);
    assert a2.list[j] == a2.list[..j + 2][j] == a1.list[..j + 2][j] == a.list[j];
    assert a2.list[j + 1] == a2.list[..j + 2][j + 1] == a1.list[..j + 2][j + 1] == b;
    assert Link(a2.list, a2.ptr, j + 1);
    JoinedIf(base, a2, j, j);
    r := JoinIf(a2, j);
    assert r.list[j] == r.list[..j + 1][j] == a2.list[..j + 1][j];
    FreedSame(a, b, j, a2, r);
  }
}
