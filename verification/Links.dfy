/** Directories and link counts: what create, link and unlink do to the directory tree. Each system call is one step. */
module Links {
  import opened Runs

  const ROOT := 1

  datatype Kind = FREE | FILE | DIR | DEV

  /** Inode number 0 marks an empty slot. */
  datatype Dirent = Dirent(inum: nat, name: string)

  /** `ents` are the slots of a directory. */
  datatype Node = Node(kind: Kind, nlink: int, ents: seq<Dirent>)

  /** Indexed by inode number. */
  type Tree = seq<Node>

  const EMPTY := Dirent(0, "")

  // ---- directories as sequences of slots ----

  /** First slot in use from `i` on with that name, or the length. */
  function Lookup(ents: seq<Dirent>, name: string, i: nat): (k: nat)
    requires i <= |ents|
    ensures i <= k <= |ents| && (k < |ents| ==> ents[k].inum != 0 && ents[k].name == name)
    ensures forall j :: i <= j < k ==> ents[j].inum == 0 || ents[j].name != name
    decreases |ents| - i
  {
    if i == |ents| || (ents[i].inum != 0 && ents[i].name == name) then i else Lookup(ents, name, i + 1)
  }

  function FirstEmpty(ents: seq<Dirent>, i: nat): (k: nat)
    requires i <= |ents|
    ensures i <= k <= |ents| && (k < |ents| ==> ents[k].inum == 0)
    ensures forall j :: i <= j < k ==> ents[j].inum != 0
    decreases |ents| - i
  {
    if i == |ents| || ents[i].inum == 0 then i else FirstEmpty(ents, i + 1)
  }

  function FirstFree(t: Tree, i: nat): (n: nat)
    requires i <= |t|
    ensures i <= n <= |t| && (n < |t| ==> t[n].kind == FREE) && forall j :: i <= j < n ==> t[j].kind != FREE
    decreases |t| - i
  {
    if i == |t| || t[i].kind == FREE then i else FirstFree(t, i + 1)
  }

  /** The entry goes to the first empty slot, or to the end. */
  function Put(ents: seq<Dirent>, e: Dirent): (r: seq<Dirent>)
    ensures var i := FirstEmpty(ents, 0); |ents| <= |r| && i < |r| && r[i] == e
    ensures forall k :: 0 <= k < |ents| && k != FirstEmpty(ents, 0) ==> r[k] == ents[k]
    ensures |r| == if FirstEmpty(ents, 0) == |ents| then |ents| + 1 else |ents|
  {
    var i := FirstEmpty(ents, 0);
    if i == |ents| then ents + [e] else ents[i := e]
  }

  /** The inode that has the name, or 0. */
  function Find(ents: seq<Dirent>, name: string): (n: nat)
    ensures n == 0 <==> forall k :: 0 <= k < |ents| ==> ents[k].inum == 0 || ents[k].name != name
    ensures n != 0 ==> exists k :: 0 <= k < |ents| && ents[k] == Dirent(n, name)
  {
    var k := Lookup(ents, name, 0);
    if k < |ents| then ents[k].inum else 0
  }

  /** No two slots in use have the same name. */
  ghost predicate OneEach(ents: seq<Dirent>) {
    forall j, k :: 0 <= j < k < |ents| && ents[j].inum != 0 && ents[k].inum != 0 ==> ents[j].name != ents[k].name
  }

  /** All names but `name` name what they did. */
  ghost predicate OthersFound(ents: seq<Dirent>, ents': seq<Dirent>, name: string) {
    forall x :: x != name ==> Find(ents', x) == Find(ents, x)
  }

  lemma LookupAt(ents: seq<Dirent>, name: string, k: nat)
    requires k < |ents| && ents[k].inum != 0 && ents[k].name == name
    requires forall j :: 0 <= j < k ==> ents[j].inum == 0 || ents[j].name != name
    ensures Lookup(ents, name, 0) == k
  {
    var i := Lookup(ents, name, 0);
    assert i <= k;
  }

  /** A name is found as it was if its slots are as they were. */
  lemma FindSame(ents: seq<Dirent>, ents': seq<Dirent>, at: nat, x: string)
    requires |ents| <= |ents'| <= |ents| + 1 && at < |ents'| && (|ents'| > |ents| ==> at == |ents|)
    requires forall k :: 0 <= k < |ents| && k != at ==> ents'[k] == ents[k]
    requires ents'[at].inum == 0 || ents'[at].name != x
    requires at < |ents| ==> ents[at].inum == 0 || ents[at].name != x
    ensures Find(ents', x) == Find(ents, x)
  {
    var (i, j) := (Lookup(ents, x, 0), Lookup(ents', x, 0));
    if i < |ents| {
      LookupAt(ents', x, i);
    }
  }

  /** A new entry is found, and changes what no other name names. */
  lemma PutFinds(ents: seq<Dirent>, e: Dirent)
    requires e.inum != 0 && Find(ents, e.name) == 0
    ensures Find(Put(ents, e), e.name) == e.inum && OthersFound(ents, Put(ents, e), e.name)
    ensures OneEach(ents) ==> OneEach(Put(ents, e))
  {
    var (r, i) := (Put(ents, e), FirstEmpty(ents, 0));
    LookupAt(r, e.name, i);
    forall x | x != e.name
      ensures Find(r, x) == Find(ents, x)
    {
      FindSame(ents, r, i, x);
    }
  }

  /** An entry taken away is gone, if it was the only one of its name. */
  lemma EraseFinds(ents: seq<Dirent>, k: nat)
    requires k < |ents| && ents[k].inum != 0
    ensures OthersFound(ents, ents[k := EMPTY], ents[k].name)
    ensures OneEach(ents) ==> Find(ents[k := EMPTY], ents[k].name) == 0 && OneEach(ents[k := EMPTY])
  {
    var r := ents[k := EMPTY];
    forall x | x != ents[k].name
      ensures Find(r, x) == Find(ents, x)
    {
      FindSame(ents, r, k, x);
    }
  }

  /** Only the first two slots are in use. */
  predicate Vacant(ents: seq<Dirent>) {
    forall k :: 2 <= k < |ents| ==> ents[k].inum == 0
  }

  // ---- the system calls ----

  datatype Action =
    | Create(dp: nat, name: string, kind: Kind)
    | Link(ip: nat, dp: nat, name: string)
    | Unlink(dp: nat, name: string)
    | Drop(ip: nat)

  predicate Linked(t: Tree, d: nat) {
    d < |t| && t[d].kind == DIR && t[d].nlink > 0
  }

  /** The parent directory is still linked; a new inode is to be had; an inode to link to was found in the tree; an
      inode to be freed has no links. */
  predicate Enabled(t: Tree, a: Action) {
    match a
    case Create(dp, name, kind) =>
      Linked(t, dp) && kind != FREE && (Lookup(t[dp].ents, name, 0) == |t[dp].ents| ==> FirstFree(t, 1) < |t|)
    case Link(ip, dp, name) => Linked(t, dp) && 0 < ip < |t| && t[ip].kind != FREE && t[ip].nlink > 0
    case Unlink(dp, name) => Linked(t, dp)
    case Drop(ip) => 0 < ip < |t| && t[ip].nlink == 0
  }

  predicate CanUnlink(t: Tree, dp: nat, name: string)
    requires dp < |t|
  {
    var k := Lookup(t[dp].ents, name, 0);
    && name != "." && name != ".." && k < |t[dp].ents| && t[dp].ents[k].inum < |t|
    && (t[t[dp].ents[k].inum].kind == DIR ==> Vacant(t[t[dp].ents[k].inum].ents))
  }

  function Step(t: Tree, a: Action): (r: Tree)
    requires Enabled(t, a)
  {
    match a
    case Create(dp, name, kind) =>
      if Lookup(t[dp].ents, name, 0) < |t[dp].ents| then t
      else
        var ip := FirstFree(t, 1);
        var more := if kind == DIR then 1 else 0;
        var ents := if kind == DIR then [Dirent(ip, "."), Dirent(dp, "..")] else [];
        t[ip := Node(kind, 1, ents)]
         [dp := t[dp].(nlink := t[dp].nlink + more, ents := Put(t[dp].ents, Dirent(ip, name)))]
    case Link(ip, dp, name) =>
      if t[ip].kind == DIR || Lookup(t[dp].ents, name, 0) < |t[dp].ents| then t
      else t[ip := t[ip].(nlink := t[ip].nlink + 1)][dp := t[dp].(ents := Put(t[dp].ents, Dirent(ip, name)))]
    case Unlink(dp, name) =>
      if !CanUnlink(t, dp, name) then t
      else
        var k := Lookup(t[dp].ents, name, 0);
        var ip := t[dp].ents[k].inum;
        var less := if t[ip].kind == DIR then 1 else 0;
        var t1 := t[dp := t[dp].(nlink := t[dp].nlink - less, ents := t[dp].ents[k := EMPTY])];
        t1[ip := t1[ip].(nlink := t1[ip].nlink - 1)]
    case Drop(ip) => t[ip := Node(FREE, 0, [])]
  }

  ghost predicate Next(t: Tree, a: Action, t': Tree) {
    Enabled(t, a) && t' == Step(t, a)
  }

  /** A new file system: the root directory alone. */
  function Fresh(n: nat): (t: Tree)
    requires n > ROOT
  {
    seq(n, i => if i == ROOT then Node(DIR, 1, [Dirent(ROOT, "."), Dirent(ROOT, "..")]) else Node(FREE, 0, []))
  }

  ghost predicate Run(n: nat, tr: seq<Tree>, acts: seq<Action>)
    requires n > ROOT
  {
    IsRun(Next, tr, acts) && tr[0] == Fresh(n)
  }

  // ---- link counts and the tree ----

  /** Slot `k` of the linked directory `d` names `n`, other than as ".". */
  predicate Names(t: Tree, d: nat, k: nat, n: nat) {
    Linked(t, d) && k < |t[d].ents| && n != 0 && t[d].ents[k].inum == n && t[d].ents[k].name != "."
  }

  function Refs(t: Tree, n: nat): (r: set<(nat, nat)>) {
    set d: nat, k: nat | d < |t| && k < |t[d].ents| && Names(t, d, k, n) :: (d, k)
  }

  ghost predicate CountInv(t: Tree) {
    forall n :: 0 <= n < |t| ==> t[n].nlink == |Refs(t, n)|
  }

  function Parent(t: Tree, d: nat): (p: nat)
    requires d < |t|
  {
    if |t[d].ents| > 1 then t[d].ents[1].inum else 0
  }

  /** How far a directory is from the root, and its slot in its parent. */
  datatype Place = Place(depth: nat, slot: nat)

  /** A linked directory starts with itself and its parent, which is linked, nearer to the root, and has a slot for
      it. */
  ghost predicate DirOk(t: Tree, at: map<nat, Place>, d: nat) {
    Linked(t, d) ==>
      && d != 0 && |t[d].ents| >= 2 && t[d].ents[0] == Dirent(d, ".") && t[d].ents[1].name == ".."
      && d in at && Linked(t, Parent(t, d)) && Parent(t, d) in at
      && (if d == ROOT then Parent(t, d) == ROOT && at[d].depth == 0
          else at[d].depth == at[Parent(t, d)].depth + 1 && InSlot(t, Parent(t, d), at[d].slot, d))
  }

  predicate InSlot(t: Tree, d: nat, k: nat, n: nat) {
    d < |t| && 2 <= k < |t[d].ents| && t[d].ents[k].inum == n
  }

  /** Other slots name inodes in use, and a directory only from its slot in its parent. */
  ghost predicate EntOk(t: Tree, at: map<nat, Place>, d: nat, k: nat, n: nat) {
    Linked(t, d) && n != 0 && InSlot(t, d, k, n) ==>
      && n < |t| && t[n].kind != FREE && t[d].ents[k].name != "." && t[d].ents[k].name != ".."
      && (t[n].kind == DIR ==> n != ROOT && Parent(t, n) == d && n in at && at[n].slot == k)
  }

  ghost predicate TreeInv(t: Tree, at: map<nat, Place>) {
    && Linked(t, ROOT) && t[0] == Node(FREE, 0, [])
    && (forall n :: 0 <= n < |t| && t[n].kind != DIR ==> t[n].ents == [] && (t[n].kind == FREE ==> t[n].nlink == 0))
    && (forall d: nat :: DirOk(t, at, d))
    && (forall d: nat, k: nat, n: nat :: EntOk(t, at, d, k, n))
  }

  ghost predicate Inv(t: Tree, at: map<nat, Place>) {
    TreeInv(t, at) && CountInv(t)
  }

  // ---- one more name ----

  /** A name that is not there is neither "." nor "..", and the slot for it is after those. */
  lemma NewName(t: Tree, at: map<nat, Place>, dp: nat, name: string)
    requires TreeInv(t, at) && Linked(t, dp) && Lookup(t[dp].ents, name, 0) == |t[dp].ents|
    ensures name != "." && name != ".." && FirstEmpty(t[dp].ents, 0) >= 2
  {
    assert DirOk(t, at, dp);
    assert Linked(t, Parent(t, dp)) && DirOk(t, at, Parent(t, dp));
  }

  /** What create and link do: `dp` has a name for `ip` in slot `i`; `ip` is a directory only if it is new. */
  ghost predicate Named(t: Tree, t': Tree, dp: nat, i: nat, ip: nat) {
    && |t'| == |t| && Linked(t, dp) && Linked(t', dp) && 0 < ip < |t| && ip != dp
    && t[ip].kind != DIR
    && (t'[ip].kind == DIR ==> t'[ip].nlink > 0 && t'[ip].ents == [Dirent(ip, "."), Dirent(dp, "..")])
    && (t'[ip].kind != DIR ==> t'[ip].ents == [])
    && (forall d :: 0 <= d < |t| && d != dp && d != ip ==> t'[d] == t[d])
    && 2 <= i < |t'[dp].ents| && t'[dp].ents[i].inum == ip && t'[dp].ents[i].name != "." && t'[dp].ents[i].name != ".."
    && |t'[dp].ents| >= |t[dp].ents| && (i < |t[dp].ents| ==> t[dp].ents[i].inum == 0)
    && (forall k :: 0 <= k < |t'[dp].ents| && k != i ==> k < |t[dp].ents| && t'[dp].ents[k] == t[dp].ents[k])
  }

  /** The entry that names `ip`, or that of a new directory `ip` that names its parent. */
  predicate NewlyNames(t': Tree, dp: nat, i: nat, ip: nat, d: nat, k: nat, n: nat) {
    ip < |t'| && (((d, k) == (dp, i) && n == ip) || (t'[ip].kind == DIR && (d, k) == (ip, 1) && n == dp && n != 0))
  }

  lemma NamedNames(t: Tree, t': Tree, dp: nat, i: nat, ip: nat, d: nat, k: nat, n: nat)
    requires Named(t, t', dp, i, ip)
    ensures Names(t', d, k, n)
      <==> Names(t, d, k, n) || NewlyNames(t', dp, i, ip, d, k, n)
  {
  }

  lemma NamedRefs(t: Tree, t': Tree, dp: nat, i: nat, ip: nat, n: nat)
    requires Named(t, t', dp, i, ip)
    ensures Refs(t', n) == Refs(t, n) + (if n == ip then {(dp, i)} else {})
      + (if t'[ip].kind == DIR && n == dp && n != 0 then {(ip, 1)} else {})
    ensures (dp, i) !in Refs(t, n) && (ip, 1) !in Refs(t, n)
  {
    forall d: nat, k: nat
      ensures Names(t', d, k, n)
        <==> Names(t, d, k, n) || NewlyNames(t', dp, i, ip, d, k, n)
    {
      NamedNames(t, t', dp, i, ip, d, k, n);
    }
    hide Named;
  }

  /** The counts follow. */
  lemma NamedCount(t: Tree, t': Tree, dp: nat, i: nat, ip: nat)
    requires CountInv(t) && Named(t, t', dp, i, ip) && dp != 0
    requires t'[ip].nlink == t[ip].nlink + 1 && t'[dp].nlink == t[dp].nlink + if t'[ip].kind == DIR then 1 else 0
    ensures CountInv(t')
  {
    hide Refs;
    forall n | 0 <= n < |t'|
      ensures t'[n].nlink == |Refs(t', n)|
    {
      NamedRefs(t, t', dp, i, ip, n);
      assert t[n].nlink == |Refs(t, n)|;
      More(Refs(t, n), (dp, i));
      More(Refs(t, n), (ip, 1));
    }
  }

  lemma More(r: set<(nat, nat)>, x: (nat, nat))
    requires x !in r
    ensures |r + {x}| == |r| + 1
  {
  }

  /** And so does the tree. */
  lemma NamedTree(t: Tree, t': Tree, at: map<nat, Place>, dp: nat, i: nat, ip: nat) returns (at': map<nat, Place>)
    requires TreeInv(t, at) && Named(t, t', dp, i, ip) && t'[ip].kind != FREE
    requires (t[ip].kind != FREE ==> t'[ip].kind == t[ip].kind)
    ensures TreeInv(t', at')
  {
    assert DirOk(t, at, dp);
    at' := if t'[ip].kind == DIR then at[ip := Place(at[dp].depth + 1, i)] else at;
    forall d: nat
      ensures DirOk(t', at', d)
    {
      assert DirOk(t, at, d);
    }
    forall d: nat, k: nat, n: nat
      ensures EntOk(t', at', d, k, n)
    {
      assert EntOk(t, at, d, k, n);
    }
  }

  // ---- one name less ----

  /** What unlink does: slot `k` of `dp`, which named `ip`, is empty; a directory that loses its name has nothing else
      in it and is no longer linked. */
  ghost predicate Unnamed(t: Tree, t': Tree, dp: nat, k: nat, ip: nat) {
    && |t'| == |t| && Linked(t, dp) && Linked(t', dp) && 0 < ip < |t| && ip != dp && dp != 0
    && 2 <= k < |t[dp].ents| && t[dp].ents[k].inum == ip && t[dp].ents[k].name != "."
    && t'[dp].ents == t[dp].ents[k := EMPTY] && t'[ip] == t[ip].(nlink := t[ip].nlink - 1)
    && t'[dp].nlink == t[dp].nlink - (if t[ip].kind == DIR then 1 else 0)
    && (forall d :: 0 <= d < |t| && d != dp && d != ip ==> t'[d] == t[d])
    && (if t[ip].kind == DIR then t[ip].nlink == 1 && EmptyIn(t[ip].ents, ip, dp) else t[ip].ents == [])
  }

  /** An empty directory `ip` with parent `dp`. */
  predicate EmptyIn(ents: seq<Dirent>, ip: nat, dp: nat) {
    |ents| >= 2 && ents[0] == Dirent(ip, ".") && ents[1] == Dirent(dp, "..") && Vacant(ents)
  }

  lemma UnnamedNames(t: Tree, t': Tree, dp: nat, k: nat, ip: nat, d: nat, j: nat, n: nat)
    requires Unnamed(t, t', dp, k, ip)
    ensures Names(t', d, j, n)
      <==> Names(t, d, j, n) && (d, j) != (dp, k) && !(t[ip].kind == DIR && (d, j) == (ip, 1))
    ensures Names(t, dp, k, ip) && (t[ip].kind == DIR ==> Names(t, ip, 1, dp))
  {
  }

  lemma UnnamedRefs(t: Tree, t': Tree, dp: nat, k: nat, ip: nat, n: nat)
    requires Unnamed(t, t', dp, k, ip)
    ensures Refs(t', n) == Refs(t, n) - {(dp, k)} - (if t[ip].kind == DIR then {(ip, 1)} else {})
    ensures (dp, k) in Refs(t, n) <==> n == ip
    ensures t[ip].kind == DIR ==> ((ip, 1) in Refs(t, n) <==> n == dp)
  {
    forall d: nat, j: nat
      ensures Names(t', d, j, n)
        <==> Names(t, d, j, n) && (d, j) != (dp, k) && !(t[ip].kind == DIR && (d, j) == (ip, 1))
    {
      UnnamedNames(t, t', dp, k, ip, d, j, n);
    }
    UnnamedNames(t, t', dp, k, ip, dp, k, n);
  }

  lemma UnnamedCount(t: Tree, t': Tree, dp: nat, k: nat, ip: nat)
    requires CountInv(t) && Unnamed(t, t', dp, k, ip)
    ensures CountInv(t')
  {
    hide Refs;
    forall n | 0 <= n < |t'|
      ensures t'[n].nlink == |Refs(t', n)|
    {
      UnnamedRefs(t, t', dp, k, ip, n);
      assert t[n].nlink == |Refs(t, n)|;
      Less(Refs(t, n), (dp, k));
      Less(Refs(t, n) - {(dp, k)}, (ip, 1));
    }
  }

  lemma Less(r: set<(nat, nat)>, x: (nat, nat))
    ensures |r - {x}| == |r| - if x in r then 1 else 0
  {
    if x !in r {
      assert r - {x} == r;
    }
  }

  lemma UnnamedTree(t: Tree, t': Tree, at: map<nat, Place>, dp: nat, k: nat, ip: nat)
    requires TreeInv(t, at) && Unnamed(t, t', dp, k, ip) && ip != ROOT && t[ip].kind != FREE
    ensures TreeInv(t', at)
  {
    forall d: nat
      ensures DirOk(t', at, d)
    {
      assert DirOk(t, at, d);
    }
    forall d: nat, j: nat, n: nat
      ensures EntOk(t', at, d, j, n)
    {
      assert EntOk(t, at, d, j, n);
    }
  }

  /** An empty directory has one name only. */
  lemma OneName(t: Tree, at: map<nat, Place>, dp: nat, k: nat, ip: nat)
    requires TreeInv(t, at) && Linked(t, dp) && 0 < ip < |t| && InSlot(t, dp, k, ip) && t[ip].kind == DIR
    requires Vacant(t[ip].ents)
    ensures Refs(t, ip) == {(dp, k)}
  {
    assert EntOk(t, at, dp, k, ip) && Names(t, dp, k, ip);
    forall d: nat, j: nat
      ensures Names(t, d, j, ip) ==> (d, j) == (dp, k)
    {
      assert DirOk(t, at, d) && EntOk(t, at, d, j, ip);
      assert 2 <= j && Names(t, d, j, ip) ==> InSlot(t, d, j, ip);
    }
  }

  /** A linked directory has a name besides those its children have for it. */
  lemma OwnName(t: Tree, at: map<nat, Place>, d: nat) returns (x: (nat, nat))
    requires TreeInv(t, at) && Linked(t, d)
    ensures x in Refs(t, d) && (x.1 == 1 ==> x.0 == ROOT == d)
  {
    assert DirOk(t, at, d);
    if d == ROOT {
      x := (ROOT, 1);
      assert Names(t, ROOT, 1, ROOT);
    } else {
      x := (Parent(t, d), at[d].slot);
      assert EntOk(t, at, x.0, x.1, d) && DirOk(t, at, x.0);
      assert Names(t, x.0, x.1, d);
    }
  }

  lemma EmptyDirectory(t: Tree, at: map<nat, Place>, dp: nat, k: nat, ip: nat)
    requires Inv(t, at) && Linked(t, dp) && 0 < ip < |t| && InSlot(t, dp, k, ip) && t[ip].kind == DIR
    requires Vacant(t[ip].ents)
    ensures ip != dp && ip != ROOT && t[ip].nlink == 1 && t[dp].nlink > 1 && EmptyIn(t[ip].ents, ip, dp)
  {
    OneName(t, at, dp, k, ip);
    var x := OwnName(t, at, dp);
    assert EntOk(t, at, dp, k, ip) && DirOk(t, at, dp);
    assert t[ip].nlink == |Refs(t, ip)| == 1;
    assert Linked(t, ip) && DirOk(t, at, ip);
    assert Names(t, ip, 1, dp);
    assert (ip, 1) in Refs(t, dp);
    TwoAtLeast(Refs(t, dp), x, (ip, 1));
  }

  lemma TwoAtLeast(r: set<(nat, nat)>, x: (nat, nat), y: (nat, nat))
    requires x in r && y in r && x != y
    ensures |r| >= 2
  {
    assert |r - {x}| > 0 by {
      assert y in r - {x};
    }
  }

  // ---- steps and runs ----

  ghost predicate Good(t: Tree) {
    exists at :: Inv(t, at)
  }

  lemma CreateKeeps(t: Tree, at: map<nat, Place>, dp: nat, name: string, kind: Kind)
    requires Inv(t, at) && Enabled(t, Create(dp, name, kind))
    ensures Good(Step(t, Create(dp, name, kind)))
  {
    var t' := Step(t, Create(dp, name, kind));
    if Lookup(t[dp].ents, name, 0) == |t[dp].ents| {
      NewName(t, at, dp, name);
      var (ip, i) := (FirstFree(t, 1), FirstEmpty(t[dp].ents, 0));
      assert DirOk(t, at, dp);
      assert Named(t, t', dp, i, ip);
      NamedCount(t, t', dp, i, ip);
      var at' := NamedTree(t, t', at, dp, i, ip);
      assert Inv(t', at');
    } else {
      assert Inv(t', at);
    }
  }

  lemma LinkKeeps(t: Tree, at: map<nat, Place>, ip: nat, dp: nat, name: string)
    requires Inv(t, at) && Enabled(t, Link(ip, dp, name))
    ensures Good(Step(t, Link(ip, dp, name)))
  {
    hide CountInv, TreeInv, Named;
    var t' := Step(t, Link(ip, dp, name));
    if t[ip].kind != DIR && Lookup(t[dp].ents, name, 0) == |t[dp].ents| {
      var i := FirstEmpty(t[dp].ents, 0);
      LinkDoes(t, at, ip, dp, name);
      NamedCount(t, t', dp, i, ip);
      var at' := NamedTree(t, t', at, dp, i, ip);
      assert Inv(t', at');
    } else {
      assert t' == t;
      assert Inv(t', at);
    }
  }

  lemma LinkDoes(t: Tree, at: map<nat, Place>, ip: nat, dp: nat, name: string)
    requires Inv(t, at) && Enabled(t, Link(ip, dp, name))
    requires t[ip].kind != DIR && Lookup(t[dp].ents, name, 0) == |t[dp].ents|
    ensures dp != 0 && Named(t, Step(t, Link(ip, dp, name)), dp, FirstEmpty(t[dp].ents, 0), ip)
  {
    NewName(t, at, dp, name);
    assert DirOk(t, at, dp);
  }

  /** What unlink removes is in use and has a link to lose. */
  lemma UnlinkTarget(t: Tree, at: map<nat, Place>, dp: nat, name: string)
    requires Inv(t, at) && Linked(t, dp) && CanUnlink(t, dp, name)
    ensures var k := Lookup(t[dp].ents, name, 0); var ip := t[dp].ents[k].inum;
      2 <= k && ip != dp && ip != ROOT && t[ip].kind != FREE && t[ip].nlink >= 1
  {
    var k := Lookup(t[dp].ents, name, 0);
    var ip := t[dp].ents[k].inum;
    assert DirOk(t, at, dp);
    assert Linked(t, Parent(t, dp)) && DirOk(t, at, Parent(t, dp));
    assert 2 <= k && InSlot(t, dp, k, ip) && EntOk(t, at, dp, k, ip);
    assert Names(t, dp, k, ip);
    assert (dp, k) in Refs(t, ip);
    if t[ip].kind == DIR {
      EmptyDirectory(t, at, dp, k, ip);
    }
  }

  lemma UnlinkEmpties(t: Tree, at: map<nat, Place>, dp: nat, k: nat, ip: nat)
    requires Inv(t, at) && Linked(t, dp) && 0 < ip < |t| && t[ip].kind != FREE
    requires k < |t[dp].ents| && t[dp].ents[k].inum == ip && 2 <= k && (t[ip].kind == DIR ==> Vacant(t[ip].ents))
    ensures dp != 0
    ensures if t[ip].kind == DIR then t[ip].nlink == 1 && t[dp].nlink > 1 && EmptyIn(t[ip].ents, ip, dp)
            else t[ip].ents == []
  {
    assert DirOk(t, at, dp) && DirOk(t, at, ip);
    if t[ip].kind == DIR {
      assert InSlot(t, dp, k, ip);
      EmptyDirectory(t, at, dp, k, ip);
    }
  }

  lemma UnlinkDoes(t: Tree, at: map<nat, Place>, dp: nat, name: string)
    requires Inv(t, at) && Linked(t, dp) && CanUnlink(t, dp, name)
    ensures var k := Lookup(t[dp].ents, name, 0); var ip := t[dp].ents[k].inum;
      Unnamed(t, Step(t, Unlink(dp, name)), dp, k, ip) && ip != ROOT && t[ip].kind != FREE
  {
    var k := Lookup(t[dp].ents, name, 0);
    var ip := t[dp].ents[k].inum;
    UnlinkTarget(t, at, dp, name);
    UnlinkEmpties(t, at, dp, k, ip);
    hide Inv, Lookup, Vacant;
  }

  lemma UnlinkKeeps(t: Tree, at: map<nat, Place>, dp: nat, name: string)
    requires Inv(t, at) && Enabled(t, Unlink(dp, name))
    ensures Good(Step(t, Unlink(dp, name)))
  {
    hide TreeInv, CountInv, Unnamed;
    var t' := Step(t, Unlink(dp, name));
    if CanUnlink(t, dp, name) {
      UnlinkDoes(t, at, dp, name);
      var k := Lookup(t[dp].ents, name, 0);
      UnnamedCount(t, t', dp, k, t[dp].ents[k].inum);
      UnnamedTree(t, t', at, dp, k, t[dp].ents[k].inum);
    }
    assert Inv(t', at);
  }

  lemma Unreferenced(t: Tree, ip: nat)
    requires CountInv(t) && ip < |t| && t[ip].nlink == 0
    ensures forall d: nat, k: nat :: !Names(t, d, k, ip)
  {
    assert Refs(t, ip) == {};
    forall d: nat, k: nat
      ensures !Names(t, d, k, ip)
    {
      assert Names(t, d, k, ip) ==> (d, k) in Refs(t, ip);
    }
  }

  lemma DropCount(t: Tree, ip: nat)
    requires CountInv(t) && 0 < ip < |t| && t[ip].nlink == 0
    ensures CountInv(t[ip := Node(FREE, 0, [])])
  {
    var t' := t[ip := Node(FREE, 0, [])];
    forall n | 0 <= n < |t'|
      ensures t'[n].nlink == |Refs(t', n)|
    {
      assert forall d: nat, k: nat :: Names(t', d, k, n) <==> Names(t, d, k, n);
      assert Refs(t', n) == Refs(t, n) && t[n].nlink == |Refs(t, n)|;
    }
  }

  lemma DropTree(t: Tree, at: map<nat, Place>, ip: nat)
    requires TreeInv(t, at) && 0 < ip < |t| && t[ip].nlink == 0 && forall d: nat, k: nat :: !Names(t, d, k, ip)
    ensures TreeInv(t[ip := Node(FREE, 0, [])], at)
  {
    var t' := t[ip := Node(FREE, 0, [])];
    forall d: nat
      ensures DirOk(t', at, d)
    {
      assert DirOk(t, at, d);
    }
    forall d: nat, k: nat, n: nat
      ensures EntOk(t', at, d, k, n)
    {
      assert EntOk(t, at, d, k, n) && !Names(t, d, k, ip);
    }
  }

  lemma DropKeeps(t: Tree, at: map<nat, Place>, ip: nat)
    requires Inv(t, at) && Enabled(t, Drop(ip))
    ensures Good(Step(t, Drop(ip)))
  {
    hide CountInv, TreeInv;
    DropCount(t, ip);
    Unreferenced(t, ip);
    DropTree(t, at, ip);
    assert Inv(Step(t, Drop(ip)), at);
  }

  lemma StepKeeps(t: Tree, a: Action)
    requires Good(t) && Enabled(t, a)
    ensures Good(Step(t, a))
  {
    hide Inv, Step;
    var at: map<nat, Place> :| Inv(t, at);
    match a
    case Create(dp, name, kind) => CreateKeeps(t, at, dp, name, kind);
    case Link(ip, dp, name) => LinkKeeps(t, at, ip, dp, name);
    case Unlink(dp, name) => UnlinkKeeps(t, at, dp, name);
    case Drop(ip) => DropKeeps(t, at, ip);
  }

  lemma FreshGood(n: nat)
    requires n > ROOT
    ensures Good(Fresh(n))
  {
    var (t, at) := (Fresh(n), map[ROOT := Place(0, 0)]);
    forall i | 0 <= i < |t|
      ensures t[i].nlink == |Refs(t, i)|
    {
      assert forall d: nat, k: nat :: Names(t, d, k, i) <==> i == ROOT && (d, k) == (ROOT, 1);
      assert Refs(t, i) == if i == ROOT then {(ROOT, 1)} else {};
    }
    assert Inv(t, at);
  }

  lemma RunGood(n: nat, tr: seq<Tree>, acts: seq<Action>, k: nat)
    requires n > ROOT && Run(n, tr, acts) && k <= |acts|
    ensures Good(tr[k])
  {
    FreshGood(n);
    assert Inductive(Next, Good) by {
      forall t: Tree, a: Action, t': Tree | Good(t) && Next(t, a, t')
        ensures Good(t')
      {
        StepKeeps(t, a);
      }
    }
    Invariant(Next, Good, tr, acts, k);
  }

  /** After every system call of every run, an inode's link count is the number of entries, other than ".", that name
      it in linked directories. */
  lemma LinkCounts(n: nat, tr: seq<Tree>, acts: seq<Action>, k: nat)
    requires n > ROOT && Run(n, tr, acts) && k <= |acts|
    ensures forall i :: 0 <= i < |tr[k]| ==> tr[k][i].nlink == |Refs(tr[k], i)|
  {
    RunGood(n, tr, acts, k);
  }

  /** `m` times "..". */
  function Up(t: Tree, d: nat, m: nat): (r: nat)
    requires d < |t|
    decreases m
  {
    if m == 0 || Parent(t, d) >= |t| then d else Up(t, Parent(t, d), m - 1)
  }

  lemma {:induction false} UpToRoot(t: Tree, at: map<nat, Place>, d: nat, m: nat)
    requires TreeInv(t, at) && Linked(t, d) && d in at && at[d].depth == m
    ensures Up(t, d, m) == ROOT
    decreases m
  {
    assert DirOk(t, at, d);
    if m > 0 {
      UpToRoot(t, at, Parent(t, d), m - 1);
    }
  }

  /** The linked directories are a tree: from each of them ".." leads to the root, and all but the root have one name,
      which is in their parent. */
  lemma DirectoryTree(n: nat, tr: seq<Tree>, acts: seq<Action>, k: nat, d: nat) returns (m: nat, slot: nat)
    requires n > ROOT && Run(n, tr, acts) && k <= |acts| && Linked(tr[k], d)
    ensures Up(tr[k], d, m) == ROOT && (m == 0 <==> d == ROOT)
    ensures forall p: nat, j: nat :: Linked(tr[k], p) && InSlot(tr[k], p, j, d) <==>
      d != ROOT && p == Parent(tr[k], d) && j == slot
  {
    RunGood(n, tr, acts, k);
    var t := tr[k];
    var at: map<nat, Place> :| Inv(t, at);
    assert DirOk(t, at, d);
    m, slot := at[d].depth, at[d].slot;
    UpToRoot(t, at, d, m);
    forall p: nat, j: nat
      ensures Linked(t, p) && InSlot(t, p, j, d) <==> d != ROOT && p == Parent(t, d) && j == slot
    {
      assert EntOk(t, at, p, j, d);
    }
  }

  // ---- names ----

  ghost predicate NamesInv(t: Tree) {
    forall d :: 0 <= d < |t| ==> OneEach(t[d].ents)
  }

  lemma NamesKept(t: Tree, a: Action)
    requires NamesInv(t) && Enabled(t, a)
    ensures NamesInv(Step(t, a))
  {
    hide Put, Lookup, OneEach;
    match a
    case Create(dp, name, kind) =>
      if Find(t[dp].ents, name) == 0 {
        PutFinds(t[dp].ents, Dirent(FirstFree(t, 1), name));
        DotsDiffer(FirstFree(t, 1), dp);
      }
    case Link(ip, dp, name) =>
      if Find(t[dp].ents, name) == 0 {
        PutFinds(t[dp].ents, Dirent(ip, name));
      }
    case Unlink(dp, name) =>
      if Find(t[dp].ents, name) != 0 {
        EraseFinds(t[dp].ents, Lookup(t[dp].ents, name, 0));
      }
    case Drop(ip) => DotsDiffer(0, 0);
  }

  lemma DotsDiffer(ip: nat, dp: nat)
    ensures OneEach([]) && OneEach([Dirent(ip, "."), Dirent(dp, "..")])
  {
  }

  /** In every run, no directory has two entries of the same name. */
  lemma {:induction false} NamesUnique(n: nat, tr: seq<Tree>, acts: seq<Action>, k: nat)
    requires n > ROOT && Run(n, tr, acts) && k <= |acts|
    ensures NamesInv(tr[k])
  {
    if k > 0 {
      NamesUnique(n, tr, acts, k - 1);
      assert Next(tr[k - 1], acts[k - 1], tr[k]);
      NamesKept(tr[k - 1], acts[k - 1]);
    }
  }
}
