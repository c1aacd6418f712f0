/** create, link and unlink in place on the inode table, with the searches through directory slots, each proved to do
    one step of the directory tree. */
module Sysfile {
  import opened Links

  class Directories {
    var t: Tree

    /** The slot of `name` in directory `d`, or the number of slots. */
    method DirLookup(d: nat, name: string) returns (k: nat)
      requires d < |t|
      ensures k == Lookup(t[d].ents, name, 0)
    {
      k := 0;
      while k < |t[d].ents|
        invariant 0 <= k <= |t[d].ents| && Lookup(t[d].ents, name, k) == Lookup(t[d].ents, name, 0)
      {
        if t[d].ents[k].inum != 0 && t[d].ents[k].name == name {
          return;
        }
        k := k + 1;
      }
    }

    /** Write a new entry; refused if the name is there. */
    method DirLink(d: nat, name: string, inum: nat) returns (ok: bool)
      requires d < |t|
      modifies this
      ensures ok == (Lookup(old(t)[d].ents, name, 0) == |old(t)[d].ents|)
      ensures t == if ok then old(t)[d := old(t)[d].(ents := Put(old(t)[d].ents, Dirent(inum, name)))] else old(t)
    {
      var at := DirLookup(d, name);
      if at < |t[d].ents| {
        return false;
      }
      var k := 0;
      while k < |t[d].ents| && t[d].ents[k].inum != 0
        invariant 0 <= k <= |t[d].ents| && FirstEmpty(t[d].ents, k) == FirstEmpty(t[d].ents, 0)
      {
        k := k + 1;
      }
      var e := Dirent(inum, name);
      t := t[d := t[d].(ents := if k < |t[d].ents| then t[d].ents[k := e] else t[d].ents + [e])];
      ok := true;
    }

    method IsDirEmpty(d: nat) returns (b: bool)
      requires d < |t|
      ensures b == Vacant(t[d].ents)
    {
      var k := 2;
      while k < |t[d].ents|
        invariant 2 <= k && forall j :: 2 <= j < k && j < |t[d].ents| ==> t[d].ents[j].inum == 0
      {
        if t[d].ents[k].inum != 0 {
          return false;
        }
        k := k + 1;
      }
      return true;
    }

    /** A new inode, with the first two entries if it is a directory; a panic if all inodes are in use. */
    method Ialloc(dp: nat, kind: Kind) returns (ok: bool, ip: nat)
      requires Linked(t, dp)
      modifies this
      ensures ok == (FirstFree(old(t), 1) < |old(t)|) && (!ok ==> t == old(t))
      ensures ok ==> ip == FirstFree(old(t), 1) != dp && ip < |t|
      ensures ok && kind != DIR ==> t == old(t)[ip := Node(kind, 1, [])]
      ensures ok && kind == DIR ==> t == old(t)[ip := Node(kind, 1, [Dirent(ip, "."), Dirent(dp, "..")])]
        [dp := old(t)[dp].(nlink := old(t)[dp].nlink + 1)]
    {
      ip := 1;
      while ip < |t| && t[ip].kind != FREE
        invariant 1 <= ip <= |t| && FirstFree(t, ip) == FirstFree(t, 1)
      {
        ip := ip + 1;
      }
      ok := ip < |t|;
      if !ok {
        return;
      }
      t := t[ip := Node(kind, 1, [])];
      if kind == DIR {
        hide Put, Lookup, FirstFree;
        Dots(Dirent(ip, "."), Dirent(dp, ".."));
        t := t[dp := t[dp].(nlink := t[dp].nlink + 1)];
        var dot := DirLink(ip, ".", ip);
        assert dot;
        var dotdot := DirLink(ip, "..", dp);
        assert dotdot;
      }
    }

    /** The inode number of the file, new or there already, or 0; a panic if it is not there and all inodes are in
        use. */
    method Create(dp: nat, name: string, kind: Kind) returns (r: nat, panicked: bool)
      requires Linked(t, dp) && kind != FREE
      modifies this
      ensures panicked == !Enabled(old(t), Links.Create(dp, name, kind))
      ensures t == if panicked then old(t) else Step(old(t), Links.Create(dp, name, kind))
      ensures panicked <==>
        Find(old(t)[dp].ents, name) == 0 && forall i :: 0 < i < |old(t)| ==> old(t)[i].kind != FREE
      ensures r != 0 <==> !panicked && (Find(old(t)[dp].ents, name) == 0 || Opens(old(t), dp, name, kind))
      ensures r != 0 ==> r < |t| && t[r].kind == kind && Find(t[dp].ents, name) == r
      ensures if r != 0 && Find(old(t)[dp].ents, name) == 0 then Created(old(t), t, dp, name, kind, r) else t == old(t)
    {
      hide Put, Lookup, FirstEmpty, FirstFree, Find, Created;
      panicked := false;
      NameFound(t, dp, name);
      var k := DirLookup(dp, name);
      if k < |t[dp].ents| {
        r := t[dp].ents[k].inum;
        if r < |t| && kind == FILE && t[r].kind == FILE {
          return;
        }
        return 0, false;
      }
      var ok;
      ok, r := Ialloc(dp, kind);
      if !ok {
        return 0, true;
      }
      assert t[dp].ents == old(t)[dp].ents;
      ok := DirLink(dp, name, r);
      assert ok;
      CreatedBy(old(t), t, dp, name, kind, r);
    }

    method Link(ip: nat, dp: nat, name: string) returns (ok: bool)
      requires Enabled(t, Links.Link(ip, dp, name))
      modifies this
      ensures t == Step(old(t), Links.Link(ip, dp, name))
      ensures ok <==> old(t)[ip].kind != DIR && Find(old(t)[dp].ents, name) == 0
      ensures if ok then Entered(old(t), t, ip, dp, name) else t == old(t)
    {
      hide Put, Lookup;
      NameFound(t, dp, name);
      if Find(t[dp].ents, name) == 0 {
        PutFinds(t[dp].ents, Dirent(ip, name));
      }
      if t[ip].kind == DIR {
        return false;
      }
      t := t[ip := t[ip].(nlink := t[ip].nlink + 1)];
      ok := DirLink(dp, name, ip);
      if !ok {
        t := t[ip := t[ip].(nlink := t[ip].nlink - 1)];
      }
    }

    /** With a tree as it should be, there is always a link to take away. */
    method Unlink(dp: nat, name: string) returns (ok: bool)
      requires Enabled(t, Links.Unlink(dp, name)) && Good(t)
      modifies this
      ensures t == Step(old(t), Links.Unlink(dp, name)) && Good(t)
      ensures ok <==> name != "." && name != ".." && Removable(old(t), Find(old(t)[dp].ents, name))
      ensures if ok then Removed(old(t), t, dp, name) else t == old(t)
    {
      hide Good, Lookup;
      NameFound(t, dp, name);
      StepKeeps(t, Links.Unlink(dp, name));
      if name == "." || name == ".." {
        return false;
      }
      var k := DirLookup(dp, name);
      if k == |t[dp].ents| {
        return false;
      }
      var ip := t[dp].ents[k].inum;
      InTable(t, dp, k);
      if t[ip].kind == DIR {
        var empty := IsDirEmpty(ip);
        if !empty {
          return false;
        }
      }
      HasLink(t, dp, name);
      assert t[ip].nlink >= 1;
      EraseFinds(t[dp].ents, k);
      t := t[dp := t[dp].(ents := t[dp].ents[k := EMPTY])];
      if t[ip].kind == DIR {
        t := t[dp := t[dp].(nlink := t[dp].nlink - 1)];
      }
      t := t[ip := t[ip].(nlink := t[ip].nlink - 1)];
      ok := true;
    }
  }

  lemma NameFound(t: Tree, dp: nat, name: string)
    requires dp < |t|
    ensures var (k, n) := (Lookup(t[dp].ents, name, 0), Find(t[dp].ents, name));
      (n == 0 <==> k == |t[dp].ents|) && (k < |t[dp].ents| ==> n == t[dp].ents[k].inum && t[dp].ents[k].name == name)
  {
  }

  /** The name is that of a file, and a file was asked for. */
  predicate Opens(t: Tree, dp: nat, name: string, kind: Kind)
    requires dp < |t|
  {
    var n := Find(t[dp].ents, name);
    kind == FILE && 0 < n < |t| && t[n].kind == FILE
  }

  predicate Removable(t: Tree, n: nat) {
    0 < n < |t| && (t[n].kind == DIR ==> forall k :: 2 <= k < |t[n].ents| ==> t[n].ents[k].inum == 0)
  }

  /** Only the inodes `a` and `b` have changed. */
  predicate OnlyTwo(t: Tree, t': Tree, a: nat, b: nat) {
    |t'| == |t| && forall i :: 0 <= i < |t| && i != a && i != b ==> t'[i] == t[i]
  }

  /** A free inode has become a file or directory, and has the name. */
  ghost predicate Created(t: Tree, t': Tree, dp: nat, name: string, kind: Kind, ip: nat) {
    && OnlyTwo(t, t', dp, ip) && dp < |t| && 0 < ip < |t| && ip != dp && t[ip].kind == FREE
    && t'[ip] == Node(kind, 1, if kind == DIR then [Dirent(ip, "."), Dirent(dp, "..")] else [])
    && t'[dp] == t[dp].(nlink := t[dp].nlink + (if kind == DIR then 1 else 0), ents := t'[dp].ents)
    && Find(t'[dp].ents, name) == ip && OthersFound(t[dp].ents, t'[dp].ents, name)
  }

  /** Inode `ip` has the name, and one more link. */
  ghost predicate Entered(t: Tree, t': Tree, ip: nat, dp: nat, name: string) {
    && OnlyTwo(t, t', dp, ip) && dp < |t| && ip < |t| && ip != dp
    && t'[ip] == t[ip].(nlink := t[ip].nlink + 1) && t'[dp] == t[dp].(ents := t'[dp].ents)
    && Find(t'[dp].ents, name) == ip && OthersFound(t[dp].ents, t'[dp].ents, name)
  }

  /** The inode that had the name has one link less, and if it was the only entry of that name nothing has it now. */
  ghost predicate Removed(t: Tree, t': Tree, dp: nat, name: string)
    requires dp < |t|
  {
    var ip := Find(t[dp].ents, name);
    && OnlyTwo(t, t', dp, ip) && ip < |t| && ip != dp && t'[ip] == t[ip].(nlink := t[ip].nlink - 1)
    && t'[dp] == t[dp].(nlink := t[dp].nlink - (if t[ip].kind == DIR then 1 else 0), ents := t'[dp].ents)
    && (OneEach(t[dp].ents) ==> Find(t'[dp].ents, name) == 0) && OthersFound(t[dp].ents, t'[dp].ents, name)
  }

  lemma CreatedBy(t: Tree, t': Tree, dp: nat, name: string, kind: Kind, ip: nat)
    requires dp < |t| && 0 < ip < |t| && ip != dp && t[ip].kind == FREE && Find(t[dp].ents, name) == 0
    requires t' == t[ip := Node(kind, 1, if kind == DIR then [Dirent(ip, "."), Dirent(dp, "..")] else [])]
      [dp := t[dp].(nlink := t[dp].nlink + (if kind == DIR then 1 else 0), ents := Put(t[dp].ents, Dirent(ip, name)))]
    ensures Created(t, t', dp, name, kind, ip) && t'[ip].kind == kind && Find(t'[dp].ents, name) == ip
  {
    hide Put, Find;
    PutFinds(t[dp].ents, Dirent(ip, name));
  }

  lemma InTable(t: Tree, dp: nat, k: nat)
    requires Good(t) && Linked(t, dp) && k < |t[dp].ents| && t[dp].ents[k].inum != 0
    ensures t[dp].ents[k].inum < |t|
  {
    var at: map<nat, Place> :| Inv(t, at);
    assert DirOk(t, at, dp) && EntOk(t, at, dp, k, t[dp].ents[k].inum);
  }

  lemma HasLink(t: Tree, dp: nat, name: string)
    requires Good(t) && Linked(t, dp) && CanUnlink(t, dp, name)
    ensures var ip := t[dp].ents[Lookup(t[dp].ents, name, 0)].inum; ip != dp && t[ip].nlink >= 1
  {
    var at: map<nat, Place> :| Inv(t, at);
    UnlinkTarget(t, at, dp, name);
  }

  lemma Dots(a: Dirent, b: Dirent)
    requires a.inum != 0 && a.name != b.name
    ensures Put([], a) == [a] && Put([a], b) == [a, b]
    ensures Lookup([], a.name, 0) == 0 && Lookup([a], b.name, 0) == 1
  {
  }
}
