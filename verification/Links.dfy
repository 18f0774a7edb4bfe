/** sysfile.c and fs.c: create, link, unlink and iput on the inode table. */
module Links {
  import opened Kinds
  import opened LinkSpec

  /** Slot `k` is the first in use with the name. */
  ghost predicate FoundAt(es: seq<Dirent>, name: Name, k: nat) {
    && k < |es| && es[k].inum != 0 && es[k].name == name
    && forall j :: 0 <= j < k && es[j].inum != 0 ==> es[j].name != name
  }

  /** Slot `k` of directory `d` has changed, or is new; of the other inodes only `i` may have. */
  ghost predicate OneSlot(t: Table, u: Table, d: nat, k: nat, i: nat) {
    && |u| == |t| && d < |t| && i < |t| && k < |u[d].entries|
    && (forall x :: 0 <= x < |t| && x != d && x != i ==> u[x] == t[x])
    && u[d].kind == t[d].kind && u[d].ref == t[d].ref
    && |u[d].entries| == (if k < |t[d].entries| then |t[d].entries| else k + 1)
    && (forall j :: 0 <= j < |t[d].entries| && j != k ==> u[d].entries[j] == t[d].entries[j])
  }

  /** Directory `d` has the name, in slot `k` and for inode `i`, and no other slot has changed. */
  ghost predicate Gained(t: Table, u: Table, d: nat, k: nat, i: nat, name: Name) {
    OneSlot(t, u, d, k, i) && FoundAt(u[d].entries, name, k) && u[d].entries[k].inum == i
  }

  /**
   * The name is gone from directory `d`, where it was in slot `k`; its inode has a link less, or is free if that was
   * the last one and nothing refers to it; a directory gone takes the link of its ".." with it.
   */
  ghost predicate Lost(t: Table, u: Table, d: nat, k: nat, name: Name) {
    && d < |t| && k < |t[d].entries|
    && var i := t[d].entries[k].inum;
    && OneSlot(t, u, d, k, i) && i != d && Absent(u[d].entries, name)
    && u[d].nlink == (if t[i].kind == Dir then t[d].nlink - 1 else t[d].nlink)
    && (u[i].kind == Free <==> t[i].nlink == 1 && t[i].ref == 0)
    && (u[i].kind != Free ==> u[i] == t[i].(nlink := t[i].nlink - 1))
  }

  datatype Created = Existing(inum: nat) | Refused | New(inum: nat) | NoInodes

  class Inodes {
    var t: Table

    /** The slot of the entry with the name, or -1. */
    method Dirlookup(d: nat, name: Name) returns (k: int)
      requires d < |t|
      ensures k == -1 <==> Absent(t[d].entries, name)
      ensures k != -1 ==> 0 <= k && FoundAt(t[d].entries, name, k)
    {
      var off := 0;
      while off < |t[d].entries|
        invariant off <= |t[d].entries|
        invariant forall j :: 0 <= j < off && t[d].entries[j].inum != 0 ==> t[d].entries[j].name != name
      {
        if t[d].entries[off].inum != 0 && t[d].entries[off].name == name {
          return off;
        }
        off := off + 1;
      }
      return -1;
    }

    /** Write a new entry into the first free slot of directory `d`, or at its end; -1 if the name is there. */
    method Dirlink(d: nat, name: Name, i: nat) returns (r: int, ghost k: nat)
      requires d < |t|
      modifies this
      ensures r == 0 || r == -1
      ensures r == -1 <==> !old(Absent(t[d].entries, name))
      ensures r == -1 ==> t == old(t)
      ensures r == 0 ==>
        && FreeSlot(old(t[d].entries), k)
        && t == old(t)[d := old(t[d]).(entries := Put(old(t[d].entries), k, Dirent(i, name)))]
    {
      var at := Dirlookup(d, name);
      if at != -1 {
        return -1, 0;
      }
      var off := 0;
      while off < |t[d].entries| && t[d].entries[off].inum != 0
        invariant off <= |t[d].entries|
        invariant forall j :: 0 <= j < off ==> t[d].entries[j].inum != 0
      {
        off := off + 1;
      }
      t := t[d := t[d].(entries := Put(t[d].entries, off, Dirent(i, name)))];
      return 0, off;
    }

    /** Is the directory empty except for "." and ".."? */
    method Isdirempty(d: nat) returns (empty: bool)
      requires d < |t|
      ensures empty <==> Empty(t, d)
    {
      var off := 2;
      while off < |t[d].entries|
        invariant 2 <= off
        invariant forall j: nat :: 2 <= j < off ==> At(t, d, j).inum == 0
      {
        if t[d].entries[off].inum != 0 {
          assert At(t, d, off).inum != 0;
          return false;
        }
        off := off + 1;
      }
      return true;
    }

    /** The first free inode becomes one of the given kind, with a reference for the caller. */
    method Ialloc(kind: Kind) returns (n: nat)
      modifies this
      ensures n == 0 ==> t == old(t) && forall i :: 0 < i < |t| ==> t[i].kind != Free
      ensures n != 0 ==> n < |old(t)| && old(t)[n].kind == Free && (forall i :: 0 < i < n ==> old(t)[i].kind != Free)
      ensures n != 0 ==> t == old(t)[n := Node(kind, 0, [], 1)]
    {
      var inum := 1;
      while inum < |t|
        invariant 1 <= inum && t == old(t)
        invariant forall i :: 0 < i < inum && i < |t| ==> t[i].kind != Free
      {
        if t[inum].kind == Free {
          t := t[inum := Node(kind, 0, [], 1)];
          return inum;
        }
        inum := inum + 1;
      }
      return 0;
    }

    /** Drop a reference; the last one to an inode without links frees it. */
    method Iput(i: nat)
      requires i < |t| && t[i].ref > 0
      modifies this
      ensures |t| == |old(t)| && forall j :: 0 <= j < |t| && j != i ==> t[j] == old(t)[j]
      ensures t[i] == var n := old(t)[i];
        if n.nlink == 0 && n.ref == 1 then Node(Free, 0, [], 0) else n.(ref := n.ref - 1)
      ensures old(Agree(t)) && i > 0 ==> Agree(t)
      ensures old(Agree(t)) && i > 0 && t[i].kind == Free && old(t)[i].kind != Free ==>
        forall d: nat, k: nat :: !Names(old(t), i, d, k)
    {
      if t[i].nlink == 0 && t[i].ref == 1 {
        t := t[i := t[i].(entries := [])];
        t := t[i := t[i].(kind := Free)];
      }
      t := t[i := t[i].(ref := t[i].ref - 1)];
      if old(Agree(t)) && i > 0 {
        if old(t[i].nlink == 0 && t[i].ref == 1) {
          FreedAgrees(old(t), t, i);
        } else {
          RefAgrees(old(t), t, i);
        }
      }
    }

    /**
     * Create the name `name` for the inode `i` in directory `d`. The count overflows with the 32768th name,
     * and a name in a directory that has lost its own does not count.
     */
    method Link(i: nat, d: nat, name: Name) returns (r: int, ghost k: nat)
      requires Agree(t) && 0 < i < |t| && t[i].kind != Free && IsDir(t, d)
      modifies this
      ensures r == 0 || r == -1
      ensures r == -1 <==> old(t[i].kind == Dir || !Absent(t[d].entries, name))
      ensures r == -1 ==> t == old(t)
      ensures r == 0 ==> FreeSlot(old(t[d].entries), k) && t == WithLink(old(t), d, k, i, name)
      ensures r == 0 ==> (Agree(t) <==> old(Linked(t, d) && t[i].nlink < SHORT_MAX))
      ensures r == 0 ==> Gained(old(t), t, d, k, i, name) && t[d].nlink == old(t)[d].nlink
      ensures r == 0 ==> t[i] == old(t)[i].(nlink := if old(t)[i].nlink == 32767 then -32768 else old(t)[i].nlink + 1)
    {
      hide Agree, Linked;
      ghost var was := t[i].nlink;
      ShortCount(t, i);
      if t[i].kind == Dir {
        return -1, 0;
      }
      t := t[i := t[i].(nlink := ToShort(t[i].nlink + 1))];
      r, k := Dirlink(d, name, i);
      if r < 0 {
        t := t[i := t[i].(nlink := ToShort(t[i].nlink - 1))];
        assert ToShort(ToShort(was + 1) - 1) == was;
        assert t == old(t);
        return -1, 0;
      }
      assert t == WithLink(old(t), d, k, i, name);
      LinkGains(old(t), d, k, i, name);
      LinkOutcome(old(t), d, k, i, name);
    }

    /** Remove the name from directory `d`, and the inode with its last name unless it is still referred to. */
    method Unlink(d: nat, name: Name) returns (r: int, panic: bool, ghost k: nat)
      requires Agree(t) && IsDir(t, d)
      modifies this
      ensures !panic && (r == 0 || r == -1)
      ensures r == 0 ==> old(Linked(t, d))
      ensures r == -1 <==> name == "." || name == ".." || old(Absent(t[d].entries, name))
                           || (exists j: nat ::
                                 FoundAt(old(t[d].entries), name, j) && FullDir(old(t), old(t[d].entries)[j].inum))
      ensures r == -1 ==> t == old(t)
      ensures r == 0 ==>
        FoundAt(old(t[d].entries), name, k) && Droppable(old(t), d, k) && t == Dropped(old(t), d, k) && Agree(t)
      ensures r == 0 ==> Lost(old(t), t, d, k, name)
    {
      hide Agree, Linked, Dirs, OneParent, Counts, Empty;
      panic := false;
      k := 0;
      if name == "." || name == ".." {
        return -1, false, 0;
      }
      var at := Dirlookup(d, name);
      if at == -1 {
        return -1, false, 0;
      }
      k := at;
      FoundLinked(t, d, k, name);
      FoundFacts(t, d, k, name);
      var i := t[d].entries[at].inum;
      t := t[i := t[i].(ref := t[i].ref + 1)];
      if t[i].nlink < 1 {
        return 0, true, k;
      }
      if t[i].kind == Dir {
        var empty := Isdirempty(i);
        RefEmpty(old(t), t, i);
        if !empty {
          Iput(i);
          assert t == old(t);
          assert FoundAt(old(t[d].entries), name, k) && FullDir(old(t), old(t[d].entries)[k].inum);
          return -1, false, k;
        }
      }
      if t[i].kind == Dir {
        NotItself(old(t), d, k);
      } else {
        NotFile(old(t), d, i);
      }
      OneFound(old(t[d].entries), name, k);
      DropOutcome(old(t), d, k);
      DropLoses(old(t), d, k, name);
      RemoveEntry(d, at, i, old(t));
      r := 0;
    }

    /** The second half of unlink, with a reference to `i` in hand since the table was `was`. */
    method RemoveEntry(d: nat, at: nat, i: nat, ghost was: Table)
      requires Droppable(was, d, at) && i == was[d].entries[at].inum && t == was[i := was[i].(ref := was[i].ref + 1)]
      modifies this
      ensures t == Dropped(was, d, at)
    {
      hide Agree, Empty;
      t := t[d := t[d].(entries := t[d].entries[at := Dirent(0, "")])];
      if t[i].kind == Dir {
        t := t[d := t[d].(nlink := ToShort(t[d].nlink - 1))];
      }
      t := t[i := t[i].(nlink := ToShort(t[i].nlink - 1))];
      Iput(i);
      assert t == Dropped(was, d, at);
    }

    /**
     * Create the name in directory `d` for a new inode of the given kind. In a directory that has lost its own name,
     * ".." may lead to an inode that is free by now, which is a panic, and a new inode breaks the counts.
     */
    method Create(d: nat, name: Name, kind: Kind) returns (c: Created, panic: bool, ghost k: nat)
      requires Agree(t) && IsDir(t, d) && kind != Free && (Linked(t, d) || Referenced(t))
      modifies this
      ensures panic <==> old(FoundAt(t[d].entries, name, k) && !InUse(t, t[d].entries[k].inum))
      ensures panic ==> old(!Linked(t, d))
      ensures c.Existing? || c.Refused? <==> !old(Absent(t[d].entries, name))
      ensures c.Existing? && !panic ==>
        && FoundAt(old(t[d].entries), name, k) && old(t[d].entries)[k].inum == c.inum < |old(t)|
        && kind == File == old(t)[c.inum].kind && t == old(t)[c.inum := old(t)[c.inum].(ref := old(t)[c.inum].ref + 1)]
      ensures (c.Refused? && !panic) || c.NoInodes? ==> t == old(t)
      ensures c.Refused? && !panic ==> kind != File || (FoundAt(old(t[d].entries), name, k)
                                               && old(t[d].entries)[k].inum < |old(t)|
                                                 && old(t)[old(t[d].entries)[k].inum].kind != File)
      ensures c.NoInodes? ==> forall i :: 0 < i < |t| ==> t[i].kind != Free
      ensures c.New? ==>
        FreeSlot(old(t[d].entries), k) && Vacant(old(t), d, c.inum) && t == WithNew(old(t), d, k, c.inum, name, kind)
      ensures c.New? ==> (Agree(t) <==> old(Linked(t, d)) && (kind == Dir ==> old(t[d].nlink) < SHORT_MAX))
      ensures c.New? ==>
        && Gained(old(t), t, d, k, c.inum, name) && t[c.inum].kind == kind && t[c.inum].nlink == t[c.inum].ref == 1
        && t[c.inum].entries == (if kind == Dir then [Dirent(c.inum, "."), Dirent(d, "..")] else [])
        && t[d].nlink == (if kind != Dir then old(t)[d].nlink
                          else if old(t)[d].nlink == 32767 then -32768 else old(t)[d].nlink + 1)
    {
      hide Agree, Linked, Dirs, OneParent, Counts, Referenced;
      panic, k := false, 0;
      var at := Dirlookup(d, name);
      if at != -1 {
        k := at;
        EntryFacts(t, d, k);
        var i := t[d].entries[at].inum;
        t := t[i := t[i].(ref := t[i].ref + 1)];
        if t[i].kind == Free {  // ilock finds no type
          return Refused, true, k;
        }
        if kind == File && t[i].kind == File {
          return Existing(i), false, k;
        }
        Iput(i);
        assert t == old(t);
        return Refused, false, k;
      }
      OnlyAbsent(t[d].entries, name, k);
      var n := Ialloc(kind);
      if n == 0 {
        return NoInodes, false, 0;
      }
      panic, k := Enter(d, name, kind, n, old(t));
      OnlyAbsent(old(t[d].entries), name, k);
      c := New(n);
      NewOutcome(old(t), d, k, n, name, kind);
      NewGains(old(t), d, k, n, name, kind);
    }

    /** The second half of create, with the inode `n` allocated since the table was `was`. */
    method Enter(d: nat, name: Name, kind: Kind, n: nat, ghost was: Table) returns (panic: bool, ghost k: nat)
      requires Vacant(was, d, n) && t == was[n := Node(kind, 0, [], 1)] && Absent(was[d].entries, name)
      modifies this
      ensures !panic && FreeSlot(was[d].entries, k) && t == WithNew(was, d, k, n, name, kind)
    {
      hide Absent, FreeSlot, Put;
      panic := false;
      t := t[n := t[n].(nlink := 1)];
      if kind == Dir {
        t := t[d := t[d].(nlink := ToShort(t[d].nlink + 1))];
        Dots(n, d);
      }
      var r;
      r, k := Dirlink(d, name, n);
      panic := r < 0;
      assert t == WithNew(was, d, k, n, name, kind);
    }

    /** "." and ".." in the new directory `n`. */
    method Dots(n: nat, d: nat)
      requires 0 < n < |t| && t[n].entries == []
      modifies this
      ensures t == old(t)[n := old(t)[n].(entries := [Dirent(n, "."), Dirent(d, "..")])]
    {
      var r, k := Dirlink(n, ".", n);
      assert t[n].entries == [Dirent(n, ".")];
      r, k := Dirlink(n, "..", d);
      assert t[n].entries == [Dirent(n, "."), Dirent(d, "..")];
    }
  }

  /** One more link for `i`, and its name in slot `k` of directory `d`. */
  function WithLink(t: Table, d: nat, k: nat, i: nat, name: Name): Table
    requires d < |t| && i < |t| && k <= |t[d].entries|
  {
    var u := t[i := t[i].(nlink := ToShort(t[i].nlink + 1))];
    u[d := u[d].(entries := Put(u[d].entries, k, Dirent(i, name)))]
  }

  lemma LinkGains(t: Table, d: nat, k: nat, i: nat, name: Name)
    requires Agree(t) && i < |t| && IsDir(t, d) && i != d && FreeSlot(t[d].entries, k) && Absent(t[d].entries, name)
    requires 0 < i && 0 <= t[i].nlink <= SHORT_MAX
    ensures var u := WithLink(t, d, k, i, name);
      && Gained(t, u, d, k, i, name) && u[d].nlink == t[d].nlink
      && u[i] == t[i].(nlink := if t[i].nlink == 32767 then -32768 else t[i].nlink + 1)
  {
    hide Agree;
  }

  /** A directory that is not empty. */
  ghost predicate FullDir(t: Table, i: nat) {
    IsDir(t, i) && !Empty(t, i)
  }

  lemma OneFound(es: seq<Dirent>, name: Name, k: nat)
    requires FoundAt(es, name, k)
    ensures forall j: nat :: FoundAt(es, name, j) ==> j == k
  {
  }

  lemma RefEmpty(t: Table, u: Table, i: nat)
    requires |u| == |t| && i < |t| && u[i].entries == t[i].entries
    ensures Empty(u, i) <==> Empty(t, i)
  {
    assert forall j: nat :: At(u, i, j) == At(t, i, j);
  }

  /** The entry found has an inode in use, with a link, and is not one of the first two. */
  lemma FoundFacts(t: Table, d: nat, k: nat, name: Name)
    requires Agree(t) && Linked(t, d) && FoundAt(t[d].entries, name, k) && name != "." && name != ".."
    ensures k >= 2
    ensures var i := t[d].entries[k].inum; 0 < i < |t| && t[i].kind != Free && 1 <= t[i].nlink <= SHORT_MAX
    ensures 1 <= t[d].nlink <= SHORT_MAX
  {
    assert At(t, d, 0) == Dirent(d, ".") && At(t, d, 1).name == "..";
    var i := At(t, d, k).inum;
    assert InUse(t, i);
    NamedSlot(t, d, k);
    NoLinks(t, i);
    assert d != 0;
  }

  /** Only a directory that is named itself holds names other than "." and "..". */
  lemma FoundLinked(t: Table, d: nat, k: nat, name: Name)
    requires Agree(t) && IsDir(t, d) && FoundAt(t[d].entries, name, k) && name != "." && name != ".."
    ensures Linked(t, d)
  {
    assert At(t, d, k).inum != 0;
  }

  /** An empty directory is not its own parent. */
  lemma NotItself(t: Table, d: nat, k: nat)
    requires Agree(t) && Linked(t, d) && 2 <= k < |t[d].entries| && t[d].entries[k].inum != 0
    requires Empty(t, t[d].entries[k].inum)
    ensures t[d].entries[k].inum != d
  {
    assert At(t, d, k).inum != 0;
  }

  lemma NotFile(t: Table, d: nat, i: nat)
    requires Linked(t, d) && i < |t| && t[i].kind != Dir
    ensures i != d
  {
  }

  /** unlink applies to the entry in slot `k`. */
  ghost predicate Droppable(t: Table, d: nat, k: nat) {
    && d < |t| && 2 <= k < |t[d].entries|
    && 0 < t[d].entries[k].inum < |t| && t[d].entries[k].inum != d
    && 1 <= t[d].nlink <= SHORT_MAX && 1 <= t[t[d].entries[k].inum].nlink <= SHORT_MAX
    && t[t[d].entries[k].inum].kind != Free && (IsDir(t, t[d].entries[k].inum) ==> Empty(t, t[d].entries[k].inum))
  }

  /**
   * The entry goes, the inode loses a link, a directory's parent loses one too, and an inode
   * without links and references is freed.
   */
  ghost function Dropped(t: Table, d: nat, k: nat): Table
    requires Droppable(t, d, k)
  {
    var u := WithoutLink(t, d, k);
    var i := t[d].entries[k].inum;
    if u[i].nlink == 0 && u[i].ref == 0 then u[i := Node(Free, 0, [], 0)] else u
  }

  ghost function WithoutLink(t: Table, d: nat, k: nat): Table
    requires Droppable(t, d, k)
  {
    var i := t[d].entries[k].inum;
    var dn := t[d].(entries := t[d].entries[k := Dirent(0, "")],
      nlink := if t[i].kind == Dir then t[d].nlink - 1 else t[d].nlink);
    t[d := dn][i := t[i].(nlink := t[i].nlink - 1)]
  }

  lemma DropOutcome(t: Table, d: nat, k: nat)
    requires Agree(t) && Linked(t, d) && Droppable(t, d, k)
    ensures Agree(Dropped(t, d, k))
  {
    hide Dirs, OneParent, Counts, Empty;
    var i := t[d].entries[k].inum;
    var u := WithoutLink(t, d, k);
    if t[i].kind == Dir {
      UnmadeAgrees(t, u, d, k, i);
    } else {
      RemovedAgrees(t, u, d, k, i);
    }
    if u[i].nlink == 0 && u[i].ref == 0 {
      FreedAgrees(u, Dropped(t, d, k), i);
    }
  }

  lemma DropLoses(t: Table, d: nat, k: nat, name: Name)
    requires Agree(t) && Linked(t, d) && Droppable(t, d, k) && FoundAt(t[d].entries, name, k)
    ensures Lost(t, Dropped(t, d, k), d, k, name)
  {
    hide OneParent, Counts, Hollow, Empty;
    var es := t[d].entries;
    forall j | 0 <= j < |es| && j != k && es[j].inum != 0
      ensures es[j].name != name
    {
      assert At(t, d, j) == es[j] && At(t, d, k) == es[k];
    }
  }

  /** unlink takes away the one name of the inode in that slot, and from its directory the name of a ".." with it. */
  lemma DropLinks(t: Table, d: nat, k: nat, x: nat)
    requires Agree(t) && Linked(t, d) && Droppable(t, d, k) && 0 < x < |t|
    ensures var i := t[d].entries[k].inum;
      Links(Dropped(t, d, k), x) ==
      if x == i then Links(t, i) - {(d, k)}
      else if x == d && t[i].kind == Dir then Links(t, d) - {(i, 1)}
      else Links(t, x)
  {
    hide Dirs, OneParent, Counts, Empty, LinkSpec.Links;
    var i := t[d].entries[k].inum;
    var u := WithoutLink(t, d, k);
    if t[i].kind == Dir {
      UnmadeLinks(t, u, d, k, i, x);
      UnmadeAgrees(t, u, d, k, i);
    } else {
      RemovedLinks(t, u, d, k, i, x);
    }
    if u[i].nlink == 0 && u[i].ref == 0 {
      FreedLinks(u, Dropped(t, d, k), i, x);
    }
  }

  predicate Vacant(t: Table, d: nat, n: nat) {
    d < |t| && 0 < n < |t| && n != d && t[n].kind == Free
  }

  /** A new inode `n`, with "." and ".." if it is a directory, and its name in slot `k` of directory `d`. */
  function WithNew(t: Table, d: nat, k: nat, n: nat, name: Name, kind: Kind): Table
    requires Vacant(t, d, n) && k <= |t[d].entries|
  {
    var es := if kind == Dir then [Dirent(n, "."), Dirent(d, "..")] else [];
    var links := if kind == Dir then ToShort(t[d].nlink + 1) else t[d].nlink;
    t[n := Node(kind, 1, es, 1)][d := t[d].(entries := Put(t[d].entries, k, Dirent(n, name)), nlink := links)]
  }

  lemma NewGains(t: Table, d: nat, k: nat, n: nat, name: Name, kind: Kind)
    requires Agree(t) && IsDir(t, d) && Vacant(t, d, n)
    requires FreeSlot(t[d].entries, k) && Absent(t[d].entries, name)
    ensures var u := WithNew(t, d, k, n, name, kind);
      && Gained(t, u, d, k, n, name) && u[n].kind == kind && u[n].nlink == u[n].ref == 1
      && u[n].entries == (if kind == Dir then [Dirent(n, "."), Dirent(d, "..")] else [])
      && u[d].nlink == (if kind != Dir then t[d].nlink
                        else if t[d].nlink == 32767 then -32768 else t[d].nlink + 1)
  {
    hide Agree;
    DirShort(t, d);
  }

  lemma DirShort(t: Table, d: nat)
    requires Agree(t) && IsDir(t, d)
    ensures 0 <= t[d].nlink <= SHORT_MAX
  {
    assert InUse(t, d);
    ShortCount(t, d);
  }

  /** An entry of a linked directory has an inode in use, with a link. */
  lemma LookedUp(t: Table, d: nat, k: nat)
    requires Agree(t) && Linked(t, d) && k < |t[d].entries| && t[d].entries[k].inum != 0
    ensures t[d].entries[k].inum < |t| && t[t[d].entries[k].inum].nlink > 0
  {
    var i := At(t, d, k).inum;
    assert InUse(t, i);
    if k >= 1 {
      NamedSlot(t, d, k);
      NoLinks(t, i);
    } else {
      assert At(t, d, 0) == Dirent(d, ".");
    }
  }

  /** Nothing is found under a name that is absent. */
  lemma OnlyAbsent(es: seq<Dirent>, name: Name, k: nat)
    requires Absent(es, name)
    ensures !FoundAt(es, name, k)
  {
  }

  /** An entry of a directory is of an inode of the table; if the directory has a name, so has the inode. */
  lemma EntryFacts(t: Table, d: nat, k: nat)
    requires Agree(t) && IsDir(t, d) && (Linked(t, d) || Referenced(t)) && k < |t[d].entries|
      && t[d].entries[k].inum != 0
    ensures var i := t[d].entries[k].inum;
      && i < |t|
      && (t[i].nlink == 0 && t[i].kind != Free ==> t[i].ref > 0)
      && (Linked(t, d) ==> t[i].kind != Free) && (InUse(t, i) <==> t[i].kind != Free)
  {
    var i := At(t, d, k).inum;
    if Linked(t, d) {
      LookedUp(t, d, k);
      assert InUse(t, i);
    }
  }

  /**
   * A new inode keeps the counts right exactly when its directory is named itself and the directory's count has room.
   */
  lemma NewOutcome(t: Table, d: nat, k: nat, n: nat, name: Name, kind: Kind)
    requires Agree(t) && IsDir(t, d) && kind != Free && Vacant(t, d, n)
    requires FreeSlot(t[d].entries, k) && Absent(t[d].entries, name)
    ensures Agree(WithNew(t, d, k, n, name, kind)) <==> Linked(t, d) && (kind == Dir ==> t[d].nlink < SHORT_MAX)
  {
    hide Dirs, OneParent, Links;
    if !Linked(t, d) {
      UnlinkedDirectory(t, d, k, n, name, kind);
      return;
    }
    var u := WithNew(t, d, k, n, name, kind);
    FreeCount(t, n);
    DirCount(t, d);
    if kind != Dir {
      var v := t[n := t[n].(entries := [])];
      SpareAgrees(t, v, n);
      NamedAgrees(v, u, d, k, n, name);
    } else if t[d].nlink < SHORT_MAX {
      MadeAgrees(t, u, d, k, n, name);
    } else {
      assert u[d].nlink < 0;
    }
  }

  lemma FreeCount(t: Table, n: nat)
    requires Agree(t) && n < |t| && t[n].kind == Free
    ensures t[n].nlink == 0
  {
  }

  lemma DirCount(t: Table, d: nat)
    requires Agree(t) && Linked(t, d)
    ensures 0 < d < |t| && 1 <= t[d].nlink <= SHORT_MAX
  {
    DirNotZero(t);
  }

  /** What a free inode holds does not matter. */
  lemma SpareAgrees(t: Table, v: Table, n: nat)
    requires Agree(t) && 0 < n < |t| && t[n].kind == Free && v == t[n := t[n].(entries := [])]
    ensures Agree(v)
  {
    FreedAgrees(t, v, n);
  }

  /** Nothing created in a directory that has lost its name keeps the counts right. */
  lemma UnlinkedDirectory(t: Table, d: nat, k: nat, n: nat, name: Name, kind: Kind)
    requires Agree(t) && IsDir(t, d) && !Linked(t, d) && Vacant(t, d, n) && k <= |t[d].entries| && kind != Free
    ensures !Agree(WithNew(t, d, k, n, name, kind))
  {
    hide Dirs, OneParent;
    var u := WithNew(t, d, k, n, name, kind);
    if kind == Dir {
      NoHome(t, d, k, n, name);
    } else {
      StillUnnamed(t, d, k, n, name, kind);
      if Counts(u) {
        NoLinks(u, n);
      }
    }
  }

  /** The only name is in a directory that is not linked, which does not count. */
  lemma StillUnnamed(t: Table, d: nat, k: nat, n: nat, name: Name, kind: Kind)
    requires Agree(t) && IsDir(t, d) && !Linked(t, d) && Vacant(t, d, n) && k <= |t[d].entries| && kind != Free
      && kind != Dir
    ensures forall x: nat, j: nat :: !Names(WithNew(t, d, k, n, name, kind), n, x, j)
  {
    hide Dirs, OneParent, Links;
    FreeUnnamed(t, n);
    var u := WithNew(t, d, k, n, name, kind);
    forall x: nat, j: nat
      ensures !Names(u, n, x, j)
    {
      assert !Names(t, n, x, j);
    }
  }

  /** A directory made in `d` gives `d` a link, and so makes it one that its parent does not name. */
  lemma NoHome(t: Table, d: nat, k: nat, n: nat, name: Name)
    requires Agree(t) && IsDir(t, d) && !Linked(t, d) && Vacant(t, d, n) && k <= |t[d].entries|
    ensures !Agree(WithNew(t, d, k, n, name, Dir))
  {
    var u := WithNew(t, d, k, n, name, Dir);
    UnlinkedCount(t, d);
    assert Linked(u, d) && d != ROOTINO;
    if Agree(u) {
      assert HasHome(u, d);
      var j: nat :| j >= 2 && Names(u, d, Parent(u, d), j);
      NotNamed(t, d, k, n, name, Parent(u, d), j);
    }
  }

  lemma UnlinkedCount(t: Table, d: nat)
    requires Agree(t) && IsDir(t, d) && !Linked(t, d)
    ensures d > 0 && t[d].nlink == 0 && forall x: nat, j: nat :: !Names(t, d, x, j)
  {
    assert InUse(t, d);
    NoLinks(t, d);
  }

  lemma NotNamed(t: Table, d: nat, k: nat, n: nat, name: Name, x: nat, j: nat)
    requires Agree(t) && IsDir(t, d) && !Linked(t, d) && Vacant(t, d, n) && k <= |t[d].entries|
    requires Dirs(WithNew(t, d, k, n, name, Dir)) && j >= 2
    ensures x == Parent(WithNew(t, d, k, n, name, Dir), d) ==> !Names(WithNew(t, d, k, n, name, Dir), d, x, j)
  {
    hide Counts, OneParent, Links;
    var u := WithNew(t, d, k, n, name, Dir);
    UnlinkedCount(t, d);
    assert Linked(u, d);
    assert At(u, d, 0) == Dirent(d, ".") && At(u, d, 1).name == "..";
    if x != d && x != n {
      assert At(u, x, j) == At(t, x, j) && !Names(t, d, x, j);
    } else if x == d {
      assert j != k ==> At(u, d, j) == At(t, d, j);
    }
  }

  lemma LinkedInTable(t: Table, d: nat)
    requires Linked(t, d)
    ensures d < |t| && t[d].kind == Dir
  {
  }

  lemma ShortCount(t: Table, i: nat)
    requires Agree(t) && 0 < i < |t|
    ensures 0 <= t[i].nlink <= SHORT_MAX
  {
  }

  /** A name in a directory that nothing names does not count, but the count goes up. */
  lemma LinkUncounted(t: Table, d: nat, k: nat, i: nat, name: Name)
    requires Agree(t) && 0 < i < |t| && t[i].kind != Free && t[i].kind != Dir && IsDir(t, d) && !Linked(t, d)
    requires k <= |t[d].entries|
    ensures !Agree(WithLink(t, d, k, i, name))
  {
    hide Dirs, OneParent, Hollow, Links, Names;
    var u := WithLink(t, d, k, i, name);
    SameNames(t, d, k, i, name);
    LinksAre(t, i);
    LinksAre(u, i);
    assert Links(u, i) == Links(t, i);
    ShortCount(t, i);
    assert u[i].nlink != t[i].nlink;
  }

  lemma SameNames(t: Table, d: nat, k: nat, i: nat, name: Name)
    requires 0 < i < |t| && t[i].kind != Dir && IsDir(t, d) && !Linked(t, d) && k <= |t[d].entries|
    ensures forall x: nat, j: nat :: Names(WithLink(t, d, k, i, name), i, x, j) <==> Names(t, i, x, j)
  {
    var u := WithLink(t, d, k, i, name);
    assert forall x: nat :: Linked(u, x) <==> Linked(t, x);
    assert forall x: nat, j: nat :: x != d ==> At(u, x, j) == At(t, x, j);
  }

  /** A new name keeps the counts right exactly when its directory is named itself and the count has room. */
  lemma LinkOutcome(t: Table, d: nat, k: nat, i: nat, name: Name)
    requires Agree(t) && 0 < i < |t| && t[i].kind != Free && t[i].kind != Dir && IsDir(t, d)
    requires FreeSlot(t[d].entries, k) && Absent(t[d].entries, name)
    ensures Agree(WithLink(t, d, k, i, name)) <==> Linked(t, d) && t[i].nlink < SHORT_MAX
  {
    hide Dirs, OneParent, Links;
    var u := WithLink(t, d, k, i, name);
    ShortCount(t, i);
    if !Linked(t, d) {
      LinkUncounted(t, d, k, i, name);
    } else if t[i].nlink < SHORT_MAX {
      NamedAgrees(t, u, d, k, i, name);
    } else {
      assert u[i].nlink < 0;
    }
  }

  /** link gives the inode the one name, and changes the names of no other. */
  lemma LinkLinks(t: Table, d: nat, k: nat, i: nat, name: Name, x: nat)
    requires Agree(t) && 0 < i < |t| && t[i].kind != Free && t[i].kind != Dir && Linked(t, d) && t[i].nlink < SHORT_MAX
    requires FreeSlot(t[d].entries, k) && Absent(t[d].entries, name) && x != 0
    ensures LinkSpec.Links(WithLink(t, d, k, i, name), x) ==
            if x == i then LinkSpec.Links(t, i) + {(d, k)} else LinkSpec.Links(t, x)
  {
    hide Dirs, OneParent, LinkSpec.Links;
    ShortCount(t, i);
    NamedLinks(t, WithLink(t, d, k, i, name), d, k, i, name, x);
  }

  /** create gives the new inode its one name, the directory the name ".." of a new directory, and no other any. */
  lemma NewLinks(t: Table, d: nat, k: nat, n: nat, name: Name, kind: Kind, x: nat)
    requires Agree(t) && Linked(t, d) && kind != Free && Vacant(t, d, n) && (kind == Dir ==> t[d].nlink < SHORT_MAX)
    requires FreeSlot(t[d].entries, k) && Absent(t[d].entries, name) && x != 0
    ensures LinkSpec.Links(WithNew(t, d, k, n, name, kind), x) ==
            if x == n then {(d, k)}
            else if x == d && kind == Dir then LinkSpec.Links(t, d) + {(n, 1)}
            else LinkSpec.Links(t, x)
  {
    hide Dirs, OneParent, LinkSpec.Links;
    var u := WithNew(t, d, k, n, name, kind);
    FreeCount(t, n);
    DirCount(t, d);
    if kind == Dir {
      MadeLinks(t, u, d, k, n, name, x);
    } else {
      var v := t[n := t[n].(entries := [])];
      FreedLinks(t, v, n, x);
      FreedLinks(t, v, n, n);
      SpareAgrees(t, v, n);
      NamedLinks(v, u, d, k, n, name, x);
      NoLinks(t, n);
      NoneLinks(t, n);
    }
  }

  lemma NoneLinks(t: Table, n: nat)
    requires Agree(t) && 0 < n < |t| && t[n].nlink == 0
    ensures LinkSpec.Links(t, n) == {}
  {
  }

  // ----- every sequence of operations -----

  /** One operation in directories that are still linked, while no count overflows. */
  datatype Op =
    | DoLink(d: nat, k: nat, i: nat, name: Name)
    | DoCreate(d: nat, k: nat, n: nat, name: Name, kind: Kind)
    | DoUnlink(d: nat, k: nat)
    | DoGet(i: nat)
    | DoPut(i: nat)

  ghost predicate Allowed(t: Table, op: Op) {
    match op
    case DoLink(d, k, i, name) =>
      && 0 < i < |t| && t[i].kind != Free && t[i].kind != Dir && Linked(t, d) && t[i].nlink < SHORT_MAX
      && FreeSlot(t[d].entries, k) && Absent(t[d].entries, name)
    case DoCreate(d, k, n, name, kind) =>
      && kind != Free && Linked(t, d) && Vacant(t, d, n) && (kind == Dir ==> t[d].nlink < SHORT_MAX)
      && FreeSlot(t[d].entries, k) && Absent(t[d].entries, name)
    case DoUnlink(d, k) => Linked(t, d) && Droppable(t, d, k)
    case DoGet(i) => i < |t|
    case DoPut(i) => 0 < i < |t| && t[i].ref > 0
  }

  ghost function After(t: Table, op: Op): Table
    requires Allowed(t, op)
  {
    match op
    case DoLink(d, k, i, name) => WithLink(t, d, k, i, name)
    case DoCreate(d, k, n, name, kind) => WithNew(t, d, k, n, name, kind)
    case DoUnlink(d, k) => Dropped(t, d, k)
    case DoGet(i) => t[i := t[i].(ref := t[i].ref + 1)]
    case DoPut(i) =>
      if t[i].nlink == 0 && t[i].ref == 1 then t[i := Node(Free, 0, [], 0)] else t[i := t[i].(ref := t[i].ref - 1)]
  }

  lemma AfterAgrees(t: Table, op: Op)
    requires Agree(t) && Allowed(t, op)
    ensures Agree(After(t, op))
  {
    hide Agree, Linked;
    match op {
      case DoLink(d, k, i, name) =>
        LinkedInTable(t, d);
        LinkOutcome(t, d, k, i, name);
      case DoCreate(d, k, n, name, kind) =>
        LinkedInTable(t, d);
        NewOutcome(t, d, k, n, name, kind);
      case DoUnlink(d, k) => DropOutcome(t, d, k);
      case DoGet(i) => RefAgrees(t, After(t, op), i);
      case DoPut(i) =>
        if t[i].nlink == 0 && t[i].ref == 1 {
          FreedAgrees(t, After(t, op), i);
        } else {
          RefAgrees(t, After(t, op), i);
        }
    }
  }

  ghost predicate Run(t: Table, ops: seq<Op>)
    decreases |ops|
  {
    ops == [] || (Allowed(t, ops[0]) && Run(After(t, ops[0]), ops[1..]))
  }

  ghost function Exec(t: Table, ops: seq<Op>): Table
    requires Run(t, ops)
    decreases |ops|
  {
    if ops == [] then t else Exec(After(t, ops[0]), ops[1..])
  }

  /** What mkfs makes: a root directory and `n` free inodes. */
  function Fresh(n: nat): Table {
    [Node(Free, 0, [], 0), Node(Dir, 1, [Dirent(ROOTINO, "."), Dirent(ROOTINO, "..")], 0)]
    + seq(n, _ => Node(Free, 0, [], 0))
  }

  lemma FreshAgrees(n: nat)
    ensures Agree(Fresh(n))
  {
    var t := Fresh(n);
    assert forall x: nat :: Linked(t, x) ==> x == ROOTINO;
    assert forall k: nat :: k >= 2 ==> At(t, ROOTINO, k).inum == 0;
    forall i: nat | 0 < i < |t|
      ensures t[i].nlink == |Links(t, i)| <= SHORT_MAX
    {
      LinksAre(t, i);
      assert Links(t, i) == if i == ROOTINO then {(ROOTINO, 1)} else {};
    }
  }

  lemma AfterReferenced(t: Table, op: Op)
    requires Agree(t) && Referenced(t) && Allowed(t, op)
    ensures Referenced(After(t, op))
  {
    hide Agree, Linked, FreeSlot, Absent, Put;
    match op {
      case DoLink(d, k, i, name) =>
        ShortCount(t, i);
        LinkedInTable(t, d);
        assert After(t, op)[i].nlink == t[i].nlink + 1;
      case DoCreate(d, k, n, name, kind) => DirCount(t, d);
      case DoUnlink(d, k) =>
        StillLinked(t, d, k);
        DroppedReferenced(t, d, k);
      case _ =>
    }
  }

  lemma DroppedReferenced(t: Table, d: nat, k: nat)
    requires Referenced(t) && Droppable(t, d, k) && (IsDir(t, t[d].entries[k].inum) ==> t[d].nlink >= 2)
    ensures Referenced(Dropped(t, d, k))
  {
    hide Empty;
    var u := Dropped(t, d, k);
    forall j | 0 < j < |u| && u[j].kind != Free && u[j].nlink == 0
      ensures u[j].ref > 0
    {
      assert j != d && j != t[d].entries[k].inum ==> u[j] == t[j];
    }
  }

  /** The directory that loses a child keeps its own name. */
  lemma StillLinked(t: Table, d: nat, k: nat)
    requires Agree(t) && Linked(t, d) && Droppable(t, d, k)
    ensures IsDir(t, t[d].entries[k].inum) ==> t[d].nlink >= 2
  {
    var i := t[d].entries[k].inum;
    if IsDir(t, i) {
      assert At(t, d, k).inum == i;
      NamedSlot(t, d, k);
      NoLinks(t, i);
      EmptyLinks(t, d, k, i);
      ParentStays(t, d, i);
    }
  }

  /** After every sequence of operations each count is the number of names, and names are unique. */
  lemma {:induction false} CountsAlwaysAgree(t: Table, ops: seq<Op>)
    requires Agree(t) && Run(t, ops)
    ensures Agree(Exec(t, ops)) && (Referenced(t) ==> Referenced(Exec(t, ops)))
    decreases |ops|
  {
    hide Agree, Referenced, Allowed, After;
    if ops != [] {
      if Referenced(t) {
        AfterReferenced(t, ops[0]);
      }
      AfterAgrees(t, ops[0]);
      CountsAlwaysAgree(After(t, ops[0]), ops[1..]);
    }
  }

  /** The counts do not depend on the references. */
  lemma RefAgrees(t: Table, u: Table, i: nat)
    requires |u| == |t| && i < |t| && Agree(t)
    requires (forall j :: 0 <= j < |t| && j != i ==> u[j] == t[j])
    requires u[i] == t[i].(ref := u[i].ref)
    ensures Agree(u)
  {
    hide Dirs, OneParent;
    RefShape(t, u, i);
    RefDirs(t, u);
    forall x: nat | 0 < x < |t|
      ensures u[x].nlink == |Links(u, x)| <= SHORT_MAX
    {
      assert Links(u, x) == Links(t, x);
    }
  }

  lemma RefShape(t: Table, u: Table, i: nat)
    requires |u| == |t| && i < |t|
    requires (forall j :: 0 <= j < |t| && j != i ==> u[j] == t[j])
    requires u[i] == t[i].(ref := u[i].ref)
    ensures SameView(t, u)
  {
  }

  ghost predicate SameView(t: Table, u: Table) {
    && (forall x: nat, j: nat :: At(u, x, j) == At(t, x, j))
    && (forall x: nat :: Linked(u, x) <==> Linked(t, x))
    && (forall x: nat :: IsDir(u, x) <==> IsDir(t, x))
    && (forall x: nat :: InUse(u, x) <==> InUse(t, x))
    && (forall x: nat :: Parent(u, x) == Parent(t, x))
    && (forall y: nat, x: nat, j: nat :: Names(u, y, x, j) <==> Names(t, y, x, j))
  }

  lemma RefDirs(t: Table, u: Table)
    requires SameView(t, u) && Dirs(t) && OneParent(t)
    ensures Dirs(u) && OneParent(u)
  {
    hide At, Linked, IsDir, InUse, Parent, Names;
    forall x: nat | Linked(u, x) && x != ROOTINO
      ensures HasHome(u, x)
    {
      assert HasHome(t, x);
      var j: nat :| j >= 2 && Names(t, x, Parent(t, x), j);
      assert Names(u, x, Parent(u, x), j);
    }
  }
}
