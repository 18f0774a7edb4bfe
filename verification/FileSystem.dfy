/** fs.c: block allocation, bmap, truncation, reading and writing, on the disk as the log presents it. */
module FileSystem {
  import opened Kinds
  import opened Options
  import opened Blocks
  import opened FsTree
  import opened FsContents
  import opened FsLogBound
  import opened Bitmap

  const BPB: nat := 4096
  const IPB: nat := 8

  /** `first` is the first data block: everything below it is reserved. */
  datatype Superblock = Superblock(size: nat, inodestart: nat, bmapstart: nat, first: nat) {
    /** Blocks that the free map takes. */
    function MapBlocks(): nat {
      (size + BPB - 1) / BPB
    }

    /** The free map lies below the data. */
    predicate Ok() {
      bmapstart + MapBlocks() <= first
    }

    /** Those of the blocks that are the free map's. */
    function Maps(x: set<nat>): set<nat> {
      InMap(bmapstart, MapBlocks(), x)
    }

    predicate InBitmap(b: nat) {
      bmapstart <= b < bmapstart + MapBlocks()
    }
  }

  function BitmapBlock(sb: Superblock, b: nat): nat {
    b / BPB + sb.bmapstart
  }

  function InodeBlock(sb: Superblock, i: nat): nat {
    i / IPB + sb.inodestart
  }

  /** The outcome of readi and writei: handed to a device, -1, a kernel panic, or a count of bytes. */
  datatype IoResult = Device | Refused | Panic | Moved(n: nat)

  /** Block `b` of the free map has the bit of a block that has got an owner since `o`. */
  ghost predicate ForNew(sb: Superblock, own: Owners, o: Owners, b: nat) {
    exists n :: n in own && n !in o && BitmapBlock(sb, n) == b
  }

  /** Beyond `l` only the blocks at the given places were logged, and the free map's for blocks allocated since `o`. */
  ghost predicate LoggedIn(sb: Superblock, logged: set<nat>, own: Owners, l: set<nat>, o: Owners, places: set<Place>) {
    forall b :: b in logged ==> b in l || ForNew(sb, own, o, b) || (b in own && own[b] in places)
  }

  ghost predicate Kept(own: Owners, own': Owners) {
    forall b :: b in own ==> b in own' && own'[b] == own[b]
  }

  /** More is logged: blocks at the given places, and the free map's for a block `n` just allocated. */
  lemma LoggedMore(sb: Superblock, logged: set<nat>, own: Owners, l: set<nat>, o: Owners, places: set<Place>,
      logged': set<nat>, own': Owners, more: set<Place>, n: nat)
    requires LoggedIn(sb, logged, own, l, o, places) && Kept(o, own) && Kept(own, own') && places <= more
    requires n in own' && n !in own
    requires forall b :: b in logged' ==> b in logged || b == BitmapBlock(sb, n) || (b in own' && own'[b] in more)
    ensures LoggedIn(sb, logged', own', l, o, more)
  {
    forall b | b in logged'
      ensures b in l || ForNew(sb, own', o, b) || (b in own' && own'[b] in more)
    {
      if b == BitmapBlock(sb, n) {
        assert n in own' && n !in o;
      } else if b in logged && ForNew(sb, own, o, b) {
        var m :| m in own && m !in o && BitmapBlock(sb, m) == b;
        assert m in own';
      }
    }
  }

  lemma NothingLogged(sb: Superblock, logged: set<nat>, own: Owners, o: Owners)
    ensures forall places :: LoggedIn(sb, logged, own, logged, o, places)
  {
  }

  lemma LoggedSame(sb: Superblock, logged: set<nat>, own: Owners, l: set<nat>, o: Owners, places: set<Place>,
      more: set<Place>)
    requires LoggedIn(sb, logged, own, l, o, places) && places <= more
    ensures LoggedIn(sb, logged, own, l, o, more)
  {
  }

  /** Two stretches of logging, the second from where the first ended. */
  lemma LoggedTwice(sb: Superblock, l: set<nat>, o: Owners, logged: set<nat>, own: Owners, logged': set<nat>,
      own': Owners, places: set<Place>)
    requires LoggedIn(sb, logged, own, l, o, places) && LoggedIn(sb, logged', own', logged, own, places) && Kept(o, own)
      && Kept(own, own')
    ensures LoggedIn(sb, logged', own', l, o, places)
  {
    forall b | b in logged'
      ensures b in l || ForNew(sb, own', o, b) || (b in own' && own'[b] in places)
    {
      if ForNew(sb, own', own, b) {
        var m :| m in own' && m !in own && BitmapBlock(sb, m) == b;
        assert m !in o;
      } else if b in logged && ForNew(sb, own, o, b) {
        var m :| m in own && m !in o && BitmapBlock(sb, m) == b;
        assert m in own';
      }
    }
  }

  /** The blocks before position `off` of a file without holes, and the one it falls within, are there. */
  lemma BlocksBelow(f: Fs, i: nat, off: nat)
    requires f.Shape() && i < |f.inodes| && off <= f.inodes[i].size && NoHoles(f, i, f.inodes[i].size)
      && off / BSIZE < MAXFILE
    ensures forall bn :: 0 <= bn < off / BSIZE ==> LeafPtr(f, i, bn) != 0
    ensures off % BSIZE != 0 ==> LeafPtr(f, i, off / BSIZE) != 0
  {
    hide Covers;
    assert off / BSIZE <= Count(f.inodes[i].size) && (off % BSIZE != 0 ==> off / BSIZE < Count(f.inodes[i].size));
  }

  /** What is on disk, as the cache shows it, and the blocks passed to log_write. */
  datatype Snap = Snap(blocks: seq<Block>, bits: seq<bool>, dinodes: seq<Inode>, logged: set<nat>)

  /** Whatever is different on disk since `x` is in a block that was logged, and so is every block allocated since. */
  ghost predicate AllLogged(sb: Superblock, x: Snap, y: Snap) {
    && x.logged <= y.logged && |x.blocks| == |y.blocks| && |x.bits| == |y.bits| && |x.dinodes| == |y.dinodes|
    && (forall b :: 0 <= b < |x.blocks| && y.blocks[b] != x.blocks[b] ==> b in y.logged)
    && (forall b :: 0 <= b < |x.bits| && y.bits[b] != x.bits[b] ==> BitmapBlock(sb, b) in y.logged)
    && (forall b :: 0 <= b < |x.bits| && y.bits[b] && !x.bits[b] ==> b in y.logged)
    && (forall j :: 0 <= j < |x.dinodes| && y.dinodes[j] != x.dinodes[j] ==> InodeBlock(sb, j) in y.logged)
  }

  lemma AllLoggedSelf(sb: Superblock, x: Snap)
    ensures AllLogged(sb, x, x)
  {
  }

  lemma AllLoggedThen(sb: Superblock, x: Snap, y: Snap, z: Snap)
    requires AllLogged(sb, x, y) && AllLogged(sb, y, z)
    ensures AllLogged(sb, x, z)
  {
  }

  /** One block is stored and logged. */
  lemma StoreLogged(sb: Superblock, x: Snap, a: nat, v: Block)
    requires a < |x.blocks|
    ensures AllLogged(sb, x, x.(blocks := x.blocks[a := v], logged := x.logged + {a}))
  {
  }

  lemma EmptyBeyond(f: Fs, i: nat, len: nat, bn: nat)
    requires NoHoles(f, i, len) && bn < MAXFILE && f.Shape() && i < |f.inodes| && LeafPtr(f, i, bn) == 0
    ensures Count(len) <= bn
  {
    hide Covers;
  }

  /** A write that finds no block at position `off + tot` ends past the blocks that the file has. */
  lemma MoreBlocks(size: nat, off: nat, tot: nat, n: nat)
    requires tot < n && Count(Grown(size, off, tot)) <= (off + tot) / BSIZE
    ensures Count(off + n) > Count(size)
  {
    assert Grown(size, off, tot) >= size;
    CountGrows(size, Grown(size, off, tot));
    assert (off + n + BSIZE - 1) / BSIZE > (off + tot) / BSIZE;
  }

  lemma CountGrows(a: nat, b: nat)
    requires a <= b
    ensures Count(a) <= Count(b)
  {
  }

  class FileSystem {
    const sb: Superblock
    var blocks: seq<Block>
    var bitmap: seq<bv8>         // the bytes of the bitmap blocks
    ghost var bits: seq<bool>    // the bits they hold
    var inodes: seq<Inode>       // in memory
    var dinodes: seq<Inode>      // on disk
    ghost var own: Owners
    ghost var logged: set<nat>   // blocks passed to log_write

    /** The file system of a disk and its inodes, before any operation. */
    constructor (sb: Superblock, blocks: seq<Block>, bitmap: seq<bv8>, ghost bits: seq<bool>, inodes: seq<Inode>,
        ghost own: Owners)
      ensures this.sb == sb && this.blocks == blocks && this.bitmap == bitmap && this.bits == bits
      ensures this.inodes == this.dinodes == inodes && this.own == own && logged == {}
    {
      this.sb, this.blocks, this.bitmap, this.bits := sb, blocks, bitmap, bits;
      this.inodes, this.dinodes, this.own, logged := inodes, inodes, own, {};
    }

    ghost function S(): Fs
      reads this
    {
      Fs(blocks, inodes)
    }

    ghost predicate Valid()
      reads this
    {
      && sb.Ok() && |blocks| == |bits| == sb.size && |dinodes| == |inodes|
      && Tree(S(), own, sb.first)
      && FreeMap(bits, own.Keys, sb.first) && Packed(bitmap, bits)
    }

    ghost function Now(): Snap
      reads this
    {
      Snap(blocks, bits, dinodes, logged)
    }

    ghost predicate NoneFree()
      reads this
    {
      forall b :: 0 <= b < |bits| ==> bits[b]
    }

    /** Allocate a zeroed disk block: the first one that is free. */
    method Balloc() returns (r: Option<nat>)
      requires |blocks| == |bits| == sb.size && Packed(bitmap, bits)
      modifies this`bits, this`bitmap, this`blocks, this`logged
      ensures Packed(bitmap, bits)
      ensures r.None? ==>
        NoneFree() && bits == old(bits) && bitmap == old(bitmap) && blocks == old(blocks) && logged == old(logged)
      ensures r.Some? ==>
        var n := r.value;
        && n < |old(bits)| && !old(bits)[n] && (forall b :: 0 <= b < n ==> old(bits)[b])
        && bits == old(bits)[n := true] && blocks == old(blocks)[n := ZeroBlock()]
        && logged == old(logged) + {BitmapBlock(sb, n), n}
      ensures AllLogged(sb, old(Now()), Now())
    {
      hide Packed, Has, Mark, Unmark;
      var b := 0;
      while b < sb.size
        invariant b % BPB == 0
        invariant bits == old(bits) && bitmap == old(bitmap) && blocks == old(blocks) && logged == old(logged)
        invariant forall i :: 0 <= i < b && i < sb.size ==> bits[i]
      {
        var bi := 0;
        while bi < BPB && b + bi < sb.size
          invariant bi <= BPB
          invariant bits == old(bits) && bitmap == old(bitmap) && blocks == old(blocks) && logged == old(logged)
          invariant forall i :: 0 <= i < b + bi && i < sb.size ==> bits[i]
        {
          InBlock(b, bi);
          PackedAt(bitmap, bits, b + bi);
          var at := b / BPB * BSIZE + bi / 8;
          if !Has(bitmap[at], bi % 8) {
            PackedMark(bitmap, bits, b + bi);
            bitmap := bitmap[at := Mark(bitmap[at], bi % 8)];
            bits := bits[b + bi := true];
            logged := logged + {BitmapBlock(sb, b + bi)};
            blocks := blocks[b + bi := ZeroBlock()];
            logged := logged + {b + bi};
            return Some(b + bi);
          }
          bi := bi + 1;
        }
        b := b + BPB;
      }
      return None;
    }

    /** Free a disk block; freeing one that is free already is a panic. */
    method Bfree(b: nat) returns (panic: bool)
      requires b < |bits| && Packed(bitmap, bits)
      modifies this`bits, this`bitmap, this`logged
      ensures Packed(bitmap, bits)
      ensures panic <==> !old(bits[b])
      ensures panic ==> bits == old(bits) && bitmap == old(bitmap) && logged == old(logged)
      ensures !panic ==> bits == old(bits)[b := false] && logged == old(logged) + {BitmapBlock(sb, b)}
      ensures AllLogged(sb, old(Now()), Now())
    {
      hide Packed, Has, Mark, Unmark;
      BitPlace(b);
      PackedAt(bitmap, bits, b);
      var bi := b % BPB;
      var at := b / BPB * BSIZE + bi / 8;
      if !Has(bitmap[at], bi % 8) {
        return true;
      }
      PackedMark(bitmap, bits, b);
      bitmap := bitmap[at := Unmark(bitmap[at], bi % 8)];
      bits := bits[b := false];
      logged := logged + {BitmapBlock(sb, b)};
      return false;
    }

    /** The block at slot `s` of inode `i`, allocated if there is none. */
    method EnsureSlot(i: nat, s: nat) returns (r: Option<nat>)
      requires Valid() && i < |inodes| && s < NADDRS
      modifies this`bits, this`bitmap, this`blocks, this`inodes, this`own, this`logged
      ensures r.None? ==> NoneFree() && Valid() && S() == old(S()) && own == old(own)
      ensures old(S().Ptr(Root(i, s))) != 0 ==> r.Some? && S() == old(S()) && own == old(own) && logged == old(logged)
      ensures r.Some? ==>
        && Valid()
        && 0 < r.value < |blocks| && |inodes| == old(|inodes|) && S().Ptr(Root(i, s)) == r.value
        && Extends(old(S()), old(own), S(), own, {Root(i, s)})
        && logged <= old(logged) + {BitmapBlock(sb, r.value), r.value}
        && (old(S().Ptr(Root(i, s))) == 0 ==> r.value in own && r.value !in old(own))
      ensures AllLogged(sb, old(Now()), Now())
    {
      hide Packed, WordAt, SetWord, Extends, AllLogged;
      AllLoggedSelf(sb, Now());
      var addr: nat := inodes[i].addrs[s];
      ghost var q := Root(i, s);
      ghost var f, o := S(), own;
      ExtendsSelf(f, o, {q});
      InUse(f, o, sb.first, q);
      if addr == 0 {
        addr :- Balloc();
        GrowExtends(f, o, sb.first, q, addr);
        inodes := inodes[i := inodes[i].(addrs := inodes[i].addrs[s := addr])];
        own := own[addr := q];
        assert S() == Grow(f, q, addr);
      }
      return Some(addr);
    }

    /** The block at word `k` of the block `a`, which the place `q` refers to, allocated if there is none. */
    method EnsureWord(a: nat, k: nat, ghost q: Place) returns (r: Option<nat>)
      requires Valid() && S().Has(Child(q, k)) && 0 < a < |blocks| && S().Ptr(q) == a
      modifies this`bits, this`bitmap, this`blocks, this`own, this`logged
      ensures r.None? ==> NoneFree() && Valid() && S() == old(S()) && own == old(own)
      ensures old(S().Ptr(Child(q, k))) != 0 ==> r.Some? && S() == old(S()) && own == old(own) && logged == old(logged)
      ensures r.Some? ==>
        && Valid()
        && 0 < r.value < |blocks| && S().Ptr(Child(q, k)) == r.value
        && Extends(old(S()), old(own), S(), own, {Child(q, k)})
        && logged <= old(logged) + {BitmapBlock(sb, r.value), r.value, a}
        && (old(S().Ptr(Child(q, k))) == 0 ==> r.value in own && r.value !in old(own))
      ensures AllLogged(sb, old(Now()), Now())
    {
      hide Packed, WordAt, SetWord, Extends, Tree, AllLogged;
      AllLoggedSelf(sb, Now());
      ghost var p := Child(q, k);
      ghost var f, o := S(), own;
      InUse(f, o, sb.first, p);
      InUse(f, o, sb.first, q);
      ExtendsSelf(f, o, {p});
      var addr: nat := WordAt(blocks[a], k);
      if addr == 0 {
        addr :- Balloc();
        GrowWord(f, o, sb.first, p, addr);
        ghost var now := Now();
        StoreLogged(sb, now, a, SetWord(blocks[a], k, addr));
        blocks := blocks[a := SetWord(blocks[a], k, addr)];
        logged := logged + {a};
        AllLoggedThen(sb, old(Now()), now, Now());
        own := own[addr := p];
      }
      return Some(addr);
    }

    ghost predicate LoggedAt(l: set<nat>, o: Owners, places: set<Place>)
      reads this
    {
      LoggedIn(sb, logged, own, l, o, places)
    }

    /** Since the state `f`, `o`, `l` only places down to `q` were filled, and only for them were blocks logged. */
    ghost predicate Filled(f: Fs, o: Owners, l: set<nat>, q: Place)
      reads this
    {
      && f.Shape() && S().Shape() && f.Has(q) && |inodes| == |f.inodes|
      && Extends(f, o, S(), own, Path(q))
      && (f.Ptr(q) != 0 ==> S() == f && own == o && logged == l)
      && LoggedAt(l, o, Touched(f, q))
    }

    /** Since the state `f`, `o` some places on the way to `goal` were filled, but no block was left for all of them. */
    ghost predicate Stopped(f: Fs, o: Owners, goal: Place)
      reads this
    {
      && Valid() && NoneFree() && f.Shape() && f.Has(goal) && |inodes| == |f.inodes|
      && Extends(f, o, S(), own, Path(goal)) && f.Ptr(goal) == S().Ptr(goal) == 0
    }

    /** A place on the way stayed empty. */
    lemma StopsAbove(f: Fs, o: Owners, filled: Place, p: Place, goal: Place)
      requires Valid() && NoneFree() && f.Shape() && f.Has(goal) && |inodes| == |f.inodes|
      requires filled in Path(goal) && Extends(f, o, S(), own, Path(filled))
      requires p in Path(goal) && f.Has(p) && S().Ptr(p) == 0
      ensures Stopped(f, o, goal)
    {
      hide Packed, WordAt, Tree, FreeMap, Fs.Ptr, Path;
      InUse(S(), own, sb.first, goal);
      if S().Ptr(goal) != 0 {
        PathMapped(S(), goal, p);
      }
      PathWithin(filled, goal);
      ExtendsOwns(f, o, S(), own, Path(filled), goal);
    }

    method FillSlot(i: nat, s: nat, ghost goal: Place) returns (r: Option<nat>)
      requires Valid() && i < |inodes| && s < NADDRS && Root(i, s) in Path(goal) && S().Has(goal)
      modifies this`bits, this`bitmap, this`blocks, this`inodes, this`own, this`logged
      ensures r.None? ==> Stopped(old(S()), old(own), goal)
      ensures r.Some? ==>
        && Valid()
        && 0 < r.value < |blocks| && |inodes| == old(|inodes|) && S().Ptr(Root(i, s)) == r.value
        && Filled(old(S()), old(own), old(logged), Root(i, s))
      ensures AllLogged(sb, old(Now()), Now())
    {
      hide Packed, WordAt, SetWord, Extends, AllLogged;
      r := EnsureSlot(i, s);
      if r.Some? {
        InUse(S(), own, sb.first, Root(i, s));
      } else {
        ExtendsSelf(S(), own, Path(Root(i, s)));
        StopsAbove(S(), own, Root(i, s), Root(i, s), goal);
      }
    }

    method FillWord(a: nat, k: nat, ghost q: Place, ghost goal: Place, ghost f: Fs, ghost o: Owners, ghost l: set<nat>)
        returns (r: Option<nat>)
      requires Valid() && S().Has(Child(q, k)) && 0 < a < |blocks| && S().Ptr(q) == a
      requires Filled(f, o, l, q) && q in Path(goal) && Child(q, k) in Path(goal) && f.Has(goal)
      modifies this`bits, this`bitmap, this`blocks, this`own, this`logged
      ensures r.None? ==> Stopped(f, o, goal)
      ensures r.Some? ==>
        && Valid()
        && 0 < r.value < |blocks| && S().Ptr(Child(q, k)) == r.value
        && Filled(f, o, l, Child(q, k))
      ensures AllLogged(sb, old(Now()), Now())
    {
      hide Packed, WordAt, SetWord, Extends, Tree, Touched, Path, LoggedIn, FreeMap, AllLogged;
      ghost var g, o', l' := S(), own, logged;
      InUse(g, o', sb.first, q);
      TouchedBelow(f, Child(q, k));
      r := EnsureWord(a, k, q);
      if r.Some? {
        InUse(S(), own, sb.first, Child(q, k));
        ExtendsTrans(f, o, g, o', S(), own, Path(q), {Child(q, k)});
        ExtendsOwns(f, o, g, o', Path(q), Child(q, k));
        ExtendsOwns(g, o', S(), own, {Child(q, k)}, q);
        if g.Ptr(Child(q, k)) == 0 {
          LoggedMore(sb, l', o', l, o, Touched(f, q), logged, own, Touched(f, Child(q, k)), r.value);
        } else {
          LoggedSame(sb, logged, own, l, o, Touched(f, q), Touched(f, Child(q, k)));
        }
      } else {
        ExtendsOwns(f, o, g, o', Path(q), Child(q, k));
        StopsAbove(f, o, q, Child(q, k), goal);
      }
    }

    /** The disk block of the `bn`-th block of inode `i`, allocated if there is none. */
    method Bmap(i: nat, bn: nat) returns (r: Option<nat>)
      requires Valid() && i < |inodes|
      modifies this`bits, this`bitmap, this`blocks, this`inodes, this`own, this`logged
      ensures r.None? ==>
        bn >= MAXFILE || (NoneFree() && old(LeafPtr(S(), i, bn)) == 0 && Stopped(old(S()), old(own), Leaf(i, bn)))
      ensures r.Some? ==>
        && bn < MAXFILE && Valid()
        && |inodes| == old(|inodes|) && 0 < r.value < |blocks| && LeafPtr(S(), i, bn) == r.value
        && Filled(old(S()), old(own), old(logged), Leaf(i, bn))
        && AllLogged(sb, old(Now()), Now())
    {
      hide Packed, WordAt, SetWord, Extends, Tree, FreeMap, FileSystem.Filled, AllLogged;
      ghost var f, o, l, x := S(), own, logged, Now();
      InUse(f, o, sb.first, Root(i, 0));
      ghost var goal := Root(i, 0);
      if bn < MAXFILE {
        goal := Leaf(i, bn);
        LeafPlaces(i, bn, |inodes|);
        OnTheWay(i, bn);
      }
      var bn := bn;
      if bn < NDIRECT {
        r := FillSlot(i, bn, goal);
        return;
      }
      bn := bn - NDIRECT;
      if bn < NINDIRECT {
        var addr :- FillSlot(i, NDIRECT, goal);
        ghost var y := Now();
        r := FillWord(addr, bn, Root(i, NDIRECT), goal, f, o, l);
        AllLoggedThen(sb, x, y, Now());
        return;
      }
      bn := bn - NINDIRECT;
      if bn < NINDIRECT * NINDIRECT {
        var index1 := bn / NINDIRECT;
        var index2 := bn % NINDIRECT;
        var addr :- FillSlot(i, NDIRECT + 1, goal);
        ghost var y := Now();
        addr :- FillWord(addr, index1, Root(i, NDIRECT + 1), goal, f, o, l);
        AllLoggedThen(sb, x, y, Now());
        y := Now();
        r := FillWord(addr, index2, Child(Root(i, NDIRECT + 1), index1), goal, f, o, l);
        AllLoggedThen(sb, x, y, Now());
        return;
      }
      bn := bn - NINDIRECT * NINDIRECT;
      if bn < NINDIRECT * NINDIRECT * NINDIRECT {
        var index1 := bn / (NINDIRECT * NINDIRECT);
        var index2 := bn % (NINDIRECT * NINDIRECT) / NINDIRECT;
        var index3 := bn % NINDIRECT;
        r := FillTriple(i, index1, index2, index3, f, o, l);
        return;
      }
      return None;
    }

    /** bmap's last region: through three indirect blocks. */
    method FillTriple(i: nat, index1: nat, index2: nat, index3: nat, ghost f: Fs, ghost o: Owners, ghost l: set<nat>)
        returns (r: Option<nat>)
      requires Valid() && i < |inodes| && S() == f && own == o && logged == l
      requires index1 < NINDIRECT && index2 < NINDIRECT && index3 < NINDIRECT
      requires f.Has(Child(Child(Child(Root(i, NDIRECT + 2), index1), index2), index3))
      modifies this`bits, this`bitmap, this`blocks, this`inodes, this`own, this`logged
      ensures var q := Child(Child(Root(i, NDIRECT + 2), index1), index2);
        && (r.None? ==> Stopped(f, o, Child(q, index3)))
        && (r.Some? ==>
              && Valid() && |inodes| == old(|inodes|)
              && 0 < r.value < |blocks| && S().Ptr(Child(q, index3)) == r.value && Filled(f, o, l, Child(q, index3))
              && AllLogged(sb, old(Now()), Now()))
    {
      hide Packed, WordAt, SetWord, Extends, Tree, FreeMap, FileSystem.Filled, Fs.Ptr, AllLogged;
      ghost var x := Now();
      InUse(f, o, sb.first, Root(i, 0));
      LeafTriple(i, index1, index2, index3, |inodes|);
      ghost var q := Root(i, NDIRECT + 2);
      ghost var goal := Child(Child(Child(q, index1), index2), index3);
      PathOf(goal);
      PathOf(goal.parent);
      PathOf(goal.parent.parent);
      SelfInPath(q);
      var addr :- FillSlot(i, NDIRECT + 2, goal);
      ghost var y := Now();
      addr :- FillWord(addr, index1, q, goal, f, o, l);
      AllLoggedThen(sb, x, y, Now());
      y := Now();
      addr :- FillWord(addr, index2, Child(q, index1), goal, f, o, l);
      AllLoggedThen(sb, x, y, Now());
      y := Now();
      r := FillWord(addr, index3, Child(Child(q, index1), index2), goal, f, o, l);
      AllLoggedThen(sb, x, y, Now());
    }

    lemma MorePlaces(l: set<nat>, o: Owners, places: set<Place>, p: Place, a: nat, more: set<Place>)
      requires LoggedAt(l, o, places) && places + {p} <= more && a in own && own[a] == p
      ensures LoggedIn(sb, logged + {a}, own, l, o, more)
    {
    }

    /** The blocks that have got an owner since `f`, `o` are at spots of the file that were empty. */
    ghost predicate NewAt(f: Fs, o: Owners, i: nat, lo: nat, hi: nat)
      reads this
    {
      lo <= hi < MAXFILE && forall n :: n in own && n !in o ==> own[n] in Unmapped(f, i, lo, hi)
    }

    /** Since the state `f`, `o` blocks were allocated for empty spots only, and for block `bn` there was none left. */
    ghost predicate Stuck(f: Fs, o: Owners, i: nat, lo: nat, bn: nat, hi: nat)
      reads this
    {
      && Valid() && NoneFree() && Kept(o, own) && |inodes| == |f.inodes| && NewAt(f, o, i, lo, hi)
      && bn <= hi && Leaf(i, bn) in Unmapped(S(), i, lo, hi)
    }

    lemma BmapStuck(f: Fs, o: Owners, i: nat, lo: nat, bn: nat, hi: nat)
      requires Tree(f, o, sb.first) && i < |f.inodes| && lo <= bn <= hi < MAXFILE && hi < lo + NINDIRECT
      requires bn > 0 ==> LeafPtr(f, i, bn - 1) != 0
      requires Stopped(f, o, Leaf(i, bn))
      ensures Stuck(f, o, i, lo, bn, hi)
    {
      hide Packed, WordAt, FreeMap, Path, Leaf, IsPlace, Fs.Ptr, FileSystem.NoneFree, DataSpots, IndirectSpots;
      NewPlaces(f, o, S(), own, sb.first, i, lo, bn, hi);
      DataSpotsHas(i, lo, bn, hi);
    }

    /** A write that stops has had too few blocks from the start. */
    lemma LoopStuck(f: Fs, o: Owners, was: seq<bool>, g: Fs, og: Owners, i: nat, lo: nat, bn: nat, hi: nat)
      requires Tree(f, o, sb.first) && Tree(g, og, sb.first) && FreeMap(was, o.Keys, sb.first) && |was| == sb.size
      requires |g.inodes| == |f.inodes| && Kept(o, og) && lo <= hi < MAXFILE
      requires forall n :: n in og && n !in o ==> og[n] in Unmapped(f, i, lo, hi)
      requires Stuck(g, og, i, lo, bn, hi)
      ensures |Unset(was)| < |Unmapped(f, i, lo, hi)|
    {
      hide Packed, WordAt, FreeMap, Path, Leaf, IsPlace, Fs.Ptr, Spots;
      StillUnmapped(f, o, g, og, sb.first, i, lo, hi);
      StillUnmapped(f, o, S(), own, sb.first, i, lo, hi);
      TooFew(f, o, was, S(), own, bits, sb.first, i, lo, hi, Leaf(i, bn));
    }

    /** A write that ends has had enough. */
    lemma LoopEnough(f: Fs, o: Owners, was: seq<bool>, i: nat, off: nat, src: seq<Byte>)
      requires Valid() && i < |f.inodes| && Tree(f, o, sb.first) && FreeMap(was, o.Keys, sb.first) && |was| == sb.size
      requires Kept(o, own) && 0 < |src| && Wrote(f, f.inodes[i].size, S(), i, off, src)
      requires NoHoles(f, i, f.inodes[i].size) && off <= f.inodes[i].size && off + |src| <= MAXSIZE
      ensures |Unmapped(f, i, off / BSIZE, (off + |src| - 1) / BSIZE)| <= |Unset(was)|
    {
      hide Packed, WordAt, FreeMap, Path, Leaf, IsPlace, Fs.Ptr, Spots;
      WroteNoHoles(f, f.inodes[i].size, S(), i, off, src);
      Enough(f, o, was, S(), own, sb.first, i, off / BSIZE, (off + |src| - 1) / BSIZE);
    }

    /** One round of writei: `data` goes into the block that holds position `pos`. */
    method WritePiece(i: nat, pos: nat, data: seq<Byte>, ghost len: nat, ghost lo: nat, ghost hi: nat)
        returns (ok: bool)
      requires Valid() && i < |inodes| && NoHoles(S(), i, len)
      requires pos <= len && 0 < |data| && pos % BSIZE + |data| <= BSIZE && pos + |data| <= MAXSIZE
      requires lo <= pos / BSIZE <= hi < MAXFILE
      modifies this`bits, this`bitmap, this`blocks, this`inodes, this`own, this`logged
      ensures !ok ==> NoneFree() && Count(len) <= pos / BSIZE
      ensures !ok && hi < lo + NINDIRECT ==> Stuck(old(S()), old(own), i, lo, pos / BSIZE, hi)
      ensures ok ==>
        && Valid() && Wrote(old(S()), len, S(), i, pos, data)
        && (forall b :: b in old(own) ==> b in own && own[b] == old(own)[b])
        && (hi < lo + NINDIRECT ==>
          LoggedAt(old(logged), old(own), Spots(i, lo, hi)) && NewAt(old(S()), old(own), i, lo, hi))
        && AllLogged(sb, old(Now()), Now())
    {
      hide Packed, WordAt, SetWord, Tree, FreeMap, Path, Leaf, Touched, Spots, IsPlace, Wrote, NoHoles, LoggedIn,
        AllLogged, FileSystem.Stuck, FileSystem.Stopped;
      ghost var f, o := S(), own;
      var bn := pos / BSIZE;
      PieceCount(pos, |data|, len);
      LastMapped(f, i, len, bn);
      var r := Bmap(i, bn);
      if r.None? {
        EmptyBeyond(f, i, len, bn);
        if hi < lo + NINDIRECT {
          BmapStuck(f, o, i, lo, bn, hi);
        }
        return false;
      }
      var a := r.value;
      ghost var g := S();
      PieceEffect(f, o, g, own, sb.first, i, len, pos, data);
      InUse(g, own, sb.first, Leaf(i, bn));
      if hi < lo + NINDIRECT {
        TouchedSpots(f, i, lo, bn, hi);
        MorePlaces(old(logged), o, Touched(f, Leaf(i, bn)), Leaf(i, bn), a, Spots(i, lo, hi));
        NewPlaces(f, o, g, own, sb.first, i, lo, bn, hi);
      }
      ghost var now := Now();
      StoreLogged(sb, now, a, Splice(blocks[a], pos % BSIZE, data));
      blocks := blocks[a := Splice(blocks[a], pos % BSIZE, data)];
      logged := logged + {a};
      AllLoggedThen(sb, old(Now()), now, Now());
      return true;
    }

    /** iupdate: the inode in memory goes to its place on disk. */
    method Iupdate(i: nat)
      requires i < |inodes| == |dinodes|
      modifies this`dinodes, this`logged
      ensures dinodes == old(dinodes)[i := inodes[i]] && logged == old(logged) + {InodeBlock(sb, i)}
      ensures AllLogged(sb, old(Now()), Now())
    {
      dinodes := dinodes[i := inodes[i]];
      logged := logged + {InodeBlock(sb, i)};
    }

    /** The loop of writei: block by block, before the size is looked at. */
    method WriteLoop(i: nat, src: seq<Byte>, off: nat) returns (ok: bool)
      requires Valid() && i < |inodes| && off + |src| <= MAXSIZE
      requires NoHoles(S(), i, inodes[i].size) && off <= inodes[i].size
      modifies this`bits, this`bitmap, this`blocks, this`inodes, this`own, this`logged
      ensures !ok ==> NoneFree() && Count(off + |src|) > Count(old(inodes[i]).size)
      ensures 0 < |src| <= CHUNK ==>
        (!ok <==> |Unset(old(bits))| < |Unmapped(old(S()), i, off / BSIZE, (off + |src| - 1) / BSIZE)|)
      ensures ok ==> Valid() && Wrote(old(S()), old(inodes[i]).size, S(), i, off, src)
      ensures ok && src == [] ==> logged == old(logged)
      ensures ok && 0 < |src| <= CHUNK ==>
        && LoggedAt(old(logged), old(own), Spots(i, off / BSIZE, (off + |src| - 1) / BSIZE))
        && NewAt(old(S()), old(own), i, off / BSIZE, (off + |src| - 1) / BSIZE)
      ensures ok ==> AllLogged(sb, old(Now()), Now()) && Kept(old(own), own)
    {
      hide Packed, WordAt, SetWord, Tree, FreeMap, Wrote, FileSystem.NoneFree, FileSystem.Stuck, Spots, LoggedIn,
        Unmapped, AllLogged;
      AllLoggedSelf(sb, Now());
      ghost var f, o, size := S(), own, inodes[i].size;
      WroteNothing(f, size, i, off);
      assert src[..0] == [];
      assert forall places :: LoggedIn(sb, logged, own, logged, o, places) by { NothingLogged(sb, logged, own, o); }
      ghost var lo, hi := off / BSIZE, if src == [] then off / BSIZE else (off + |src| - 1) / BSIZE;
      var tot := 0;
      while tot < |src|
        invariant tot <= |src| && Valid()
        invariant tot == 0 ==> logged == old(logged)
        invariant Kept(o, own) && AllLogged(sb, old(Now()), Now())
        invariant 0 < |src| <= CHUNK ==> LoggedAt(old(logged), o, Spots(i, lo, hi)) && NewAt(f, o, i, lo, hi)
        invariant Wrote(f, size, S(), i, off, src[..tot])
      {
        var pos := off + tot;
        var m := if |src| - tot < BSIZE - pos % BSIZE then |src| - tot else BSIZE - pos % BSIZE;
        ghost var g, og, lg, now := S(), own, logged, Now();
        WroteNoHoles(f, size, g, i, off, src[..tot]);
        ok := WritePiece(i, pos, src[tot..tot + m], Grown(size, off, tot), lo, hi);
        if !ok {
          MoreBlocks(size, off, tot, |src|);
          if |src| <= CHUNK {
            LoopStuck(f, o, old(bits), g, og, i, lo, pos / BSIZE, hi);
          }
          return;
        }
        WroteTwice(f, size, g, S(), i, off, src[..tot], src[tot..tot + m]);
        StillUnmapped(f, o, g, og, sb.first, i, lo, hi);
        AllLoggedThen(sb, old(Now()), now, Now());
        if |src| <= CHUNK {
          LoggedTwice(sb, old(logged), o, lg, og, logged, own, Spots(i, lo, hi));
        }
        assert src[..tot] + src[tot..tot + m] == src[..tot + m];
        tot := tot + m;
      }
      assert src[..|src|] == src;
      if 0 < |src| <= CHUNK {
        LoopEnough(f, o, old(bits), i, off, src);
      }
      ok := true;
    }

    /** The free map's blocks are where they should be. */
    lemma MapPlaces(l: set<nat>, o: Owners, i: nat, lo: nat, hi: nat, inode: nat)
      requires Valid() && lo <= hi < MAXFILE && forall b :: b in logged ==>
        b in l || ForNew(sb, own, o, b) || (b in own && own[b] in Spots(i, lo, hi)) || b == inode
      ensures forall b :: b in logged - l ==> sb.InBitmap(b) || (b in own && own[b] in Spots(i, lo, hi)) || b == inode
    {
      hide Packed, WordAt, Spots, FreeMap;
      forall b | ForNew(sb, own, o, b)
        ensures sb.InBitmap(b)
      {
        var n :| n in own && n !in o && BitmapBlock(sb, n) == b;
        assert n < sb.size;
      }
    }

    /** A chunk allocates at most nine blocks, and logs at most one block of the free map for each. */
    lemma ChunkCount(l: set<nat>, f: Fs, o: Owners, i: nat, off: nat, n: nat, inode: nat)
      requires Valid() && 0 < n <= CHUNK && (off + n - 1) / BSIZE < MAXFILE
      requires f.Shape() && i < |f.inodes| && off <= f.inodes[i].size && NoHoles(f, i, f.inodes[i].size)
      requires NewAt(f, o, i, off / BSIZE, (off + n - 1) / BSIZE)
      requires forall b :: b in logged ==>
        b in l || ForNew(sb, own, o, b) || (b in own && own[b] in Spots(i, off / BSIZE, (off + n - 1) / BSIZE))
        || b == inode
      ensures |logged - l| <= 7 + 4 + 1 + 9
    {
      hide Packed, WordAt, FreeMap, Spots, Tree, Covers, Unmapped;
      var lo, hi := off / BSIZE, (off + n - 1) / BSIZE;
      BlocksBelow(f, i, off);
      NineSpots(f, i, off, n);
      ChunkBlocks(off, n);
      SpotsSize(i, lo, hi);
      var news, x := own.Keys - o.Keys, logged - l;
      forall b | b in x && ForNew(sb, own, o, b)
        ensures exists m :: m in news && m / 4096 + sb.bmapstart == b
      {
        var m :| m in own && m !in o && BitmapBlock(sb, m) == b;
        assert m in news;
      }
      NewCount(S(), own, sb.first, news, Unmapped(f, i, lo, hi), Spots(i, lo, hi), sb.bmapstart, inode, x);
    }

    /** The bounds on what writei logs, its inode's block included. */
    lemma WriteCount(l: set<nat>, f: Fs, o: Owners, i: nat, off: nat, n: nat, l': set<nat>, own': Owners)
      requires Valid() && 0 < n <= CHUNK && (off + n - 1) / BSIZE < MAXFILE
      requires f.Shape() && i < |f.inodes| && off <= f.inodes[i].size && NoHoles(f, i, f.inodes[i].size)
      requires NewAt(f, o, i, off / BSIZE, (off + n - 1) / BSIZE)
      requires own' == own && l' <= logged <= l' + {InodeBlock(sb, i)}
      requires LoggedIn(sb, l', own', l, o, Spots(i, off / BSIZE, (off + n - 1) / BSIZE))
      ensures |logged - l| <= 7 + 4 + 1 + |sb.Maps(logged - l)| <= 7 + 4 + 1 + sb.MapBlocks()
      ensures |logged - l| <= 7 + 4 + 1 + 9
    {
      hide Packed, WordAt, FreeMap, Spots, Tree, NoHoles, Unmapped, InMap;
      var lo, hi := off / BSIZE, (off + n - 1) / BSIZE;
      ChunkBlocks(off, n);
      MapPlaces(l, o, i, lo, hi, InodeBlock(sb, i));
      LogCount(S(), own, sb.first, Spots(i, lo, hi), sb.bmapstart, sb.MapBlocks(), InodeBlock(sb, i), logged - l);
      SpotsSize(i, lo, hi);
      ChunkCount(l, f, o, i, off, n, InodeBlock(sb, i));
    }

    /** Write `src` to the file from byte `off` on. */
    method Writei(i: nat, src: seq<Byte>, off: nat) returns (r: IoResult)
      requires Valid() && i < |inodes| && off < UINT && |src| < UINT
      requires NoHoles(S(), i, inodes[i].size)
      modifies this`bits, this`bitmap, this`blocks, this`inodes, this`dinodes, this`own, this`logged
      ensures r.Device? <==> old(inodes[i]).kind == Dev
      ensures r.Refused? <==>
        old(inodes[i]).kind != Dev && (off > old(inodes[i]).size || off + |src| >= UINT || off + |src| > MAXSIZE)
      ensures r.Device? || r.Refused? ==>
        S() == old(S()) && bits == old(bits) && bitmap == old(bitmap) && own == old(own) && dinodes == old(dinodes)
          && logged == old(logged)
      ensures r.Panic? ==> NoneFree() && Count(off + |src|) > Count(old(inodes[i]).size)
      ensures 0 < |src| <= CHUNK && (r.Panic? || r.Moved?) ==>
        (r.Panic? <==> |Unset(old(bits))| < |Unmapped(old(S()), i, off / BSIZE, (off + |src| - 1) / BSIZE)|)
      ensures r.Moved? ==>
        && r.n == |src| && Valid() && Rewrote(old(S()), S(), i, off, src)
        && (forall j :: 0 <= j < |inodes| && old(dinodes[j] == inodes[j]) ==> dinodes[j] == inodes[j])
        && (|src| <= CHUNK ==>
          |logged - old(logged)| <= 7 + 4 + 1 + |sb.Maps(logged - old(logged))| <= 7 + 4 + 1 + sb.MapBlocks())
        && (|src| <= CHUNK ==> |logged - old(logged)| <= 7 + 4 + 1 + 9)
        && AllLogged(sb, old(Now()), Now()) && Kept(old(own), own)
    {
      hide AllLogged, Packed, WordAt, SetWord, Tree, FreeMap, Splice, SameData, Covers, Mapped, Bytes,
        FileSystem.NoneFree, Spots, Rewrote, InMap;
      if inodes[i].kind == Dev {
        return Device;
      }
      if off > inodes[i].size || (off + |src|) % UINT < off {
        return Refused;
      }
      if off + |src| > MAXSIZE {
        return Refused;
      }
      ghost var f := S();
      var ok := WriteLoop(i, src, off);
      if !ok {
        return Panic;
      }
      ghost var lg, og := logged, own;
      if |src| > 0 && off + |src| > inodes[i].size {
        ghost var g := S();
        inodes := inodes[i := inodes[i].(size := off + |src|)];
        WroteResized(f, g, own, sb.first, S(), i, off, src);
        ghost var now := Now();
        Iupdate(i);
        AllLoggedThen(sb, old(Now()), now, Now());
      } else {
        WroteRewrote(f, S(), i, off, src);
      }
      if 0 < |src| <= CHUNK {
        WriteCount(old(logged), f, old(own), i, off, |src|, lg, og);
      } else if |src| == 0 {
        assert logged - old(logged) == {};
        LogCount(S(), own, sb.first, {}, sb.bmapstart, sb.MapBlocks(), InodeBlock(sb, i), {});
      }
      return Moved(|src|);
    }

    /** One round of readi: part of the block that holds position `pos`. */
    method ReadPart(i: nat, pos: nat, m: nat) returns (part: seq<Byte>)
      requires Valid() && i < |inodes| && NoHoles(S(), i, inodes[i].size)
      requires 0 < m && pos + m <= inodes[i].size && pos % BSIZE + m <= BSIZE
      modifies this`bits, this`bitmap, this`blocks, this`inodes, this`own, this`logged
      ensures Valid() && S() == old(S()) && bits == old(bits) && own == old(own) && logged == old(logged)
      ensures part == Whole(S(), i)[pos..pos + m]
    {
      hide Packed, WordAt, SetWord, Tree, Extends, Touched, Path, Leaf, IsPlace, Bytes, FreeMap, Mapped,
        FileSystem.NoneFree;
      ReadPiece(S(), i, inodes[i].size, pos, m);
      var addr := Bmap(i, pos / BSIZE);
      FreeMapUnique(bits, old(bits), own.Keys, sb.first);
      part := blocks[addr.value][pos % BSIZE..pos % BSIZE + m];
    }

    /** Read up to `n` bytes of the file from byte `off` on; reading changes nothing. */
    method Readi(i: nat, off: nat, n: nat) returns (r: IoResult, dst: seq<Byte>)
      requires Valid() && i < |inodes| && off < UINT && n < UINT
      requires NoHoles(S(), i, inodes[i].size)
      modifies this`bits, this`bitmap, this`blocks, this`inodes, this`own, this`logged
      ensures Valid() && S() == old(S()) && bits == old(bits) && own == old(own) && logged == old(logged)
      ensures r.Device? <==> inodes[i].kind == Dev
      ensures r.Refused? <==> inodes[i].kind != Dev && (off > inodes[i].size || off + n >= UINT)
      ensures !r.Panic?
      ensures r.Moved? ==>
        && r.n == (if off + n > inodes[i].size then inodes[i].size - off else n)
        && dst == Whole(S(), i)[off..off + r.n]
    {
      hide Packed, Tree, FreeMap, NoHoles, Covers, Bytes, Whole;
      dst := [];
      if inodes[i].kind == Dev {
        return Device, [];
      }
      if off > inodes[i].size || (off + n) % UINT < off {
        return Refused, [];
      }
      var n := if off + n > inodes[i].size then inodes[i].size - off else n;
      dst := ReadLoop(i, off, n);
      return Moved(n), dst;
    }

    /** readi's loop over the blocks of the range. */
    method ReadLoop(i: nat, off: nat, n: nat) returns (dst: seq<Byte>)
      requires Valid() && i < |inodes| && NoHoles(S(), i, inodes[i].size) && off + n <= inodes[i].size
      modifies this`bits, this`bitmap, this`blocks, this`inodes, this`own, this`logged
      ensures Valid() && S() == old(S()) && bits == old(bits) && own == old(own) && logged == old(logged)
      ensures dst == Whole(S(), i)[off..off + n]
    {
      hide Packed, Tree, FreeMap, NoHoles, Covers, Bytes, Whole;
      dst := [];
      ghost var f, file := S(), Whole(S(), i);
      var tot := 0;
      while tot < n
        invariant tot <= n && Valid() && S() == f && own == old(own) && bits == old(bits) && logged == old(logged)
        invariant dst == file[off..off + tot]
      {
        var pos := off + tot;
        var m := if n - tot < BSIZE - pos % BSIZE then n - tot else BSIZE - pos % BSIZE;
        var part := ReadPart(i, pos, m);
        Slices(file, off, pos, pos + m);
        dst := dst + part;
        tot := tot + m;
      }
    }

    /** What writei has stored is what readi gives back. */
    method WriteThenRead(i: nat, src: seq<Byte>, off: nat) returns (w: IoResult, dst: seq<Byte>)
      requires Valid() && i < |inodes| && off < UINT && |src| < UINT
      requires NoHoles(S(), i, inodes[i].size)
      modifies this`bits, this`bitmap, this`blocks, this`inodes, this`dinodes, this`own, this`logged
      ensures w.Moved? ==> Valid() && dst == src && Rewrote(old(S()), S(), i, off, src)
    {
      hide Packed, Tree, FreeMap, Rewrote, NoHoles, Splice, OthersSame, FileSystem.NoneFree;
      ghost var f := S();
      w := Writei(i, src, off);
      dst := [];
      if w.Moved? {
        RewroteFacts(f, S(), i, off, src);
        SpliceReadsBack(Whole(f, i), off, src);
        var r;
        r, dst := Readi(i, off, |src|);
      }
    }

    /** Free the block `a` and, if it holds block numbers, everything below it. */
    method FreeTree(a: nat, h: nat, ghost q: Place, ghost f: Fs) returns (panic: bool)
      requires Tree(f, own, sb.first) && f.blocks == blocks && |bits| == |blocks| == sb.size && Packed(bitmap, bits)
      requires f.Has(q) && Height(q) == h && 0 < a < |blocks| && f.Ptr(q) == a
      requires forall b :: b in own && q in Path(own[b]) ==> bits[b]
      modifies this`bits, this`bitmap, this`logged
      ensures !panic && |bits| == old(|bits|) && Packed(bitmap, bits)
      ensures forall b :: 0 <= b < |bits| ==> (bits[b] <==> old(bits[b]) && !(b in own && q in Path(own[b])))
      ensures forall b :: b in logged ==> b in old(logged) || sb.InBitmap(b)
      ensures AllLogged(sb, old(Now()), Now())
      decreases h
    {
      hide Packed, WordAt, SetWord, AllLogged;
      AllLoggedSelf(sb, Now());
      ghost var now;
      if h > 0 {
        var k := 0;
        while k < NINDIRECT
          invariant k <= NINDIRECT && |bits| == |blocks| && Packed(bitmap, bits)
          invariant forall b :: 0 <= b < |bits| ==>
            (bits[b] <==> old(bits[b]) && !(b in own && q in Path(own[b]) && own[b] != q && Via(own[b], q) < k))
          invariant forall b :: b in logged ==> b in old(logged) || sb.InBitmap(b)
          invariant AllLogged(sb, old(Now()), Now())
        {
          var c := WordAt(blocks[a], k);
          ghost var p := Child(q, k);
          assert f.Has(p) && f.Ptr(p) == c;
          forall b | b in own
            ensures p in Path(own[b]) <==> q in Path(own[b]) && own[b] != q && Via(own[b], q) == k
          {
            ViaChild(own[b], q, k);
          }
          if c != 0 {
            now := Now();
            panic := FreeTree(c, h - 1, p, f);
            AllLoggedThen(sb, old(Now()), now, Now());
          } else {
            NothingBelow(f, own, sb.first, p);
          }
          k := k + 1;
        }
      }
      forall b | b in own && q in Path(own[b])
        ensures own[b] != q ==> h > 0 && Via(own[b], q) < NINDIRECT
      {
        PathPlaces(own[b], q, |f.inodes|);
      }
      now := Now();
      panic := Bfree(a);
      AllLoggedThen(sb, old(Now()), now, Now());
    }

    /**
     * Since the state `f`, `was` and `l` the slots of inode `i` below `s` were cleared and
     * what they led to was freed.
     */
    ghost predicate Cleared(f: Fs, was: seq<bool>, l: set<nat>, i: nat, s: nat)
      reads this
    {
      && blocks == f.blocks && |bits| == |was| && Packed(bitmap, bits) && i < |inodes| == |f.inodes|
      && (forall j :: 0 <= j < |inodes| && j != i ==> inodes[j] == f.inodes[j])
      && inodes[i].(addrs := []) == f.inodes[i].(addrs := [])
      && |inodes[i].addrs| == |f.inodes[i].addrs| == NADDRS
      && (forall t :: 0 <= t < NADDRS ==> inodes[i].addrs[t] == if t < s then 0 else f.inodes[i].addrs[t])
      && (forall b :: 0 <= b < |bits| ==> (bits[b] <==> was[b] && !(b in own && Inum(own[b]) == i && Slot(own[b]) < s)))
      && (forall b :: b in logged ==> b in l || sb.InBitmap(b))
    }

    method TruncSlot(i: nat, s: nat, h: nat, ghost f: Fs, ghost was: seq<bool>, ghost l: set<nat>) returns (panic: bool)
      requires Tree(f, own, sb.first) && FreeMap(was, own.Keys, sb.first) && |blocks| == |bits| == sb.size
        && Packed(bitmap, bits)
      requires s < NADDRS && Height(Root(i, s)) == h && Cleared(f, was, l, i, s)
      modifies this`bits, this`bitmap, this`logged, this`inodes
      ensures !panic && Cleared(f, was, l, i, s + 1) && AllLogged(sb, old(Now()), Now())
    {
      hide Packed, WordAt, SetWord, AllLogged;
      AllLoggedSelf(sb, Now());
      panic := false;
      ghost var q := Root(i, s);
      forall b | b in own
        ensures q in Path(own[b]) <==> Inum(own[b]) == i && Slot(own[b]) == s
      {
        if q in Path(own[b]) {
          PathPlaces(own[b], q, |f.inodes|);
        } else {
          PathPlaces(own[b], own[b], |f.inodes|);
        }
      }
      var a := inodes[i].addrs[s];
      assert f.Ptr(q) == a;
      if a != 0 {
        panic := FreeTree(a, h, q, f);
        inodes := inodes[i := inodes[i].(addrs := inodes[i].addrs[s := 0])];
      } else {
        NothingBelow(f, own, sb.first, q);
      }
    }

    /** The four parts of itrunc: the direct blocks, then the three levels of indirect ones. */
    method ClearSlots(i: nat, ghost f: Fs, ghost was: seq<bool>, ghost l: set<nat>) returns (panic: bool)
      requires Tree(f, own, sb.first) && FreeMap(was, own.Keys, sb.first) && |f.blocks| == |was| == sb.size
      requires Cleared(f, was, l, i, 0)
      modifies this`bits, this`bitmap, this`logged, this`inodes
      ensures !panic && Cleared(f, was, l, i, NADDRS) && AllLogged(sb, old(Now()), Now())
    {
      hide Packed, Tree, FreeMap, Path, Slot, AllLogged;
      ghost var x, now := Now(), Now();
      AllLoggedSelf(sb, x);
      var s := 0;
      while s < NDIRECT
        invariant s <= NDIRECT && Cleared(f, was, l, i, s) && AllLogged(sb, x, Now())
      {
        now := Now();
        panic := TruncSlot(i, s, 0, f, was, l);
        AllLoggedThen(sb, x, now, Now());
        s := s + 1;
      }
      now := Now();
      panic := TruncSlot(i, NDIRECT, 1, f, was, l);
      AllLoggedThen(sb, x, now, Now());
      now := Now();
      panic := TruncSlot(i, NDIRECT + 1, 2, f, was, l);
      AllLoggedThen(sb, x, now, Now());
      now := Now();
      panic := TruncSlot(i, NDIRECT + 2, 3, f, was, l);
      AllLoggedThen(sb, x, now, Now());
    }

    /** With every slot cleared, the free map has lost the inode's blocks and no others. */
    lemma AllCleared(f: Fs, was: seq<bool>, l: set<nat>, i: nat)
      requires Tree(f, own, sb.first) && FreeMap(was, own.Keys, sb.first) && Cleared(f, was, l, i, NADDRS)
      ensures forall b :: 0 <= b < |bits| ==> (bits[b] <==> was[b] && !(b in own && Inum(own[b]) == i))
      ensures FreeMap(bits, OtherOwners(own, i).Keys, sb.first)
      ensures inodes[i].addrs == seq(NADDRS, _ => 0)
    {
      SlotBound(f, own, sb.first);
    }

    /** Truncate inode `i`: exactly its blocks become free, and no block is freed twice. */
    method Itrunc(i: nat) returns (panic: bool)
      requires Valid() && i < |inodes|
      modifies this`bits, this`bitmap, this`logged, this`inodes, this`dinodes, this`own
      ensures !panic && Valid() && |inodes| == old(|inodes|) && blocks == old(blocks)
      ensures own == OtherOwners(old(own), i)
      ensures forall b :: 0 <= b < |bits| ==> (bits[b] <==> old(bits[b]) && !(b in old(own) && Inum(old(own)[b]) == i))
      ensures inodes[i] == old(inodes[i]).(size := 0, addrs := seq(NADDRS, _ => 0))
        && dinodes == old(dinodes)[i := inodes[i]]
      ensures forall j :: 0 <= j < |inodes| && j != i ==> inodes[j] == old(inodes[j])
      ensures forall p :: old(S()).Has(p) ==> S().Ptr(p) == if Inum(p) == i then 0 else old(S().Ptr(p))
      ensures |logged - old(logged)| <= 1 + |sb.Maps(logged - old(logged))| <= 1 + sb.MapBlocks()
      ensures AllLogged(sb, old(Now()), Now())
    {
      hide AllLogged, Packed, WordAt, SetWord, Tree, FreeMap, Inum, Slot, IsPlace, OtherOwners, InMap;
      ghost var f, was, l, o := S(), bits, logged, own;
      InUse(f, o, sb.first, Root(i, 0));
      panic := ClearSlots(i, f, was, l);
      AllCleared(f, was, l, i);
      inodes := inodes[i := inodes[i].(size := 0)];
      own := OtherOwners(o, i);
      assert S().Shape();
      Truncated(f, o, sb.first, i, S(), own);
      ghost var now := Now();
      Iupdate(i);
      AllLoggedThen(sb, old(Now()), now, Now());
      LogCount(S(), own, sb.first, {}, sb.bmapstart, sb.MapBlocks(), InodeBlock(sb, i), logged - old(logged));
    }

    /** One operation of filewrite, with `k` bytes written since the state `f`. */
    method NextChunk(i: nat, addr: seq<Byte>, off: nat, k: nat, ghost f: Fs) returns (m: IoResult)
      requires Valid() && k < |addr| && Progress(f, S(), i, addr, off, k)
      modifies this`bits, this`bitmap, this`blocks, this`inodes, this`dinodes, this`own, this`logged
      ensures m.Moved? ==> |logged| <= 7 + 4 + 1 + sb.MapBlocks() && |logged| <= 7 + 4 + 1 + 9
      ensures m.Device? <==> f.inodes[i].kind == Dev
      ensures m.Device? || m.Refused? ==> Valid() && S() == old(S())
      ensures m.Refused? <==>
        f.inodes[i].kind != Dev
          && if k == 0 && off > f.inodes[i].size then true else off + k + ChunkOf(|addr| - k) > MAXSIZE
      ensures m.Panic? ==> NoneFree()
      ensures m.Moved? ==> Valid() && Progress(f, S(), i, addr, off, k + ChunkOf(|addr| - k))
    {
      hide Packed, Tree, FreeMap, Rewrote, NoHoles, FileSystem.NoneFree, AllLogged, Unmapped, Unset, InMap;
      var n1 := ChunkOf(|addr| - k);
      logged := {};
      ghost var g := S();
      m := Writei(i, addr[k..k + n1], off + k);
      assert logged - {} == logged;
      if m.Moved? {
        RewroteFacts(g, S(), i, off + k, addr[k..k + n1]);
        if k > 0 {
          RewroteTwice(f, g, S(), i, off, addr[..k], addr[k..k + n1]);
        }
        assert addr[..k] + addr[k..k + n1] == addr[..k + n1];
      }
    }

    /**
     * filewrite: the bytes go to the file in chunks, one operation of the log each. `off` is the file
     * offset before and after, and `worst` the most blocks that one of the operations logged.
     */
    method Filewrite(i: nat, addr: seq<Byte>, off: nat) returns (r: IoResult, end: nat, ghost worst: nat)
      requires Valid() && i < |inodes| && off < UINT
      requires NoHoles(S(), i, inodes[i].size)
      modifies this`bits, this`bitmap, this`blocks, this`inodes, this`dinodes, this`own, this`logged
      ensures worst <= 7 + 4 + 1 + sb.MapBlocks() && worst <= 7 + 4 + 1 + 9
      ensures r.Device? <==> old(inodes[i]).kind == Dev && addr != []
      ensures r.Device? ==> end == off
      ensures r.Panic? ==> NoneFree()
      ensures !r.Panic? ==> Valid() && off <= end <= off + |addr|
      ensures r.Moved? ==> r.n == |addr| && end == off + |addr|
      ensures !r.Panic? ==>
        (r.Refused? <==>
          old(inodes[i]).kind != Dev && addr != [] && (off > old(inodes[i]).size || off + |addr| > MAXSIZE))
      ensures r.Refused? ==>
        && (end - off) % CHUNK == 0 && (off > old(inodes[i]).size ==> end == off)
        && (off <= old(inodes[i]).size ==> end <= MAXSIZE < end + ChunkOf(|addr| - (end - off)))
      ensures !r.Panic? && end == off ==> S() == old(S())
      ensures !r.Panic? && end > off ==> Rewrote(old(S()), S(), i, off, addr[..end - off])
    {
      hide Packed, Tree, FreeMap, Rewrote, NoHoles, FileSystem.NoneFree, AllLogged;
      worst := 0;
      ghost var f := S();
      SizeBound(f, i, inodes[i].size);
      ghost var chunks := 0;
      var k := 0;
      while k < |addr|
        invariant Valid() && Progress(f, S(), i, addr, off, k) && (k == |addr| || k == chunks * CHUNK)
        invariant worst <= 7 + 4 + 1 + sb.MapBlocks() && worst <= 7 + 4 + 1 + 9
      {
        WholeChunks(chunks);
        var m := NextChunk(i, addr, off, k, f);
        if !m.Moved? {
          return m, off + k, worst;
        }
        worst := if |logged| > worst then |logged| else worst;
        k, chunks := k + ChunkOf(|addr| - k), chunks + 1;
      }
      return Moved(|addr|), off + k, worst;
    }
  }

  /** The bytes of the next chunk when `n` are left. */
  function ChunkOf(n: nat): nat {
    if n > CHUNK then CHUNK else n
  }

  /** The first `k` bytes of `addr` have been written from `off` on. */
  ghost predicate Progress(f: Fs, g: Fs, i: nat, addr: seq<Byte>, off: nat, k: nat) {
    && k <= |addr| && i < |f.inodes| == |g.inodes| && g.inodes[i].kind == f.inodes[i].kind && off + k < UINT
    && NoHoles(g, i, g.inodes[i].size)
    && (k > 0 ==>
      f.inodes[i].kind != Dev && off <= f.inodes[i].size && off + k <= g.inodes[i].size && off + k <= MAXSIZE)
    && if k == 0 then g == f else Rewrote(f, g, i, off, addr[..k])
  }

  lemma WholeChunks(n: nat)
    ensures n * CHUNK % CHUNK == 0 && (n + 1) * CHUNK == n * CHUNK + CHUNK
  {
  }

  lemma SizeBound(fs: Fs, i: nat, len: nat)
    requires NoHoles(fs, i, len)
    ensures len <= MAXSIZE
  {
  }
}
