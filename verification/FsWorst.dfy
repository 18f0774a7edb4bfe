/** file.c and fs.c: a chunk of a write that logs 21 blocks, one more than MAXOPBLOCKS allows for. */
module FsWorst {
  import opened Kinds
  import opened Blocks
  import opened Collections
  import opened FsTree
  import opened FsContents
  import opened FsLogBound
  import opened FileSystem
  import opened Bitmap

  /** The super block that mkfs writes: FSSIZE blocks, a log of LOGSIZE, NINODES inodes. */
  const SHIPPED := Superblock(40000, 62, 88, 98)
  const NINODES: nat := 200
  const MAXOPBLOCKS: nat := 20

  /** The middle of block 16519, three blocks before those that need the triple indirect block. */
  const OFF: nat := 8457984

  // ----- the blocks that the chunk adds -----

  /** The nine places that a chunk written from `OFF` fills: six of data blocks and the three above the last of them. */
  function Fresh(i: nat, k: nat): Place
    requires k < 9
  {
    if k < 6 then Leaf(i, 16520 + k)
    else if k == 6 then Root(i, 12)
    else if k == 7 then Child(Root(i, 12), 0)
    else Child(Child(Root(i, 12), 0), 0)
  }

  lemma FreshPlace(i: nat, k: nat, ninodes: nat)
    requires k < 9 && i < ninodes
    ensures var p := Fresh(i, k);
      && IsPlace(p, ninodes) && Height(p) == (if k < 6 then 0 else 9 - k)
      && (k < 6 ==> First(p) == 16520 + k)
  {
    hide IsPlace, Height, First, Leaf;
    if k < 6 {
      LeafFirst(i, 16520 + k, ninodes);
    } else {
      RootPlace(i, 12, ninodes);
      ChildPlace(Root(i, 12), 0, ninodes);
      ChildPlace(Child(Root(i, 12), 0), 0, ninodes);
    }
  }

  lemma FreshApart(i: nat, j: nat, k: nat)
    requires j < k < 9
    ensures Fresh(i, j) != Fresh(i, k)
  {
    hide Fresh, Height, First, IsPlace;
    FreshPlace(i, j, i + 1);
    FreshPlace(i, k, i + 1);
  }

  /** Nothing is below an empty place, nor above a full one. */
  lemma NoneBelow(f: Fs, p: Place, k: nat)
    requires f.Shape() && f.Has(Child(p, k)) && f.Ptr(p) == 0
    ensures f.Ptr(Child(p, k)) == 0
  {
  }

  lemma EmptyBefore(f: Fs, i: nat, k: nat)
    requires i < |f.inodes| && NoHoles(f, i, OFF) && f.Ptr(Root(i, 12)) == 0 && k < 9
    ensures f.Has(Fresh(i, k)) && f.Ptr(Fresh(i, k)) == 0
  {
    hide Leaf, Fs.Ptr, IsPlace;
    FreshPlace(i, k, |f.inodes|);
    if k < 6 {
      assert LeafPtr(f, i, 16520 + k) == 0;
    } else if k > 6 {
      FreshPlace(i, 7, |f.inodes|);
      FreshPlace(i, 8, |f.inodes|);
      NoneBelow(f, Root(i, 12), 0);
      NoneBelow(f, Child(Root(i, 12), 0), 0);
    }
  }

  lemma FirstTriple(i: nat)
    ensures Leaf(i, 16522) == Child(Child(Child(Root(i, 12), 0), 0), 0)
  {
  }

  lemma FullAfter(g: Fs, i: nat, k: nat)
    requires i < |g.inodes| && NoHoles(g, i, OFF + CHUNK) && k < 9
    ensures g.Has(Fresh(i, k)) && g.Ptr(Fresh(i, k)) != 0
  {
    hide Leaf, Fs.Ptr, IsPlace;
    FreshPlace(i, k, |g.inodes|);
    if k < 6 {
      assert LeafPtr(g, i, 16520 + k) != 0;
    } else {
      assert LeafPtr(g, i, 16522) != 0;
      FirstTriple(i);
      LeafFirst(i, 16522, |g.inodes|);
      FreshPlace(i, 6, |g.inodes|);
      FreshPlace(i, 7, |g.inodes|);
      FreshPlace(i, 8, |g.inodes|);
      UpFull(g, Child(Child(Root(i, 12), 0), 0), 0);
      UpFull(g, Child(Root(i, 12), 0), 0);
      UpFull(g, Root(i, 12), 0);
    }
  }

  lemma UpFull(g: Fs, p: Place, k: nat)
    requires g.Shape() && g.Has(p) && g.Has(Child(p, k)) && g.Ptr(Child(p, k)) != 0
    ensures g.Ptr(p) != 0
  {
  }

  /** The block numbers at the first `k` of the nine places. */
  ghost function Numbers(g: Fs, i: nat, k: nat): set<nat>
    requires g.Shape() && i < |g.inodes| && k <= 9
  {
    if k == 0 then {} else
      FreshPlace(i, k - 1, |g.inodes|);
      Numbers(g, i, k - 1) + {g.Ptr(Fresh(i, k - 1))}
  }

  lemma {:induction false} NumbersCount(f: Fs, o: Owners, g: Fs, own: Owners, first: nat, i: nat, k: nat)
    requires i < |f.inodes| && i < |g.inodes| && k <= 9
    requires Tree(f, o, first) && NoHoles(f, i, OFF) && f.Ptr(Root(i, 12)) == 0
    requires Tree(g, own, first) && NoHoles(g, i, OFF + CHUNK) && Kept(o, own)
    ensures |Numbers(g, i, k)| == k
    ensures forall b :: b in Numbers(g, i, k) ==> b in own && b !in o && exists j: nat :: j < k && own[b] == Fresh(i, j)
  {
    hide Fs.Ptr, Fresh, NoHoles, IsPlace;
    if k > 0 {
      var p := Fresh(i, k - 1);
      NumbersCount(f, o, g, own, first, i, k - 1);
      EmptyBefore(f, i, k - 1);
      FullAfter(g, i, k - 1);
      var b := g.Ptr(p);
      assert own[b] == p;
      if b in Numbers(g, i, k - 1) {
        var j: nat :| j < k - 1 && own[b] == Fresh(i, j);
        FreshApart(i, j, k - 1);
      }
    }
  }

  // ----- a disk with nine free blocks, each in another block of the free map -----

  /** `n` numbers from `x` on, `d` apart. */
  ghost function Every(x: nat, d: nat, n: nat): (s: set<nat>)
    requires d > 0
    ensures forall b :: b in s ==> x <= b < x + d * n
    ensures |s| == n
  {
    if n == 0 then {} else
      assert d * n == d * (n - 1) + d;
      Every(x, d, n - 1) + {x + d * (n - 1)}
  }

  lemma {:induction false} EveryHas(x: nat, d: nat, n: nat, j: nat)
    requires j < n && d > 0
    ensures x + d * j in Every(x, d, n)
  {
    if j < n - 1 {
      EveryHas(x, d, n - 1, j);
    }
  }

  lemma {:induction false} EveryIs(x: nat, d: nat, n: nat, b: nat)
    requires d > 0 && b in Every(x, d, n)
    ensures exists j: nat :: j < n && b == x + d * j
  {
    if b != x + d * (n - 1) {
      EveryIs(x, d, n - 1, b);
    }
  }

  /** Block 200 of each of the first nine stretches of 4096 blocks. */
  ghost function Vacancies(): set<nat> {
    Every(200, 4096, 9)
  }

  /**
   * The disk image of the shipped size with nine blocks free, and a file that ends in the middle of its 16520-th
   * block, at the beginning of an operation.
   */
  ghost predicate Tight(fs: FileSystem, i: nat)
    reads fs
  {
    && fs.Valid() && fs.sb == SHIPPED && i < |fs.inodes| && i < NINODES && fs.logged == {}
    && Unset(fs.bits) == Vacancies()
    && fs.inodes[i].kind == File && fs.inodes[i].size == OFF && fs.dinodes[i] == fs.inodes[i]
    && NoHoles(fs.S(), i, OFF) && fs.S().Ptr(Root(i, 12)) == 0
  }

  /** The nine places take all the free blocks. */
  lemma FreeTaken(f: Fs, o: Owners, g: Fs, own: Owners, first: nat, i: nat)
    requires i < |f.inodes| && i < |g.inodes|
    requires Tree(f, o, first) && NoHoles(f, i, OFF) && f.Ptr(Root(i, 12)) == 0
    requires Tree(g, own, first) && NoHoles(g, i, OFF + CHUNK) && Kept(o, own)
    requires forall b :: b in own && b !in o ==> b in Vacancies()
    ensures forall b :: b in Vacancies() ==> b in own && b !in o
  {
    hide Every, Numbers, Kept, Fs.Ptr, IsPlace;
    NumbersCount(f, o, g, own, first, i, 9);
    var n := Numbers(g, i, 9);
    forall b | b in Vacancies()
      ensures b in n
    {
      if b !in n {
        Subset(n, Vacancies() - {b});
      }
    }
  }

  /** The block that the file ends in gets other bytes. */
  lemma LastChanges(f: Fs, o: Owners, g: Fs, own: Owners, first: nat, i: nat, src: seq<Byte>)
    requires Tree(f, o, first) && Tree(g, own, first) && Kept(o, own) && i < |f.inodes|
    requires f.inodes[i].size == OFF && |src| == CHUNK && Rewrote(f, g, i, OFF, src)
    requires 0 < LeafPtr(f, i, 16519) < |f.blocks| && f.blocks[LeafPtr(f, i, 16519)][256] != src[0]
    ensures var b := LeafPtr(f, i, 16519);
      b in o && o[b] == Leaf(i, 16519) && b < |g.blocks| && g.blocks[b] != f.blocks[b]
  {
    hide Fs.Ptr, Leaf, IsPlace, OthersSame, Mapped;
    var b := LeafPtr(f, i, 16519);
    LeafFirst(i, 16519, |f.inodes|);
    InUse(f, o, first, Leaf(i, 16519));
    RewroteFacts(f, g, i, OFF, src);
    assert LeafPtr(g, i, 16519) == b;
    assert Whole(g, i)[OFF] == src[0];
    assert ByteAt(g, i, g.inodes[i].size, OFF) == g.blocks[b][256];
  }

  lemma InLastDouble(i: nat)
    ensures Leaf(i, 16519) == Child(Child(Root(i, 11), 127), 125)
    ensures Leaf(i, 16520) == Child(Child(Root(i, 11), 127), 126)
  {
  }

  /** And so does the last of the blocks that the double indirect block names. */
  lemma DoubleChanges(f: Fs, o: Owners, g: Fs, own: Owners, first: nat, i: nat)
    requires Tree(f, o, first) && Tree(g, own, first) && Kept(o, own) && i < |f.inodes| == |g.inodes|
    requires |f.blocks| == |g.blocks| && NoHoles(f, i, OFF) && NoHoles(g, i, OFF + CHUNK)
    ensures var q := Child(Root(i, 11), 127);
      && f.Has(q)
      && var c := f.Ptr(q);
      c in o && o[c] == q && c < |g.blocks| && g.blocks[c] != f.blocks[c]
  {
    hide Fs.Ptr, Leaf, IsPlace, WordAt;
    InLastDouble(i);
    var q := Child(Root(i, 11), 127);
    LeafFirst(i, 16519, |f.inodes|);
    LeafFirst(i, 16520, |f.inodes|);
    LeafPlaces(i, 16519, |f.inodes|);
    assert LeafPtr(f, i, 16519) != 0 && LeafPtr(f, i, 16520) == 0 && LeafPtr(g, i, 16520) != 0;
    UpFull(f, q, 125);
    InUse(f, o, first, q);
    InUse(f, o, first, Child(q, 126));
    InUse(g, own, first, Child(q, 126));
  }

  /** What is logged, when the free blocks are taken and two others and the inode change. */
  lemma TwentyOne(x: Snap, y: Snap, i: nat, b: nat, c: nat)
    requires AllLogged(SHIPPED, x, y) && i < NINODES && i < |x.dinodes| && y.dinodes[i] != x.dinodes[i]
    requires |x.bits| == 40000 && forall n :: n in Vacancies() ==> n < |x.bits| && y.bits[n] && !x.bits[n]
    requires b != c && {b, c} <= y.logged && b >= 98 && c >= 98 && b !in Vacancies() && c !in Vacancies()
    ensures |y.logged| >= 21
  {
    hide Every;
    var maps, inode := Every(88, 1, 9), InodeBlock(SHIPPED, i);
    assert inode in y.logged && inode < 88;
    assert Vacancies() <= y.logged;
    forall m | m in maps
      ensures m in y.logged
    {
      EveryIs(88, 1, 9, m);
      var j: nat :| j < 9 && m == 88 + 1 * j;
      EveryHas(200, 4096, 9, j);
      var n := 200 + 4096 * j;
      assert y.bits[n] != x.bits[n];
      assert BitmapBlock(SHIPPED, n) == m;
    }
    assert maps !! Vacancies();
    assert |maps + Vacancies()| == 18;
    var all := maps + Vacancies() + {inode, b, c};
    assert |all| == 21;
    Subset(all, y.logged);
  }

  /** The byte in the middle of block 16519 of the file. */
  ghost predicate Middle(f: Fs, i: nat, w: Byte) {
    && f.Shape() && i < |f.inodes|
    && var b := LeafPtr(f, i, 16519);
    0 < b < |f.blocks| && f.blocks[b][256] == w
  }

  lemma MiddleOther(f: Fs, i: nat, w: Byte)
    requires i < |f.inodes| && NoHoles(f, i, OFF) && !Middle(f, i, w)
    ensures 0 < LeafPtr(f, i, 16519) < |f.blocks| && f.blocks[LeafPtr(f, i, 16519)][256] != w
  {
  }

  lemma ChunkLogs(f: Fs, o: Owners, x: Snap, g: Fs, own: Owners, y: Snap, i: nat, src: seq<Byte>)
    requires Tree(f, o, 98) && FreeMap(x.bits, o.Keys, 98) && x.blocks == f.blocks && |x.bits| == |f.blocks| == 40000
    requires Tree(g, own, 98) && FreeMap(y.bits, own.Keys, 98) && y.blocks == g.blocks
      && |y.bits| == |g.blocks| == 40000
    requires i < |f.inodes| == |x.dinodes| == |g.inodes| == |y.dinodes| && i < NINODES
    requires x.dinodes[i] == f.inodes[i] && y.dinodes[i] == g.inodes[i]
    requires Unset(x.bits) == Vacancies() && f.inodes[i].size == OFF && NoHoles(f, i, OFF) && f.Ptr(Root(i, 12)) == 0
    requires AllLogged(SHIPPED, x, y) && Kept(o, own)
    requires |src| == CHUNK && !Middle(f, i, src[0]) && Rewrote(f, g, i, OFF, src)
    ensures |y.logged| >= 21
  {
    hide Fs.Ptr, IsPlace, Rewrote, Every, Middle, NoHoles, Splice;
    RewroteFacts(f, g, i, OFF, src);
    MiddleOther(f, i, src[0]);
    FreeTaken(f, o, g, own, 98, i);
    LastChanges(f, o, g, own, 98, i, src);
    DoubleChanges(f, o, g, own, 98, i);
    InLastDouble(i);
    TwentyOne(x, y, i, LeafPtr(f, i, 16519), f.Ptr(Child(Root(i, 11), 127)));
  }

  lemma NineNeeded(f: Fs, i: nat)
    requires i < |f.inodes| && f.inodes[i].size == OFF && NoHoles(f, i, OFF)
    ensures |Unmapped(f, i, OFF / BSIZE, (OFF + CHUNK - 1) / BSIZE)| <= 9
  {
    BlocksBelow(f, i, OFF);
    NineSpots(f, i, OFF, CHUNK);
  }

  /** From such a state a chunk logs exactly 21 blocks. */
  method FullChunk(fs: FileSystem, i: nat, src: seq<Byte>) returns (r: IoResult)
    requires Tight(fs, i) && |src| == CHUNK && !Middle(fs.S(), i, src[0])
    modifies fs
    ensures r == Moved(CHUNK) && fs.Valid() && Rewrote(old(fs.S()), fs.S(), i, OFF, src)
    ensures |fs.logged| == 21 > MAXOPBLOCKS
  {
    hide Tree, FreeMap, Packed, Rewrote, AllLogged, NoHoles, Unset, Unmapped, Middle, Every, Kept, InMap;
    ghost var f, o, x := fs.S(), fs.own, fs.Now();
    r := fs.Writei(i, src, OFF);
    NineNeeded(f, i);
    RewroteFacts(f, fs.S(), i, OFF, src);
    ChunkLogs(f, o, x, fs.S(), fs.own, fs.Now(), i, src);
    assert fs.logged - {} == fs.logged;
  }
}
