/** file.c and fs.c: how many blocks one chunk of a write can log. */
module FsLogBound {
  import opened Collections
  import opened Blocks
  import opened FsTree

  /** filewrite's chunk: ((MAXOPBLOCKS-1-3-4) / 2) * 512 */
  const CHUNK: nat := 3072

  /** The first block of a run of blocks that share an indirect block. */
  predicate Boundary(bn: nat) {
    bn == 10 || (138 <= bn && (bn - 138) % 128 == 0)
  }

  /** Between boundaries consecutive blocks have their numbers in the same indirect block. */
  lemma SameParent(i: nat, bn: nat)
    requires 10 < bn < MAXFILE && !Boundary(bn)
    ensures Leaf(i, bn).Child? && Leaf(i, bn - 1).Child? && Leaf(i, bn - 1).parent == Leaf(i, bn).parent
  {
    if 16522 < bn {
      var r := bn - 16522;
      NextDigit(r);
      Digits(r);
      Digits(r - 1);
    } else if 138 < bn {
      NextDigit(bn - 138);
    }
  }

  lemma NextDigit(r: nat)
    requires r % 128 != 0
    ensures r > 0 && (r - 1) / 128 == r / 128
  {
    DivUnique(r - 1, r / 128, r % 128 - 1);
  }

  /** The first boundary from `bn` on. */
  function NextBoundary(bn: nat): (x: nat)
    ensures bn <= x && Boundary(x) && (forall y :: bn <= y < x ==> !Boundary(y))
  {
    if bn <= 10 then 10 else if bn <= 138 then 138 else 138 + (bn - 138 + 127) / 128 * 128
  }

  lemma BoundariesApart(x: nat, y: nat)
    requires Boundary(x) && Boundary(y) && x < y
    ensures y >= x + 128
  {
  }

  /** The indirect blocks above a data block. */
  function Above(i: nat, bn: nat): (s: set<Place>)
    requires bn < MAXFILE
  {
    var p := Leaf(i, bn);
    if p.Root? then {} else Path(p.parent)
  }

  lemma AboveSize(i: nat, bn: nat)
    requires bn < MAXFILE
    ensures |Above(i, bn)| <= 3
    ensures Leaf(i, bn).Child? ==> Leaf(i, bn).parent in Above(i, bn)
  {
    var p := Leaf(i, bn);
    if bn < 10 {
    } else if bn < 138 {
      SmallSet(Path(p.parent), p.parent, p.parent, p.parent);
    } else if bn < 16522 {
      assert Path(p.parent.parent) == {p.parent.parent};
      SmallSet(Path(p.parent), p.parent, p.parent.parent, p.parent);
    } else {
      assert Path(p.parent.parent.parent) == {p.parent.parent.parent};
      assert Path(p.parent.parent) == {p.parent.parent, p.parent.parent.parent};
      SmallSet(Path(p.parent), p.parent, p.parent.parent, p.parent.parent.parent);
    }
  }

  lemma SmallSet<T>(s: set<T>, x: T, y: T, z: T)
    requires s <= {x, y, z}
    ensures |s| <= 3
  {
    Subset(s, {x, y, z});
  }

  /**
   * Where a write of blocks `lo` to `hi` can store: the data blocks, the first one's indirect
   * block, and those above a boundary.
   */
  ghost function Spots(i: nat, lo: nat, hi: nat): set<Place>
    requires lo <= hi < MAXFILE
  {
    DataSpots(i, lo, hi) + IndirectSpots(i, lo, hi)
  }

  ghost function DataSpots(i: nat, lo: nat, hi: nat): set<Place>
    requires lo <= hi < MAXFILE
    decreases hi - lo
  {
    {Leaf(i, hi)} + if lo < hi then DataSpots(i, lo, hi - 1) else {}
  }

  ghost function IndirectSpots(i: nat, lo: nat, hi: nat): set<Place>
    requires lo <= hi < MAXFILE
  {
    (if Leaf(i, lo).Child? then {Leaf(i, lo).parent} else {})
    + (if NextBoundary(lo) <= hi then Above(i, NextBoundary(lo)) else {})
  }

  lemma {:induction false} DataSpotsSize(i: nat, lo: nat, hi: nat)
    requires lo <= hi < MAXFILE
    ensures |DataSpots(i, lo, hi)| <= hi - lo + 1
    decreases hi - lo
  {
    if lo < hi {
      DataSpotsSize(i, lo, hi - 1);
    }
  }

  lemma {:induction false} DataSpotsHas(i: nat, lo: nat, bn: nat, hi: nat)
    requires lo <= bn <= hi < MAXFILE
    ensures Leaf(i, bn) in DataSpots(i, lo, hi)
    decreases hi - lo
  {
    if bn < hi {
      DataSpotsHas(i, lo, bn, hi - 1);
    }
  }

  /** At most one indirect block and those above one boundary. */
  lemma SpotsSize(i: nat, lo: nat, hi: nat)
    requires lo <= hi < MAXFILE
    ensures |Spots(i, lo, hi)| <= hi - lo + 1 + 4
  {
    DataSpotsSize(i, lo, hi);
    if NextBoundary(lo) <= hi {
      AboveSize(i, NextBoundary(lo));
    }
  }

  /**
   * From `lo` to `bn`, fewer than 128 blocks on, the indirect block stays the first one's or becomes the boundary's.
   */
  lemma {:induction false} ParentSpot(i: nat, lo: nat, bn: nat)
    requires lo <= bn < MAXFILE && bn < lo + 128 && Leaf(i, bn).Child?
    ensures Leaf(i, bn).parent in IndirectSpots(i, lo, bn)
    decreases bn
  {
    if Boundary(bn) {
      AboveSize(i, bn);
      if NextBoundary(lo) < bn {
        BoundariesApart(NextBoundary(lo), bn);
      }
    } else if lo < bn {
      SameParent(i, bn);
      ParentSpot(i, lo, bn - 1);
    }
  }

  /** Every place that bmap stores to for one of the blocks `lo` to `hi` of a file without holes is a spot. */
  lemma TouchedSpots(fs: Fs, i: nat, lo: nat, bn: nat, hi: nat)
    requires fs.Shape() && i < |fs.inodes| && lo <= bn <= hi < MAXFILE && hi < lo + 128
    requires bn > 0 ==> LeafPtr(fs, i, bn - 1) != 0
    ensures fs.Has(Leaf(i, bn)) && Touched(fs, Leaf(i, bn)) + {Leaf(i, bn)} <= Spots(i, lo, hi)
  {
    LeafPlaces(i, bn, |fs.inodes|);
    DataSpotsHas(i, lo, bn, hi);
    var p := Leaf(i, bn);
    if p.Child? {
      ParentSpot(i, lo, bn);
      if Boundary(bn) {
        if NextBoundary(lo) < bn {
          BoundariesApart(NextBoundary(lo), bn);
        }
        TouchedInPath(fs, p.parent);
      } else {
        SameParent(i, bn);
        LeafParents(fs, i, bn - 1);
        MappedUntouched(fs, p.parent);
      }
    }
  }

  lemma {:induction false} TouchedInPath(fs: Fs, q: Place)
    requires fs.Shape() && fs.Has(q)
    ensures Touched(fs, q) <= Path(q)
  {
    if q.Child? {
      TouchedInPath(fs, q.parent);
      SelfInPath(q.parent);
    }
  }

  lemma SelfInPath(q: Place)
    ensures q in Path(q)
  {
  }

  lemma PathOf(q: Place)
    requires q.Child?
    ensures Path(q) == Path(q.parent) + {q} && q.parent in Path(q)
  {
    SelfInPath(q.parent);
  }

  /** The places above a data block are on the way to it. */
  lemma OnTheWay(i: nat, bn: nat)
    requires bn < MAXFILE
    ensures var p := Leaf(i, bn);
      && p in Path(p) && (p.Child? ==> p.parent in Path(p))
      && (p.Child? && p.parent.Child? ==> p.parent.parent in Path(p))
  {
    var p := Leaf(i, bn);
    SelfInPath(p);
    if p.Child? {
      PathOf(p);
      if p.parent.Child? {
        PathOf(p.parent);
      }
    }
  }

  lemma {:induction false} PathWithin(p: Place, q: Place)
    requires p in Path(q)
    ensures Path(p) <= Path(q)
  {
    if q.Child? && p != q {
      PathWithin(p, q.parent);
    }
  }

  lemma {:induction false} MappedUntouched(fs: Fs, q: Place)
    requires fs.Shape() && fs.Has(q) && fs.Ptr(q) != 0
    ensures Touched(fs, q) == {}
  {
    if q.Child? {
      MappedUntouched(fs, q.parent);
    }
  }

  // ----- what a write allocates -----

  /** The spots that hold no block number yet. */
  ghost function Unmapped(fs: Fs, i: nat, lo: nat, hi: nat): set<Place>
    requires lo <= hi < MAXFILE
  {
    set p | p in Spots(i, lo, hi) && fs.Shape() && fs.Has(p) && fs.Ptr(p) == 0
  }

  /** The blocks on the way to a mapped place are there. */
  lemma {:induction false} PathMapped(fs: Fs, q: Place, p: Place)
    requires fs.Shape() && fs.Has(q) && fs.Ptr(q) != 0 && p in Path(q)
    ensures fs.Has(p) && fs.Ptr(p) != 0
  {
    if q.Child? && p != q {
      PathMapped(fs, q.parent, p);
    }
  }

  /** An empty place on the way to block `bn` is a spot, if the block before it is there. */
  lemma EmptyIsSpot(fs: Fs, i: nat, lo: nat, bn: nat, hi: nat, p: Place)
    requires fs.Shape() && i < |fs.inodes| && lo <= bn <= hi < MAXFILE && hi < lo + 128
    requires bn > 0 ==> LeafPtr(fs, i, bn - 1) != 0
    requires p in Path(Leaf(i, bn)) && fs.Has(p) && fs.Ptr(p) == 0
    ensures p in Spots(i, lo, hi)
  {
    DataSpotsHas(i, lo, bn, hi);
    var q := Leaf(i, bn);
    LeafPlaces(i, bn, |fs.inodes|);
    if p != q {
      if Boundary(bn) {
        if NextBoundary(lo) < bn {
          BoundariesApart(NextBoundary(lo), bn);
        }
      } else {
        SameParent(i, bn);
        LeafParents(fs, i, bn - 1);
        PathMapped(fs, q.parent, p);
      }
    }
  }

  /** What bmap gives an owner for block `bn` is at an empty spot. */
  lemma NewPlaces(f: Fs, o: Owners, g: Fs, o': Owners, first: nat, i: nat, lo: nat, bn: nat, hi: nat)
    requires Tree(f, o, first) && Tree(g, o', first) && i < |f.inodes| && lo <= bn <= hi < MAXFILE && hi < lo + 128
    requires bn > 0 ==> LeafPtr(f, i, bn - 1) != 0
    requires Extends(f, o, g, o', Path(Leaf(i, bn)))
    ensures forall n :: n in o' && n !in o ==> o'[n] in Unmapped(f, i, lo, hi)
  {
    forall n | n in o' && n !in o
      ensures o'[n] in Unmapped(f, i, lo, hi)
    {
      var p := o'[n];
      assert g.Has(p) && g.Ptr(p) == n;
      assert f.Has(p);
      assert f.Ptr(p) == 0;
      EmptyIsSpot(f, i, lo, bn, hi, p);
    }
  }

  /** A spot that is empty now was empty before, since what has an owner keeps it. */
  lemma StillUnmapped(f: Fs, o: Owners, g: Fs, o': Owners, first: nat, i: nat, lo: nat, hi: nat)
    requires Tree(f, o, first) && Tree(g, o', first) && |f.inodes| == |g.inodes| && lo <= hi < MAXFILE
    requires forall b :: b in o ==> b in o' && o'[b] == o[b]
    ensures Unmapped(g, i, lo, hi) <= Unmapped(f, i, lo, hi)
  {
    forall p | p in Unmapped(g, i, lo, hi)
      ensures p in Unmapped(f, i, lo, hi)
    {
      assert f.Has(p);
    }
  }

  /** The empty spots are data blocks and the indirect blocks above a boundary. */
  lemma EmptySpots(f: Fs, i: nat, lo: nat, hi: nat, from: nat)
    requires f.Shape() && i < |f.inodes| && lo <= from <= hi < MAXFILE && from <= lo + 1
    requires lo > 0 ==> LeafPtr(f, i, lo - 1) != 0
    requires from > lo ==> LeafPtr(f, i, lo) != 0
    ensures |Unmapped(f, i, lo, hi)| <= hi - from + 1 + 3
  {
    var a := if NextBoundary(lo) <= hi then Above(i, NextBoundary(lo)) else {};
    if NextBoundary(lo) <= hi {
      AboveSize(i, NextBoundary(lo));
    }
    DataSpotsSize(i, from, hi);
    forall p | p in Unmapped(f, i, lo, hi)
      ensures p in DataSpots(i, from, hi) + a
    {
      EmptySpot(f, i, lo, hi, from, p);
    }
    Subset(Unmapped(f, i, lo, hi), DataSpots(i, from, hi) + a);
  }

  lemma EmptySpot(f: Fs, i: nat, lo: nat, hi: nat, from: nat, p: Place)
    requires f.Shape() && i < |f.inodes| && lo <= from <= hi < MAXFILE && from <= lo + 1
    requires lo > 0 ==> LeafPtr(f, i, lo - 1) != 0
    requires from > lo ==> LeafPtr(f, i, lo) != 0
    requires p in Unmapped(f, i, lo, hi)
    ensures p in DataSpots(i, from, hi) || (NextBoundary(lo) <= hi && p in Above(i, NextBoundary(lo)))
  {
    LeafPlaces(i, lo, |f.inodes|);
    if Leaf(i, lo).Child? {
      if Boundary(lo) {
        AboveSize(i, lo);
      } else {
        SameParent(i, lo);
        LeafParents(f, i, lo - 1);
      }
    }
    if p in DataSpots(i, lo, hi) {
      var bn := DataSpotAt(i, lo, hi, p);
      if bn >= from {
        DataSpotsHas(i, from, bn, hi);
      }
    }
  }

  lemma {:induction false} DataSpotAt(i: nat, lo: nat, hi: nat, p: Place) returns (bn: nat)
    requires lo <= hi < MAXFILE && p in DataSpots(i, lo, hi)
    ensures lo <= bn <= hi && p == Leaf(i, bn)
    decreases hi - lo
  {
    if p == Leaf(i, hi) {
      bn := hi;
    } else {
      bn := DataSpotAt(i, lo, hi - 1, p);
    }
  }

  // ----- counting -----

  /** No more blocks than places that own them. */
  lemma {:induction false} OwnedCount(fs: Fs, own: Owners, first: nat, spots: set<Place>, x: set<nat>)
    requires Tree(fs, own, first) && forall b :: b in x ==> b in own && own[b] in spots
    ensures |x| <= |spots|
  {
    if x != {} {
      var b :| b in x;
      assert forall c :: c in x && own[c] == own[b] ==> c == b;
      OwnedCount(fs, own, first, spots - {own[b]}, x - {b});
    }
  }

  /** No more of the free map's blocks than blocks whose bits they have. */
  lemma {:induction false} MapCount(news: set<nat>, start: nat, x: set<nat>)
    requires forall b :: b in x ==> exists n :: n in news && n / 4096 + start == b
    ensures |x| <= |news|
  {
    if b :| b in x {
      var n :| n in news && n / 4096 + start == b;
      forall c | c in x - {b}
        ensures exists m :: m in news - {n} && m / 4096 + start == c
      {
        var m :| m in news && m / 4096 + start == c;
        assert m in news - {n};
      }
      MapCount(news - {n}, start, x - {b});
    }
  }

  /** A chunk touches at most seven blocks, and then the first is there already. */
  lemma ChunkBlocks(off: nat, n: nat)
    requires 0 < n <= CHUNK
    ensures var lo, hi := off / BSIZE, (off + n - 1) / BSIZE;
      && lo <= hi <= lo + 6
      && (hi == lo + 6 ==> off % BSIZE != 0)
  {
  }

  /** So a chunk has at most nine empty spots. */
  lemma NineSpots(f: Fs, i: nat, off: nat, n: nat)
    requires 0 < n <= CHUNK && (off + n - 1) / BSIZE < MAXFILE
    requires f.Shape() && i < |f.inodes|
    requires forall bn :: 0 <= bn < off / BSIZE ==> LeafPtr(f, i, bn) != 0
    requires off % BSIZE != 0 ==> LeafPtr(f, i, off / BSIZE) != 0
    ensures off / BSIZE <= (off + n - 1) / BSIZE && |Unmapped(f, i, off / BSIZE, (off + n - 1) / BSIZE)| <= 9
  {
    ChunkBlocks(off, n);
    var lo, hi := off / BSIZE, (off + n - 1) / BSIZE;
    EmptySpots(f, i, lo, hi, if hi == lo + 6 then lo + 1 else lo);
  }

  lemma {:induction false} IntervalCount(lo: nat, n: nat, x: set<nat>)
    requires forall b :: b in x ==> lo <= b < lo + n
    ensures |x| <= n
  {
    if n > 0 {
      var last := lo + n - 1;
      IntervalCount(lo, n - 1, x - {last});
      Subset(x, (x - {last}) + {last});
    } else {
      assert x == {};
    }
  }

  /** Those of the blocks that are the free map's. */
  function InMap(map0: nat, nmap: nat, x: set<nat>): set<nat> {
    set b | b in x && map0 <= b < map0 + nmap
  }

  /** Blocks in `free map`, owned by `spots`, or equal to the inode's. */
  lemma LogCount(fs: Fs, own: Owners, first: nat, spots: set<Place>, map0: nat, nmap: nat, inode: nat, x: set<nat>)
    requires Tree(fs, own, first)
    requires forall b :: b in x ==> map0 <= b < map0 + nmap || (b in own && own[b] in spots) || b == inode
    ensures |x| <= |InMap(map0, nmap, x)| + |spots| + 1 && |InMap(map0, nmap, x)| <= nmap
  {
    var u := InMap(map0, nmap, x);
    var v := set b | b in x && b in own && own[b] in spots;
    IntervalCount(map0, nmap, u);
    OwnedCount(fs, own, first, spots, v);
    Subset(x, u + v + {inode});
  }

  /** Blocks of the free map for `news`, blocks owned by `spots`, or the inode's. */
  lemma NewCount(fs: Fs, own: Owners, first: nat, news: set<nat>, empty: set<Place>, spots: set<Place>, start: nat,
      inode: nat, x: set<nat>)
    requires Tree(fs, own, first) && forall n :: n in news ==> n in own && own[n] in empty
    requires forall b :: b in x ==>
      (exists n :: n in news && n / 4096 + start == b) || (b in own && own[b] in spots) || b == inode
    ensures |x| <= |empty| + |spots| + 1
  {
    var u := set b | b in x && exists n :: n in news && n / 4096 + start == b;
    var v := set b | b in x && b in own && own[b] in spots;
    OwnedCount(fs, own, first, empty, news);
    OwnedCount(fs, own, first, spots, v);
    MapCount(news, start, u);
    Subset(x, u + v + {inode});
  }

  // ----- when a write finds enough blocks -----

  /** The blocks that the free map has free. */
  ghost function Unset(bits: seq<bool>): set<nat> {
    set b: nat | b < |bits| && !bits[b]
  }

  /** When the data blocks are there, no spot is empty. */
  lemma SpotFull(g: Fs, i: nat, lo: nat, hi: nat, p: Place)
    requires g.Shape() && i < |g.inodes| && lo <= hi < MAXFILE && p in Spots(i, lo, hi)
    requires forall bn :: lo <= bn <= hi ==> LeafPtr(g, i, bn) != 0
    ensures g.Has(p) && g.Ptr(p) != 0
  {
    hide Leaf, NextBoundary, Path, Fs.Ptr, IsPlace;
    var bn;
    if p in DataSpots(i, lo, hi) {
      bn := DataSpotAt(i, lo, hi, p);
      SelfInPath(p);
    } else {
      bn := if Leaf(i, lo).Child? && p == Leaf(i, lo).parent then lo else NextBoundary(lo);
      PathOf(Leaf(i, bn));
    }
    LeafPlaces(i, bn, |g.inodes|);
    assert LeafPtr(g, i, bn) != 0;
    PathMapped(g, Leaf(i, bn), p);
  }

  /** No more places in use than blocks at them. */
  lemma {:induction false} PlacesCount(g: Fs, own: Owners, first: nat, places: set<Place>, x: set<nat>)
    requires Tree(g, own, first) && forall p :: p in places ==> g.Has(p) && g.Ptr(p) != 0 && g.Ptr(p) in x
    ensures |places| <= |x|
  {
    hide Fs.Ptr, IsPlace;
    if p :| p in places {
      PlacesCount(g, own, first, places - {p}, x - {g.Ptr(p)});
    }
  }

  /** A write that found a block for every empty spot had one for each. */
  lemma Enough(f: Fs, o: Owners, was: seq<bool>, g: Fs, own: Owners, first: nat, i: nat, lo: nat, hi: nat)
    requires Tree(f, o, first) && Tree(g, own, first) && FreeMap(was, o.Keys, first)
    requires |f.inodes| == |g.inodes| && |was| == |g.blocks| && lo <= hi < MAXFILE && i < |g.inodes|
    requires forall b :: b in o ==> b in own && own[b] == o[b]
    requires forall bn :: lo <= bn <= hi ==> LeafPtr(g, i, bn) != 0
    ensures |Unmapped(f, i, lo, hi)| <= |Unset(was)|
  {
    hide Fs.Ptr, IsPlace, Spots;
    forall p | p in Unmapped(f, i, lo, hi)
      ensures g.Has(p) && g.Ptr(p) != 0 && g.Ptr(p) in Unset(was)
    {
      SpotFull(g, i, lo, hi, p);
    }
    PlacesCount(g, own, first, Unmapped(f, i, lo, hi), Unset(was));
  }

  /** A write that used up every free block, and left a spot empty, had too few. */
  lemma TooFew(f: Fs, o: Owners, was: seq<bool>, g: Fs, own: Owners, bits: seq<bool>, first: nat, i: nat, lo: nat,
      hi: nat, p: Place)
    requires Tree(g, own, first) && FreeMap(was, o.Keys, first) && FreeMap(bits, own.Keys, first)
    requires |was| == |bits| && (forall b :: 0 <= b < |bits| ==> bits[b])
    requires lo <= hi < MAXFILE && p in Unmapped(f, i, lo, hi) && g.Has(p) && g.Ptr(p) == 0
    requires forall n :: n in own && n !in o ==> own[n] in Unmapped(f, i, lo, hi)
    ensures |Unset(was)| < |Unmapped(f, i, lo, hi)|
  {
    hide Fs.Ptr, IsPlace, Unmapped;
    var news := own.Keys - o.Keys;
    Subset(Unset(was), news);
    OwnedCount(g, own, first, Unmapped(f, i, lo, hi) - {p}, news);
  }
}
