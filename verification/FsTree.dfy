/** fs.c: the block tree of an inode, and who owns each block. */
module FsTree {
  import opened Blocks
  import opened Kinds

  const NDIRECT: nat := 10
  const NINDIRECT: nat := 128
  const NADDRS: nat := 13
  const MAXFILE: nat := 2113674  // 10 + 128 + 128^2 + 128^3

  datatype Inode = Inode(kind: Kind, nlink: int, size: nat, addrs: seq<Word>)

  /** A place that can hold a block number: a slot of an inode, or a word of the block at another place. */
  datatype Place = Root(inum: nat, slot: nat) | Child(parent: Place, index: nat)

  /** Levels of blocks below a place: 0 for a place of a data block. */
  function Height(p: Place): int {
    match p
    case Root(_, s) => if s < NDIRECT then 0 else s - NDIRECT + 1
    case Child(q, _) => Height(q) - 1
  }

  function Inum(p: Place): nat {
    match p
    case Root(i, _) => i
    case Child(q, _) => Inum(q)
  }

  predicate IsPlace(p: Place, ninodes: nat) {
    match p
    case Root(i, s) => i < ninodes && s < NADDRS
    case Child(q, k) => IsPlace(q, ninodes) && Height(q) > 0 && k < NINDIRECT
  }

  /** A place and all those above it. */
  function Path(p: Place): set<Place> {
    match p
    case Root(_, _) => {p}
    case Child(q, _) => Path(q) + {p}
  }

  /** Data blocks below a place of the given height. */
  function Span(h: int): nat {
    if h <= 0 then 1 else if h == 1 then 128 else if h == 2 then 16384 else 2097152
  }

  /** The index, within the file, of the first data block below a place. */
  function First(p: Place): nat {
    match p
    case Root(_, s) => if s <= 10 then s else if s == 11 then 138 else 16522
    case Child(q, k) => First(q) + k * Span(Height(q) - 1)
  }

  /** The place of the `bn`-th data block, as bmap finds it. */
  function Leaf(inum: nat, bn: nat): Place
    requires bn < MAXFILE
  {
    if bn < 10 then Root(inum, bn)
    else if bn < 138 then Child(Root(inum, 10), bn - 10)
    else if bn < 16522 then
      var r := bn - 138;
      Child(Child(Root(inum, 11), r / 128), r % 128)
    else
      var r := bn - 16522;
      Child(Child(Child(Root(inum, 12), r / 16384), r % 16384 / 128), r % 128)
  }

  lemma DivUnique(r: nat, q: nat, m: nat)
    requires r == 128 * q + m && m < 128
    ensures r / 128 == q && r % 128 == m
  {
  }

  /** The three digits, base 128, of an index in the triple region. */
  lemma Digits(r: nat)
    requires r < 2097152
    ensures r / 16384 < 128 && r % 16384 / 128 < 128
    ensures r == r / 16384 * 16384 + r % 16384 / 128 * 128 + r % 128
    ensures r / 128 / 128 == r / 16384 && r / 128 % 128 == r % 16384 / 128
  {
    var a, m := r / 16384, r % 16384;
    assert r == 16384 * a + m;
    var b, c := m / 128, m % 128;
    assert m == 128 * b + c;
    DivUnique(r, 128 * a + b, c);
    DivUnique(r / 128, a, b);
  }

  lemma LeafFirst(inum: nat, bn: nat, ninodes: nat)
    requires bn < MAXFILE && inum < ninodes
    ensures var p := Leaf(inum, bn);
      IsPlace(p, ninodes) && Height(p) == 0 && Inum(p) == inum && First(p) == bn
  {
    if 138 <= bn < 16522 {
      LeafDouble(inum, (bn - 138) / 128, (bn - 138) % 128, ninodes);
    } else if 16522 <= bn {
      var r := bn - 16522;
      Digits(r);
      LeafTriple(inum, r / 16384, r % 16384 / 128, r % 128, ninodes);
    }
  }

  lemma RootPlace(inum: nat, k: nat, ninodes: nat)
    requires k < NADDRS && inum < ninodes
    ensures var p := Root(inum, k);
      && IsPlace(p, ninodes) && Inum(p) == inum && Height(p) == (if k < 10 then 0 else k - 9)
      && First(p) == if k <= 10 then k else if k == 11 then 138 else 16522
  {
  }

  lemma ChildPlace(p: Place, k: nat, ninodes: nat)
    requires IsPlace(p, ninodes) && Height(p) > 0 && k < NINDIRECT
    ensures var c := Child(p, k);
      IsPlace(c, ninodes) && Inum(c) == Inum(p) && Height(c) == Height(p) - 1
        && First(c) == First(p) + k * Span(Height(p) - 1)
  {
  }

  lemma LeafDouble(inum: nat, a: nat, b: nat, ninodes: nat)
    requires a < 128 && b < 128 && inum < ninodes
    ensures var p := Child(Child(Root(inum, 11), a), b);
      IsPlace(p, ninodes) && Height(p) == 0 && Inum(p) == inum && First(p) == 138 + a * 128 + b
  {
    hide IsPlace, Height, Inum, First;
    RootPlace(inum, 11, ninodes);
    ChildPlace(Root(inum, 11), a, ninodes);
    ChildPlace(Child(Root(inum, 11), a), b, ninodes);
  }

  lemma LeafTriple(inum: nat, a: nat, b: nat, c: nat, ninodes: nat)
    requires a < 128 && b < 128 && c < 128 && inum < ninodes
    ensures var p := Child(Child(Child(Root(inum, 12), a), b), c);
      IsPlace(p, ninodes) && Height(p) == 0 && Inum(p) == inum && First(p) == 16522 + a * 16384 + b * 128 + c
  {
    hide IsPlace, Height, Inum, First;
    var q := Root(inum, 12);
    RootPlace(inum, 12, ninodes);
    ChildPlace(q, a, ninodes);
    ChildPlace(Child(q, a), b, ninodes);
    ChildPlace(Child(Child(q, a), b), c, ninodes);
  }

  /** Every place on the way to a data block is one. */
  lemma LeafPlaces(inum: nat, bn: nat, ninodes: nat)
    requires bn < MAXFILE && inum < ninodes
    ensures var p := Leaf(inum, bn);
      && IsPlace(p, ninodes)
      && (p.Child? ==> IsPlace(p.parent, ninodes))
      && (p.Child? && p.parent.Child? ==> IsPlace(p.parent.parent, ninodes))
  {
    LeafFirst(inum, bn, ninodes);
  }

  lemma HeightBound(p: Place, ninodes: nat)
    requires IsPlace(p, ninodes)
    ensures 0 <= Height(p) <= 3 && Inum(p) < ninodes
  {
  }

  /** Disk contents as bread returns them, and the inodes in memory. */
  datatype Fs = Fs(blocks: seq<Block>, inodes: seq<Inode>) {
    ghost predicate Shape() {
      && |blocks| <= UINT
      && forall i :: 0 <= i < |inodes| ==> |inodes[i].addrs| == NADDRS
    }

    predicate Has(p: Place) {
      IsPlace(p, |inodes|)
    }

    /** The block number stored at a place, 0 if there is none. */
    ghost function Ptr(p: Place): Word
      requires Shape() && Has(p)
    {
      match p
      case Root(i, s) => inodes[i].addrs[s]
      case Child(q, k) =>
        var a := Ptr(q);
        if a == 0 || a >= |blocks| then 0 else WordAt(blocks[a], k)
    }
  }

  /** Where each block in use is referred to from. */
  type Owners = map<nat, Place>

  /** Every pointer leads to a data block that has it as its only owner, and every owner is such a pointer. */
  ghost predicate Tree(fs: Fs, own: Owners, first: nat) {
    && fs.Shape() && 0 < first
    && (forall p :: fs.Has(p) && fs.Ptr(p) != 0 ==> fs.Ptr(p) in own && own[fs.Ptr(p)] == p)
    && (forall b :: b in own ==> first <= b < |fs.blocks| && fs.Has(own[b]) && fs.Ptr(own[b]) == b)
  }

  /** The free map: set exactly for the blocks below `first` and those in use. */
  ghost predicate FreeMap(bits: seq<bool>, used: set<nat>, first: nat) {
    forall b :: 0 <= b < |bits| ==> (bits[b] <==> b < first || b in used)
  }

  lemma FreeMapUnique(bits: seq<bool>, bits': seq<bool>, used: set<nat>, first: nat)
    requires FreeMap(bits, used, first) && FreeMap(bits', used, first) && |bits| == |bits'|
    ensures bits == bits'
  {
  }

  // ----- what one store does to the pointers -----

  /** A store into a block that holds no pointers in use moves no pointer. */
  lemma {:induction false} DataStorePtr(fs: Fs, own: Owners, first: nat, d: nat, v: Block, p: Place)
    requires Tree(fs, own, first) && d < |fs.blocks| && fs.Has(p)
    requires d !in own || Height(own[d]) == 0
    ensures var g := fs.(blocks := fs.blocks[d := v]); g.Shape() && g.Ptr(p) == fs.Ptr(p)
  {
    if p.Child? {
      DataStorePtr(fs, own, first, d, v, p.parent);
    }
  }

  lemma DataStore(fs: Fs, own: Owners, first: nat, d: nat, v: Block)
    requires Tree(fs, own, first) && d < |fs.blocks|
    requires d !in own || Height(own[d]) == 0
    ensures var g := fs.(blocks := fs.blocks[d := v]);
      Tree(g, own, first) && forall p :: fs.Has(p) ==> g.Ptr(p) == fs.Ptr(p)
  {
    var g := fs.(blocks := fs.blocks[d := v]);
    assert g.Shape();
    forall p | fs.Has(p)
      ensures g.Ptr(p) == fs.Ptr(p)
    {
      DataStorePtr(fs, own, first, d, v, p);
    }
  }

  /** The pointers depend on the blocks and the address lists only. */
  lemma {:induction false} SamePtr(fs: Fs, g: Fs, p: Place)
    requires fs.Shape() && g.Shape() && g.blocks == fs.blocks && |g.inodes| == |fs.inodes| && fs.Has(p)
    requires Inum(p) < |fs.inodes| ==> g.inodes[Inum(p)].addrs == fs.inodes[Inum(p)].addrs
    ensures g.Ptr(p) == fs.Ptr(p)
  {
    HeightBound(p, |fs.inodes|);
    if p.Child? {
      SamePtr(fs, g, p.parent);
    }
  }

  /** The state after block number `n` is stored at the place `q`. */
  ghost function Attach(fs: Fs, q: Place, n: Word): Fs
    requires fs.Shape() && fs.Has(q) && (q.Child? ==> 0 < fs.Ptr(q.parent) < |fs.blocks|)
  {
    match q
    case Root(i, s) => fs.(inodes := fs.inodes[i := fs.inodes[i].(addrs := fs.inodes[i].addrs[s := n])])
    case Child(r, k) => fs.(blocks := fs.blocks[fs.Ptr(r) := SetWord(fs.blocks[fs.Ptr(r)], k, n)])
  }

  /** An empty place whose parent, if it has one, is not empty. */
  ghost predicate Vacant(fs: Fs, q: Place)
    requires fs.Shape()
  {
    fs.Has(q) && fs.Ptr(q) == 0 && (q.Child? ==> fs.Ptr(q.parent) != 0)
  }

  /** Storing the number of a zeroed block at an empty place moves no other pointer. */
  lemma {:induction false} AttachPtr(fs: Fs, own: Owners, first: nat, q: Place, n: Word, p: Place)
    requires Tree(fs, own, first) && Vacant(fs, q)
    requires 0 < n < |fs.blocks| && n !in own && fs.blocks[n] == ZeroBlock() && fs.Has(p)
    ensures var g := Attach(fs, q, n); g.Shape() && g.Has(p) && g.Ptr(p) == if p == q then n else fs.Ptr(p)
  {
    if p.Child? {
      AttachPtr(fs, own, first, q, n, p.parent);
      ZeroWords();
    }
  }

  /** balloc and the store of its result at `q`. */
  ghost function Grow(fs: Fs, q: Place, n: Word): Fs
    requires fs.Shape() && Vacant(fs, q) && n < |fs.blocks|
    requires q.Child? ==> fs.Ptr(q.parent) < |fs.blocks|
    requires var z := fs.(blocks := fs.blocks[n := ZeroBlock()]); q.Child? ==> 0 < z.Ptr(q.parent) < |fs.blocks|
  {
    Attach(fs.(blocks := fs.blocks[n := ZeroBlock()]), q, n)
  }

  /** Growing by a free block keeps the tree, every other pointer, and the contents of every data block. */
  lemma GrowKeeps(fs: Fs, own: Owners, first: nat, q: Place, n: Word)
    requires Tree(fs, own, first) && Vacant(fs, q) && first <= n < |fs.blocks| && n !in own
    ensures var z := fs.(blocks := fs.blocks[n := ZeroBlock()]); q.Child? ==> z.Ptr(q.parent) == fs.Ptr(q.parent)
    ensures var g := Grow(fs, q, n);
      && Tree(g, own[n := q], first)
      && (forall p :: fs.Has(p) ==> g.Ptr(p) == if p == q then n else fs.Ptr(p))
      && (forall b :: b in own && Height(own[b]) == 0 ==> g.blocks[b] == fs.blocks[b])
      && |g.blocks| == |fs.blocks| && g.blocks[n] == ZeroBlock()
  {
    hide Fs.Ptr;
    GrowPtrs(fs, own, first, q, n);
    if q.Child? {
      HeightBound(q, |fs.inodes|);
    }
  }

  lemma GrowPtrs(fs: Fs, own: Owners, first: nat, q: Place, n: Word)
    requires Tree(fs, own, first) && Vacant(fs, q) && first <= n < |fs.blocks| && n !in own
    ensures var z := fs.(blocks := fs.blocks[n := ZeroBlock()]);
      Tree(z, own, first) && (forall p :: fs.Has(p) ==> z.Ptr(p) == fs.Ptr(p))
        && (q.Child? ==> fs.Has(q.parent) && fs.Ptr(q.parent) in own)
    ensures var g := Grow(fs, q, n); g.Shape() && forall p :: fs.Has(p) ==> g.Ptr(p) == if p == q then n else fs.Ptr(p)
  {
    var z := fs.(blocks := fs.blocks[n := ZeroBlock()]);
    DataStore(fs, own, first, n, ZeroBlock());
    var g := Grow(fs, q, n);
    forall p | fs.Has(p)
      ensures g.Shape() && g.Ptr(p) == if p == q then n else fs.Ptr(p)
    {
      AttachPtr(z, own, first, q, n, p);
    }
    AttachPtr(z, own, first, q, n, q);
  }

  // ----- what bmap may change -----

  /** `g` has every pointer and all data of `fs`, and more only at the places in `q`, where new data blocks are zero. */
  ghost predicate Extends(fs: Fs, own: Owners, g: Fs, own': Owners, q: set<Place>)
    requires fs.Shape() && g.Shape()
  {
    && |g.blocks| == |fs.blocks| && |g.inodes| == |fs.inodes|
    && (forall p :: fs.Has(p) ==> g.Ptr(p) == fs.Ptr(p) || (fs.Ptr(p) == 0 && p in q))
    && (forall b :: b in own ==> b in own' && own'[b] == own[b])
    && (forall b :: b in own && b < |fs.blocks| && Height(own[b]) == 0 ==> g.blocks[b] == fs.blocks[b])
    && (forall b :: b in own' && b !in own && b < |g.blocks| ==>
      own'[b] in q && (Height(own'[b]) == 0 ==> g.blocks[b] == ZeroBlock()))
    && (forall i :: 0 <= i < |fs.inodes| ==> g.inodes[i].(addrs := []) == fs.inodes[i].(addrs := []))
    && (forall i :: 0 <= i < |fs.inodes| && (forall p :: p in q ==> Inum(p) != i) ==> g.inodes[i] == fs.inodes[i])
  }

  lemma ExtendsSelf(fs: Fs, own: Owners, q: set<Place>)
    requires fs.Shape()
    ensures Extends(fs, own, fs, own, q)
  {
  }

  /** A place in use names a data block. */
  lemma InUse(fs: Fs, own: Owners, first: nat, q: Place)
    requires Tree(fs, own, first) && fs.Has(q)
    ensures fs.Shape() && 0 < first
    ensures fs.Ptr(q) != 0 ==> first <= fs.Ptr(q) < |fs.blocks| && fs.Ptr(q) in own && own[fs.Ptr(q)] == q
    ensures q.Child? && 0 < fs.Ptr(q.parent) < |fs.blocks| ==> fs.Ptr(q) == WordAt(fs.blocks[fs.Ptr(q.parent)], q.index)
  {
  }

  /** Growing at a word of the block that `q.parent` refers to. */
  lemma GrowWord(fs: Fs, own: Owners, first: nat, q: Place, n: Word)
    requires Tree(fs, own, first) && Vacant(fs, q) && first <= n < |fs.blocks| && n !in own && q.Child?
    requires 0 < fs.Ptr(q.parent) < |fs.blocks|
    ensures var a := fs.Ptr(q.parent);
      var g := fs.(blocks := fs.blocks[n := ZeroBlock()][a := SetWord(fs.blocks[a], q.index, n)]);
      Tree(g, own[n := q], first) && g.Has(q) && g.Ptr(q) == n && Extends(fs, own, g, own[n := q], {q})
  {
    GrowExtends(fs, own, first, q, n);
    InUse(fs, own, first, q.parent);
  }

  lemma ExtendsOwns(fs: Fs, own: Owners, g: Fs, own': Owners, q: set<Place>, p: Place)
    requires fs.Shape() && g.Shape() && Extends(fs, own, g, own', q) && fs.Has(p)
    ensures fs.Ptr(p) != 0 ==> g.Ptr(p) == fs.Ptr(p)
    ensures g.Ptr(p) == 0 ==> fs.Ptr(p) == 0
    ensures forall b :: b in own ==> b in own' && own'[b] == own[b]
  {
  }

  lemma ExtendsTrans(f: Fs, own: Owners, g: Fs, own': Owners, h: Fs, own'': Owners, q: set<Place>, r: set<Place>)
    requires f.Shape() && g.Shape() && h.Shape()
    requires Extends(f, own, g, own', q) && Extends(g, own', h, own'', r)
    ensures Extends(f, own, h, own'', q + r)
  {
  }

  lemma GrowExtends(fs: Fs, own: Owners, first: nat, q: Place, n: Word)
    requires Tree(fs, own, first) && Vacant(fs, q) && first <= n < |fs.blocks| && n !in own
    ensures var z := fs.(blocks := fs.blocks[n := ZeroBlock()]); q.Child? ==> z.Ptr(q.parent) == fs.Ptr(q.parent)
    ensures var g := Grow(fs, q, n);
      Tree(g, own[n := q], first) && g.Has(q) && g.Ptr(q) == n && Extends(fs, own, g, own[n := q], {q})
  {
    hide Fs.Ptr, Tree, Fs.Shape;
    GrowKeeps(fs, own, first, q, n);
  }

  /** The places that filling every empty place down to `q` writes to: those, and the ones above them. */
  ghost function Touched(fs: Fs, q: Place): set<Place>
    requires fs.Shape() && fs.Has(q)
  {
    match q
    case Root(_, _) => if fs.Ptr(q) == 0 then {q} else {}
    case Child(r, _) => Touched(fs, r) + if fs.Ptr(q) == 0 then {q, r} else {}
  }

  lemma TouchedBelow(fs: Fs, q: Place)
    requires fs.Shape() && fs.Has(q) && q.Child?
    ensures Touched(fs, q.parent) <= Touched(fs, q)
    ensures fs.Ptr(q) == 0 ==> q in Touched(fs, q) && q.parent in Touched(fs, q)
    ensures fs.Ptr(q.parent) == 0 ==> fs.Ptr(q) == 0
    ensures Path(q) == Path(q.parent) + {q}
  {
  }

  /** No data block without the blocks above it. */
  lemma LeafParents(fs: Fs, inum: nat, bn: nat)
    requires fs.Shape() && inum < |fs.inodes| && bn < MAXFILE
    ensures var p := Leaf(inum, bn);
      LeafPtr(fs, inum, bn) != 0 ==>
        && (p.Child? ==> fs.Has(p.parent) && fs.Ptr(p.parent) != 0)
        && (p.Child? && p.parent.Child? ==> fs.Has(p.parent.parent) && fs.Ptr(p.parent.parent) != 0)
        && (p.Child? && p.parent.Child? && p.parent.parent.Child? ==>
              fs.Has(p.parent.parent.parent) && fs.Ptr(p.parent.parent.parent) != 0)
  {
    LeafPlaces(inum, bn, |fs.inodes|);
  }

  // ----- file contents -----

  /** The blocks of a file are exactly the first `count`. */
  ghost predicate Mapped(fs: Fs, inum: nat, count: nat)
    requires fs.Shape() && inum < |fs.inodes|
  {
    forall bn :: 0 <= bn < MAXFILE ==> (LeafPtr(fs, inum, bn) != 0 <==> bn < count)
  }

  ghost function LeafPtr(fs: Fs, inum: nat, bn: nat): Word
    requires fs.Shape() && inum < |fs.inodes| && bn < MAXFILE
  {
    LeafFirst(inum, bn, |fs.inodes|);
    fs.Ptr(Leaf(inum, bn))
  }

  /** Blocks that a file of `size` bytes needs. */
  function Count(size: nat): nat {
    (size + BSIZE - 1) / BSIZE
  }

  /** Distinct data blocks of the files lie in distinct disk blocks. */
  lemma LeavesDistinct(fs: Fs, own: Owners, first: nat, i: nat, bn: nat, j: nat, cn: nat)
    requires Tree(fs, own, first) && i < |fs.inodes| && j < |fs.inodes| && bn < MAXFILE && cn < MAXFILE
    requires LeafPtr(fs, i, bn) == LeafPtr(fs, j, cn) != 0
    ensures i == j && bn == cn
  {
    LeafFirst(i, bn, |fs.inodes|);
    LeafFirst(j, cn, |fs.inodes|);
  }

  // ----- truncation -----

  /** The word of the block at `q` through which the path to `p` goes. */
  ghost function Via(p: Place, q: Place): nat
    requires q in Path(p) && p != q
  {
    if p.parent == q then p.index else Via(p.parent, q)
  }

  /** A place lies below exactly one word of each block above it. */
  lemma {:induction false} ViaChild(p: Place, q: Place, k: nat)
    ensures Child(q, k) in Path(p) <==> q in Path(p) && p != q && Via(p, q) == k
  {
    NotBelowItself(q, Child(q, k));
    if p.Child? && p != q && p.parent != q {
      ViaChild(p.parent, q, k);
    }
  }

  /** The path upwards never leads to a place of smaller height. */
  lemma {:induction false} NotBelowItself(q: Place, p: Place)
    requires Height(p) < Height(q)
    ensures p !in Path(q) && p != q
  {
    if q.Child? {
      NotBelowItself(q.parent, p);
    }
  }

  lemma {:induction false} PathPlaces(p: Place, q: Place, ninodes: nat)
    requires IsPlace(p, ninodes) && q in Path(p)
    ensures IsPlace(q, ninodes) && Inum(q) == Inum(p) && Root(Inum(p), Slot(p)) in Path(p) && Slot(q) == Slot(p)
    ensures p != q ==> Height(q) > 0 && Via(p, q) < NINDIRECT
  {
    if p.Child? && p != q {
      PathPlaces(p.parent, q, ninodes);
    } else if p.Child? {
      PathPlaces(p.parent, p.parent, ninodes);
    }
  }

  /** Below an empty place there are no blocks. */
  lemma NothingBelow(fs: Fs, own: Owners, first: nat, q: Place)
    requires Tree(fs, own, first) && fs.Has(q) && fs.Ptr(q) == 0
    ensures forall b :: b in own ==> q !in Path(own[b])
  {
    forall b | b in own && q in Path(own[b])
      ensures false
    {
      EmptyAbove(fs, own[b], q);
    }
  }

  lemma {:induction false} EmptyAbove(fs: Fs, p: Place, q: Place)
    requires fs.Shape() && fs.Has(p) && q in Path(p) && fs.Has(q) && fs.Ptr(q) == 0
    ensures fs.Ptr(p) == 0
  {
    if p != q {
      EmptyAbove(fs, p.parent, q);
    }
  }

  /** The owners of the blocks that are not in file `i`. */
  ghost function OtherOwners(own: Owners, i: nat): (r: Owners)
    ensures forall b :: b in r <==> b in own && Inum(own[b]) != i
    ensures forall b :: b in r ==> r[b] == own[b]
  {
    own - set b | b in own && Inum(own[b]) == i
  }

  /** The blocks of inode `i` leave the tree when its address list is cleared. */
  lemma Truncated(fs: Fs, own: Owners, first: nat, i: nat, g: Fs, own': Owners)
    requires Tree(fs, own, first) && i < |fs.inodes| == |g.inodes| && g.blocks == fs.blocks
    requires g.Shape() && forall s :: 0 <= s < NADDRS ==> g.inodes[i].addrs[s] == 0
    requires forall j :: 0 <= j < |fs.inodes| && j != i ==> g.inodes[j] == fs.inodes[j]
    requires own' == OtherOwners(own, i)
    ensures Tree(g, own', first)
    ensures forall p :: fs.Has(p) ==> g.Ptr(p) == if Inum(p) == i then 0 else fs.Ptr(p)
  {
    forall p | fs.Has(p)
      ensures g.Ptr(p) == if Inum(p) == i then 0 else fs.Ptr(p)
    {
      HeightBound(p, |fs.inodes|);
      if Inum(p) == i {
        ClearedPtr(g, p);
      } else {
        SamePtr(fs, g, p);
      }
    }
  }

  lemma {:induction false} ClearedPtr(g: Fs, p: Place)
    requires g.Shape() && g.Has(p) && Inum(p) < |g.inodes|
    requires forall s :: 0 <= s < NADDRS ==> g.inodes[Inum(p)].addrs[s] == 0
    ensures g.Ptr(p) == 0
  {
    if p.Child? {
      ClearedPtr(g, p.parent);
    }
  }

  lemma SlotBound(fs: Fs, own: Owners, first: nat)
    requires Tree(fs, own, first)
    ensures forall b :: b in own ==> first <= b < |fs.blocks| && Slot(own[b]) < NADDRS
  {
    forall b | b in own
      ensures Slot(own[b]) < NADDRS
    {
      SlotOf(own[b], |fs.inodes|);
    }
  }

  lemma SlotOf(p: Place, ninodes: nat)
    requires IsPlace(p, ninodes)
    ensures Slot(p) < NADDRS
  {
  }

  function Slot(p: Place): nat {
    match p
    case Root(_, s) => s
    case Child(q, _) => Slot(q)
  }
}
