/** A disk image that three files fill but for nine blocks, one in each of nine blocks of the free map. */
module FsCrowded {
  import opened Kinds
  import opened Blocks
  import opened FsTree
  import opened FsContents
  import opened FsLogBound
  import opened FileSystem
  import opened Bitmap
  import opened FsWorst

  // ----- the places in use, in order -----

  /** The data blocks of each file, and the blocks of the double indirect region that hold their numbers. */
  function Data(i: nat): nat {
    if i < 3 then 16520 else 6540
  }

  function Doubles(i: nat): nat {
    if i < 3 then 128 else 51
  }

  /** The number of places in use before those of inode `i`. */
  function Base(i: nat): nat {
    if i <= 1 then 0 else if i == 2 then 16650 else 33300
  }

  /** The places in use: of the inodes 1, 2 and 3. */
  predicate There(p: Place) {
    match p
    case Root(i, s) => 1 <= i <= 3 && s <= 11
    case Child(Root(i, s), k) => 1 <= i <= 3 && ((s == 10 && k < 128) || (s == 11 && k < Doubles(i)))
    case Child(Child(Root(i, s), x), y) => 1 <= i <= 3 && s == 11 && y < 128 && 138 + 128 * x + y < Data(i)
    case Child(Child(Child(_, _), _), _) => false
  }

  /** The position of a place in use within its file: the data blocks first. */
  function Order(p: Place): nat
    requires There(p)
  {
    match p
    case Root(i, s) => if s < 10 then s else Data(i) + s - 10
    case Child(Root(i, s), k) => if s == 10 then 10 + k else Data(i) + 2 + k
    case Child(Child(Root(i, s), x), y) => 138 + 128 * x + y
  }

  /** The place at a position of file `i`. */
  function PlaceOf(i: nat, r: nat): Place {
    if r < 10 then Root(i, r)
    else if r < 138 then Child(Root(i, 10), r - 10)
    else if r < Data(i) then Child(Child(Root(i, 11), (r - 138) / 128), (r - 138) % 128)
    else if r < Data(i) + 2 then Root(i, r - Data(i) + 10)
    else Child(Root(i, 11), r - Data(i) - 2)
  }

  lemma PlaceOfOrder(p: Place)
    requires There(p)
    ensures var i := Inum(p);
      1 <= i <= 3 && Order(p) < Data(i) + 2 + Doubles(i) && PlaceOf(i, Order(p)) == p
  {
    if p.Child? && p.parent.Child? {
      DivUnique(128 * p.parent.index + p.index, p.parent.index, p.index);
    }
  }

  lemma OrderOfPlace(i: nat, r: nat)
    requires 1 <= i <= 3 && r < Data(i) + 2 + Doubles(i)
    ensures var p := PlaceOf(i, r); There(p) && Order(p) == r && Inum(p) == i
  {
    if 138 <= r < Data(i) {
      assert Inum(Child(Root(i, 11), (r - 138) / 128)) == i;
    }
  }

  /** A place in use is one, and so is the place above it. */
  lemma ThereIsPlace(p: Place)
    requires There(p)
    ensures IsPlace(p, NINODES) && (p.Child? ==> There(p.parent) && Height(p.parent) > 0)
  {
  }

  // ----- block numbers -----

  const USED: nat := 39893

  predicate Hole(b: nat) {
    b % 4096 == 200 && b / 4096 < 9
  }

  /** Blocks are numbered in order from 98 on; where a free block lies, one of the last nine is used instead. */
  function Number(o: nat): nat {
    if Hole(98 + o) then 39991 + o / 4096 else 98 + o
  }

  function Position(b: nat): nat
    requires b >= 98
  {
    if b >= 39991 then 102 + 4096 * (b - 39991) else b - 98
  }

  lemma NumberPosition(o: nat)
    requires o < USED
    ensures 98 <= Number(o) < 40000 && !Hole(Number(o)) && Position(Number(o)) == o
  {
  }

  lemma PositionNumber(b: nat)
    requires 98 <= b < 40000 && !Hole(b)
    ensures Position(b) < USED && Number(Position(b)) == b
  {
  }

  function At(o: nat): Place {
    if o < 16650 then PlaceOf(1, o) else if o < 33300 then PlaceOf(2, o - 16650) else PlaceOf(3, o - 33300)
  }

  lemma AtThere(o: nat)
    requires o < USED
    ensures There(At(o)) && Base(Inum(At(o))) + Order(At(o)) == o
  {
    hide PlaceOf, There, Order, Inum;
    if o < 16650 {
      OrderOfPlace(1, o);
    } else if o < 33300 {
      OrderOfPlace(2, o - 16650);
    } else {
      OrderOfPlace(3, o - 33300);
    }
  }

  lemma ThereAt(p: Place)
    requires There(p)
    ensures Base(Inum(p)) + Order(p) < USED && At(Base(Inum(p)) + Order(p)) == p
  {
    hide PlaceOf, There, Order, Inum;
    PlaceOfOrder(p);
  }

  // ----- the disk -----

  /** The block number at a place. */
  function Wanted(p: Place): (w: Word)
    ensures w != 0 <==> There(p)
  {
    if There(p) then
      ThereAt(p);
      NumberPosition(Base(Inum(p)) + Order(p));
      Number(Base(Inum(p)) + Order(p))
    else 0
  }

  /** The indirect block at a place. */
  function Pointers(p: Place): (b: Block) {
    seq(BSIZE, j requires 0 <= j < BSIZE => WordBytes(Wanted(Child(p, j / 4)))[j % 4])
  }

  lemma Quarter(j: nat, k: nat, m: nat)
    requires j == 4 * k + m && m < 4
    ensures j / 4 == k && j % 4 == m
  {
  }

  lemma PointerByte(p: Place, k: nat, m: nat)
    requires k < NWORDS && m < 4
    ensures Pointers(p)[4 * k + m] == WordBytes(Wanted(Child(p, k)))[m]
  {
    hide Wanted, WordBytes;
    Quarter(4 * k + m, k, m);
  }

  lemma PointersAt(p: Place, k: nat)
    requires k < NWORDS
    ensures WordAt(Pointers(p), k) == Wanted(Child(p, k))
  {
    hide Wanted, WordBytes, Pointers, Join;
    PointerByte(p, k, 0);
    PointerByte(p, k, 1);
    PointerByte(p, k, 2);
    PointerByte(p, k, 3);
  }

  /** The data blocks are zero. */
  function BlockAt(b: nat): (r: Block) {
    if 98 <= b && Height(At(Position(b))) > 0 then Pointers(At(Position(b))) else ZeroBlock()
  }

  function InodeAt(i: nat): Inode {
    Inode(
      if 1 <= i <= 3 then File else Free,
      1,
      if i == 1 then OFF else if 2 <= i <= 3 then Data(i) * BSIZE else 0,
      seq(NADDRS, s requires 0 <= s < NADDRS => Wanted(Root(i, s)))
    )
  }

  function Image(): (f: Fs)
    ensures f.Shape() && |f.blocks| == 40000 && |f.inodes| == NINODES
  {
    Fs(seq(40000, b requires 0 <= b < 40000 => BlockAt(b)), seq(NINODES, i requires 0 <= i < NINODES => InodeAt(i)))
  }

  ghost function Holders(): Owners {
    map b: nat | 98 <= b < 40000 && !Hole(b) :: At(Position(b))
  }

  /** A place's number leads back to it. */
  lemma WantedAt(p: Place)
    requires There(p)
    ensures var w := Wanted(p); 98 <= w < 40000 && !Hole(w) && At(Position(w)) == p
  {
    ThereAt(p);
    NumberPosition(Base(Inum(p)) + Order(p));
  }

  lemma {:induction false} PtrIs(p: Place)
    requires Image().Has(p)
    ensures Image().Ptr(p) == Wanted(p)
  {
    hide Wanted, There, WordAt, Pointers, At, Hole, Position, Number, Height;
    if p.Child? {
      PtrIs(p.parent);
      if There(p) {
        ThereIsPlace(p);
      }
      if There(p.parent) {
        WantedAt(p.parent);
        PointersAt(p.parent, p.index);
      }
    }
  }

  lemma ImageTree()
    ensures Tree(Image(), Holders(), 98)
  {
    hide Wanted, There, At, Hole, Position, Number, Image, Fs.Ptr, IsPlace;
    var f, own := Image(), Holders();
    forall p | f.Has(p) && f.Ptr(p) != 0
      ensures f.Ptr(p) in own && own[f.Ptr(p)] == p
    {
      PtrIs(p);
      WantedAt(p);
    }
    forall b | b in own
      ensures f.Has(own[b]) && f.Ptr(own[b]) == b
    {
      PositionNumber(b);
      AtThere(Position(b));
      ThereIsPlace(own[b]);
      PtrIs(own[b]);
      WantedIs(Position(b));
    }
  }

  lemma WantedIs(o: nat)
    requires o < USED
    ensures Wanted(At(o)) == Number(o)
  {
    AtThere(o);
  }

  lemma LeafThere(bn: nat)
    requires bn < MAXFILE
    ensures There(Leaf(1, bn)) <==> bn < 16520
  {
  }

  /** The first file has the blocks that its size calls for. */
  lemma FirstFile()
    ensures NoHoles(Image(), 1, OFF) && Image().Ptr(Root(1, 12)) == 0
  {
    hide Wanted, There, At, Hole, Position, Number, Image, Fs.Ptr, IsPlace, Leaf;
    var f := Image();
    forall bn: nat | bn < MAXFILE
      ensures LeafPtr(f, 1, bn) < 40000 && (LeafPtr(f, 1, bn) != 0 <==> bn < 16520)
    {
      LeafFirst(1, bn, NINODES);
      PtrIs(Leaf(1, bn));
      LeafThere(bn);
      if bn < 16520 {
        WantedAt(Leaf(1, bn));
      }
    }
    RootPlace(1, 12, NINODES);
    PtrIs(Root(1, 12));
    assert !There(Root(1, 12)) by { NotThere(); }
  }

  lemma NotThere()
    ensures !There(Root(1, 12))
  {
  }

  lemma MiddleZero(w: Byte)
    requires w != 0
    ensures !Middle(Image(), 1, w)
  {
    hide Wanted, There, At, Hole, Position, Number, Fs.Ptr, IsPlace, Leaf;
    LeafFirst(1, 16519, NINODES);
    PtrIs(Leaf(1, 16519));
    LeafThere(16519);
    WantedAt(Leaf(1, 16519));
  }

  lemma HolesFree(b: nat)
    ensures Hole(b) <==> b in Vacancies()
  {
    hide Every;
    if Hole(b) {
      EveryHas(200, 4096, 9, b / 4096);
    }
    if b in Vacancies() {
      EveryIs(200, 4096, 9, b);
    }
  }

  lemma MapIs(bits: seq<bool>)
    requires |bits| == 40000 && forall b :: 0 <= b < 40000 ==> bits[b] == !Hole(b)
    ensures FreeMap(bits, Holders().Keys, 98) && Unset(bits) == Vacancies()
  {
    hide At, Position, Every;
    forall b: nat
      ensures b in Unset(bits) <==> b in Vacancies()
    {
      HolesFree(b);
    }
  }

  lemma FirstInode()
    ensures Image().inodes[1].kind == File && Image().inodes[1].size == OFF
  {
  }

  /** The bytes of a free map. */
  method Pack(bits: seq<bool>) returns (bytes: seq<bv8>)
    ensures Packed(bytes, bits)
  {
    bytes := seq(|bits| / 8 + 1, _ => 0);
    ghost var done := seq(|bits|, _ => false);
    for b := 0 to |bits|
      invariant |done| == |bits| && Packed(bytes, done)
      invariant forall c :: 0 <= c < |bits| ==> done[c] == (c < b && bits[c])
    {
      if bits[b] {
        PackedMark(bytes, done, b);
        bytes := bytes[b / 8 := Mark(bytes[b / 8], b % 8)];
        done := done[b := true];
      }
    }
    assert done == bits;
  }

  /** The file system of that image. */
  method Crowd() returns (fs: FileSystem)
    ensures fresh(fs) && Tight(fs, 1) && forall w: Byte :: w != 0 ==> !Middle(fs.S(), 1, w)
  {
    hide Packed, Tree, There, At, Hole, Position, Number, Image, Fs.Ptr, IsPlace, Middle, NoHoles, Every;
    var bits := seq(40000, b requires 0 <= b < 40000 => !Hole(b));
    var bitmap := Pack(bits);
    var f := Image();
    FirstFile();
    ImageTree();
    MapIs(bits);
    forall w: Byte | w != 0
      ensures !Middle(f, 1, w)
    {
      MiddleZero(w);
    }
    FirstInode();
    fs := new FileSystem(SHIPPED, f.blocks, bitmap, bits, f.inodes, Holders());
  }
}
