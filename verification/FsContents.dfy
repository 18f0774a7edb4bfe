/** fs.c: the bytes of a file, seen through its block tree. */
module FsContents {
  import opened Blocks
  import opened FsTree

  /** The largest file, in bytes. */
  const MAXSIZE: nat := MAXFILE * BSIZE

  /** The first `len` bytes of the file lie in blocks. */
  ghost predicate Covers(fs: Fs, i: nat, len: nat) {
    && fs.Shape() && i < |fs.inodes| && len <= MAXSIZE
    && forall bn :: 0 <= bn < Count(len) ==> 0 < LeafPtr(fs, i, bn) < |fs.blocks|
  }

  lemma CountCovers(len: nat, k: nat)
    requires k < len <= MAXSIZE
    ensures k / BSIZE < Count(len) <= MAXFILE
  {
  }

  ghost function ByteAt(fs: Fs, i: nat, len: nat, k: nat): Byte
    requires Covers(fs, i, len) && k < len
  {
    CountCovers(len, k);
    fs.blocks[LeafPtr(fs, i, k / BSIZE)][k % BSIZE]
  }

  /** The first `len` bytes of the file. */
  ghost function Bytes(fs: Fs, i: nat, len: nat): (s: seq<Byte>)
    requires Covers(fs, i, len)
    ensures |s| == len
    ensures forall k :: 0 <= k < len ==> s[k] == ByteAt(fs, i, len, k)
  {
    seq(len, k requires 0 <= k < len => ByteAt(fs, i, len, k))
  }

  /** A file without holes: its blocks are exactly those that its size calls for. */
  ghost predicate NoHoles(fs: Fs, i: nat, len: nat) {
    Covers(fs, i, len) && Mapped(fs, i, Count(len))
  }

  lemma LastMapped(fs: Fs, i: nat, len: nat, bn: nat)
    requires NoHoles(fs, i, len) && bn <= Count(len) && bn < MAXFILE
    ensures fs.Shape() && i < |fs.inodes|
    ensures bn > 0 ==> LeafPtr(fs, i, bn - 1) != 0
  {
  }

  /** The contents of a file. */
  ghost function Whole(fs: Fs, i: nat): (s: seq<Byte>)
    requires i < |fs.inodes| && NoHoles(fs, i, fs.inodes[i].size)
    ensures Covers(fs, i, fs.inodes[i].size)
    ensures s == Bytes(fs, i, fs.inodes[i].size)
  {
    Bytes(fs, i, fs.inodes[i].size)
  }

  /** The file `j` has the same blocks with the same contents. */
  ghost predicate SameData(f: Fs, g: Fs, j: nat)
    requires f.Shape() && g.Shape() && j < |f.inodes| == |g.inodes| && |f.blocks| == |g.blocks|
  {
    forall bn :: 0 <= bn < MAXFILE ==>
      && LeafPtr(g, j, bn) == LeafPtr(f, j, bn)
      && (LeafPtr(f, j, bn) < |f.blocks| && LeafPtr(f, j, bn) != 0 ==>
        g.blocks[LeafPtr(f, j, bn)] == f.blocks[LeafPtr(f, j, bn)])
  }

  lemma SameBytes(f: Fs, g: Fs, j: nat, len: nat)
    requires Covers(f, j, len) && g.Shape() && |f.inodes| == |g.inodes| && |f.blocks| == |g.blocks| && SameData(f, g, j)
    ensures Covers(g, j, len) && Bytes(g, j, len) == Bytes(f, j, len)
    ensures NoHoles(f, j, len) ==> NoHoles(g, j, len)
  {
    CountBound(len);
    forall k | 0 <= k < len
      ensures Covers(g, j, len) && ByteAt(g, j, len, k) == ByteAt(f, j, len, k)
    {
      CountCovers(len, k);
    }
  }

  lemma SameDataTrans(f: Fs, g: Fs, h: Fs, j: nat)
    requires f.Shape() && g.Shape() && h.Shape() && j < |f.inodes| == |g.inodes| == |h.inodes|
    requires |f.blocks| == |g.blocks| == |h.blocks| && SameData(f, g, j) && SameData(g, h, j)
    ensures SameData(f, h, j)
  {
  }

  /** Every file but `i` has the same inode and the same data. */
  ghost predicate OthersSame(f: Fs, g: Fs, i: nat) {
    && f.Shape() && g.Shape() && |f.inodes| == |g.inodes| && |f.blocks| == |g.blocks|
    && forall j :: 0 <= j < |f.inodes| && j != i ==> g.inodes[j] == f.inodes[j] && SameData(f, g, j)
  }

  lemma OthersSameSelf(f: Fs, i: nat)
    requires f.Shape()
    ensures OthersSame(f, f, i)
  {
  }

  /** A new size moves no pointer. */
  lemma NewSize(g: Fs, own: Owners, first: nat, h: Fs, i: nat)
    requires Tree(g, own, first) && h.blocks == g.blocks && i < |g.inodes|
    requires exists n :: h.inodes == g.inodes[i := g.inodes[i].(size := n)]
    ensures Tree(h, own, first) && OthersSame(g, h, i) && SameData(g, h, i)
  {
    assert h.Shape();
    forall p | g.Has(p)
      ensures h.Ptr(p) == g.Ptr(p)
    {
      SamePtr(g, h, p);
    }
    forall j, bn | 0 <= j < |g.inodes| && 0 <= bn < MAXFILE
      ensures LeafPtr(h, j, bn) == LeafPtr(g, j, bn)
    {
      LeafFirst(j, bn, |g.inodes|);
    }
  }

  lemma OthersSameTrans(f: Fs, g: Fs, h: Fs, i: nat)
    requires OthersSame(f, g, i) && OthersSame(g, h, i)
    ensures OthersSame(f, h, i)
  {
    forall j | 0 <= j < |f.inodes| && j != i
      ensures SameData(f, h, j)
    {
      SameDataTrans(f, g, h, j);
    }
  }

  lemma CountBound(len: nat)
    requires len <= MAXSIZE
    ensures Count(len) <= MAXFILE
  {
  }

  // ----- bmap -----

  /** The only place of a data block on the path to one is its own. */
  lemma {:induction false} PathHeights(p: Place, q: Place)
    requires p in Path(q)
    ensures Height(p) >= Height(q) && (Height(p) == Height(q) ==> p == q) && Inum(p) == Inum(q)
  {
    if q.Child? && p != q {
      PathHeights(p, q.parent);
    }
  }

  /** Filling the path to one data block leaves every other data block where and as it was. */
  lemma FillLeaf(f: Fs, own: Owners, g: Fs, own': Owners, first: nat, i: nat, bn: nat, j: nat, cn: nat)
    requires Tree(f, own, first) && Tree(g, own', first) && i < |f.inodes| && bn < MAXFILE && j < |f.inodes|
      && cn < MAXFILE
    requires Extends(f, own, g, own', Path(Leaf(i, bn)))
    ensures LeafPtr(g, j, cn) == LeafPtr(f, j, cn) || (LeafPtr(f, j, cn) == 0 && j == i && cn == bn)
    ensures 0 < LeafPtr(f, j, cn) < |f.blocks| ==> g.blocks[LeafPtr(f, j, cn)] == f.blocks[LeafPtr(f, j, cn)]
  {
    LeafFirst(i, bn, |f.inodes|);
    LeafFirst(j, cn, |f.inodes|);
    if Leaf(j, cn) in Path(Leaf(i, bn)) {
      PathHeights(Leaf(j, cn), Leaf(i, bn));
    }
  }

  lemma FillFile(f: Fs, own: Owners, g: Fs, own': Owners, first: nat, i: nat, bn: nat, len: nat)
    requires Tree(f, own, first) && Tree(g, own', first) && i < |f.inodes| && bn < MAXFILE
    requires Extends(f, own, g, own', Path(Leaf(i, bn))) && LeafPtr(g, i, bn) != 0
    requires NoHoles(f, i, len) && bn <= Count(len)
    ensures OthersSame(f, g, i)
    ensures Covers(g, i, len) && Bytes(g, i, len) == Bytes(f, i, len)
    ensures Mapped(g, i, if bn < Count(len) then Count(len) else bn + 1)
  {
    CountBound(len);
    forall p | p in Path(Leaf(i, bn))
      ensures Inum(p) == i
    {
      PathHeights(p, Leaf(i, bn));
      LeafFirst(i, bn, |f.inodes|);
    }
    forall j, cn | 0 <= j < |f.inodes| && 0 <= cn < MAXFILE
      ensures LeafPtr(g, j, cn) == LeafPtr(f, j, cn) || (LeafPtr(f, j, cn) == 0 && j == i && cn == bn)
      ensures 0 < LeafPtr(f, j, cn) < |f.blocks| ==> g.blocks[LeafPtr(f, j, cn)] == f.blocks[LeafPtr(f, j, cn)]
    {
      FillLeaf(f, own, g, own', first, i, bn, j, cn);
    }
    forall k | 0 <= k < len
      ensures Covers(g, i, len) && ByteAt(g, i, len, k) == ByteAt(f, i, len, k)
    {
      CountCovers(len, k);
    }
  }

  // ----- a store into a data block -----

  /** A store into one data block of one file changes that block of that file only. */
  lemma StoreLeaf(g: Fs, own: Owners, first: nat, i: nat, bn: nat, v: Block)
    requires Tree(g, own, first) && i < |g.inodes| && bn < MAXFILE && 0 < LeafPtr(g, i, bn) < |g.blocks|
    ensures var h := g.(blocks := g.blocks[LeafPtr(g, i, bn) := v]);
      && Tree(h, own, first)
      && (forall j, cn :: 0 <= j < |g.inodes| && 0 <= cn < MAXFILE ==>
            && LeafPtr(h, j, cn) == LeafPtr(g, j, cn)
            && (0 < LeafPtr(g, j, cn) < |g.blocks| ==>
                  h.blocks[LeafPtr(g, j, cn)] == if j == i && cn == bn then v else g.blocks[LeafPtr(g, j, cn)]))
  {
    var a := LeafPtr(g, i, bn);
    LeafFirst(i, bn, |g.inodes|);
    DataStore(g, own, first, a, v);
    var h := g.(blocks := g.blocks[a := v]);
    forall j, cn | 0 <= j < |g.inodes| && 0 <= cn < MAXFILE
      ensures LeafPtr(h, j, cn) == LeafPtr(g, j, cn)
      ensures 0 < LeafPtr(g, j, cn) < |g.blocks| ==>
        h.blocks[LeafPtr(g, j, cn)] == if j == i && cn == bn then v else g.blocks[LeafPtr(g, j, cn)]
    {
      LeafFirst(j, cn, |g.inodes|);
      if LeafPtr(g, j, cn) == a {
        LeavesDistinct(g, own, first, i, bn, j, cn);
      }
    }
  }

  /** The bytes `data` put over `s` from position `at` on, past its end if need be. */
  function Splice(s: seq<Byte>, at: nat, data: seq<Byte>): (r: seq<Byte>)
    requires at <= |s|
    ensures |r| == if at + |data| <= |s| then |s| else at + |data|
    ensures forall k :: 0 <= k < |r| ==> r[k] == if at <= k < at + |data| then data[k - at] else s[k]
  {
    s[..at] + data + if at + |data| <= |s| then s[at + |data|..] else []
  }

  lemma SpliceNone(s: seq<Byte>, at: nat)
    requires at <= |s|
    ensures Splice(s, at, []) == s
  {
  }

  lemma SpliceTwice(s: seq<Byte>, at: nat, x: seq<Byte>, y: seq<Byte>)
    requires at <= |s|
    ensures Splice(Splice(s, at, x), at + |x|, y) == Splice(s, at, x + y)
  {
  }

  lemma PieceCount(pos: nat, m: nat, len: nat)
    requires pos <= len && 0 < m && pos % BSIZE + m <= BSIZE && pos + m <= MAXSIZE
    ensures pos / BSIZE < MAXFILE && pos / BSIZE <= Count(len)
    ensures Count(if pos + m <= len then len else pos + m) ==
            if pos / BSIZE < Count(len) then Count(len) else pos / BSIZE + 1
  {
  }

  /** `h` is `g` with `data` stored into the block at `pos`, as far as file `i` goes. */
  ghost predicate Stored(g: Fs, h: Fs, i: nat, pos: nat, data: seq<Byte>) {
    && g.Shape() && h.Shape() && i < |g.inodes| == |h.inodes| && |g.blocks| == |h.blocks|
    && pos % BSIZE + |data| <= BSIZE
    && forall cn :: 0 <= cn < MAXFILE ==>
         && LeafPtr(h, i, cn) == LeafPtr(g, i, cn)
         && (0 < LeafPtr(g, i, cn) < |g.blocks| ==>
               h.blocks[LeafPtr(g, i, cn)] ==
                 if cn == pos / BSIZE then Splice(g.blocks[LeafPtr(g, i, cn)], pos % BSIZE,
                   data) else g.blocks[LeafPtr(g, i, cn)])
  }

  lemma StoredBytes(g: Fs, h: Fs, i: nat, len: nat, pos: nat, data: seq<Byte>)
    requires Stored(g, h, i, pos, data) && pos <= len && 0 < |data| && pos + |data| <= MAXSIZE
    requires Covers(g, i, len)
    requires var l := if pos + |data| <= len then len else pos + |data|; Covers(g, i, l)
    ensures var l := if pos + |data| <= len then len else pos + |data|;
      Covers(h, i, l) && Bytes(h, i, l) == Splice(Bytes(g, i, len), pos, data)
  {
    hide Leaf, IsPlace, WordAt;
    var l := if pos + |data| <= len then len else pos + |data|;
    CountBound(l);
    assert Covers(h, i, l);
    forall k | 0 <= k < l
      ensures ByteAt(h, i, l, k) == Splice(Bytes(g, i, len), pos, data)[k]
    {
      CountCovers(l, k);
      if k < len {
        assert ByteAt(g, i, len, k) == Bytes(g, i, len)[k];
      }
      if pos <= k < pos + |data| {
        assert k / BSIZE == pos / BSIZE && k % BSIZE == pos % BSIZE + (k - pos);
      }
    }
  }

  /** One round of writei: a piece of one block. */
  lemma StorePiece(g: Fs, own: Owners, first: nat, i: nat, len: nat, pos: nat, data: seq<Byte>)
    requires Tree(g, own, first) && Covers(g, i, len)
    requires pos <= len && 0 < |data| && pos % BSIZE + |data| <= BSIZE && pos + |data| <= MAXSIZE
    requires Mapped(g, i, if pos / BSIZE < Count(len) then Count(len) else pos / BSIZE + 1)
    ensures pos / BSIZE < MAXFILE && 0 < LeafPtr(g, i, pos / BSIZE) < |g.blocks|
    ensures var a := LeafPtr(g, i, pos / BSIZE);
      var h := g.(blocks := g.blocks[a := Splice(g.blocks[a], pos % BSIZE, data)]);
      var l := Grown(len, pos, |data|);
      && Tree(h, own, first)
      && NoHoles(h, i, l) && Bytes(h, i, l) == Splice(Bytes(g, i, len), pos, data)
      && OthersSame(g, h, i)
  {
    var bn := pos / BSIZE;
    PieceCount(pos, |data|, len);
    var l := if pos + |data| <= len then len else pos + |data|;
    CountBound(l);
    forall cn | 0 <= cn < Count(l)
      ensures 0 < LeafPtr(g, i, cn) < |g.blocks|
    {
      LeafFirst(i, cn, |g.inodes|);
    }
    var a := LeafPtr(g, i, bn);
    var v: Block := Splice(g.blocks[a], pos % BSIZE, data);
    StoreLeaf(g, own, first, i, bn, v);
    StoredBytes(g, g.(blocks := g.blocks[a := v]), i, len, pos, data);
  }

  /** The length of a file of `len` bytes after `n` bytes are written at `pos`. */
  function Grown(len: nat, pos: nat, n: nat): nat {
    if pos + n <= len then len else pos + n
  }

  /**
   * From `f` to `g` the file `i`, taken to be `len` bytes long, had `data` written over it
   * at `pos`, and nothing else.
   */
  ghost predicate Wrote(f: Fs, len: nat, g: Fs, i: nat, pos: nat, data: seq<Byte>) {
    && NoHoles(f, i, len) && pos <= len && OthersSame(f, g, i)
    && NoHoles(g, i, Grown(len, pos, |data|))
    && Bytes(g, i, Grown(len, pos, |data|)) == Splice(Bytes(f, i, len), pos, data)
    && g.inodes[i].(addrs := []) == f.inodes[i].(addrs := [])
    && (pos + |data| <= len ==> g.inodes[i] == f.inodes[i])
  }

  /** bmap followed by the store of a piece is a write of that piece. */
  lemma PieceEffect(f: Fs, own: Owners, g: Fs, own': Owners, first: nat, i: nat, len: nat, pos: nat, data: seq<Byte>)
    requires Tree(f, own, first) && Tree(g, own', first) && NoHoles(f, i, len)
    requires pos <= len && 0 < |data| && pos % BSIZE + |data| <= BSIZE && pos + |data| <= MAXSIZE
    requires pos / BSIZE < MAXFILE && Extends(f, own, g, own', Path(Leaf(i, pos / BSIZE)))
    requires LeafPtr(g, i, pos / BSIZE) != 0 && (LeafPtr(f, i, pos / BSIZE) != 0 ==> g == f)
    ensures LeafPtr(g, i, pos / BSIZE) < |g.blocks|
    ensures var a := LeafPtr(g, i, pos / BSIZE);
      var h := g.(blocks := g.blocks[a := Splice(g.blocks[a], pos % BSIZE, data)]);
      Tree(h, own', first) && Wrote(f, len, h, i, pos, data)
  {
    hide WordAt, SetWord, Tree, Path, Leaf, Splice, SameData, Bytes, IsPlace, OthersSame;
    var bn := pos / BSIZE;
    PieceCount(pos, |data|, len);
    FillFile(f, own, g, own', first, i, bn, len);
    StorePiece(g, own', first, i, len, pos, data);
    var a := LeafPtr(g, i, bn);
    var h := g.(blocks := g.blocks[a := Splice(g.blocks[a], pos % BSIZE, data)]);
    OthersSameTrans(f, g, h, i);
    if pos + |data| <= len {
      CountCovers(len, pos);
    }
  }

  lemma WroteNothing(f: Fs, len: nat, i: nat, pos: nat)
    requires NoHoles(f, i, len) && pos <= len
    ensures Wrote(f, len, f, i, pos, [])
  {
    OthersSameSelf(f, i);
    SpliceNone(Bytes(f, i, len), pos);
  }

  lemma WroteTwice(f: Fs, len: nat, g: Fs, h: Fs, i: nat, pos: nat, x: seq<Byte>, y: seq<Byte>)
    requires Wrote(f, len, g, i, pos, x) && Wrote(g, Grown(len, pos, |x|), h, i, pos + |x|, y)
    ensures Wrote(f, len, h, i, pos, x + y)
  {
    hide Splice, Bytes, NoHoles, OthersSame;
    WroteNoHoles(f, len, g, i, pos, x);
    OthersSameTrans(f, g, h, i);
    SpliceTwice(Bytes(f, i, len), pos, x, y);
  }

  lemma WroteNoHoles(f: Fs, len: nat, g: Fs, i: nat, pos: nat, x: seq<Byte>)
    requires Wrote(f, len, g, i, pos, x)
    ensures i < |f.inodes| == |g.inodes| && |f.blocks| == |g.blocks| && pos <= len
    ensures NoHoles(f, i, len) && NoHoles(g, i, Grown(len, pos, |x|))
    ensures Covers(f, i, len) && Covers(g, i, Grown(len, pos, |x|))
  {
  }

  /** One round of readi: part of one block is part of the file. */
  lemma ReadPiece(fs: Fs, i: nat, len: nat, pos: nat, m: nat)
    requires Covers(fs, i, len) && 0 < m && pos + m <= len && pos % BSIZE + m <= BSIZE
    ensures pos / BSIZE < Count(len) <= MAXFILE && 0 < LeafPtr(fs, i, pos / BSIZE) < |fs.blocks|
    ensures fs.blocks[LeafPtr(fs, i, pos / BSIZE)][pos % BSIZE..pos % BSIZE + m] == Bytes(fs, i, len)[pos..pos + m]
  {
    CountCovers(len, pos);
    var x := fs.blocks[LeafPtr(fs, i, pos / BSIZE)][pos % BSIZE..pos % BSIZE + m];
    var y := Bytes(fs, i, len)[pos..pos + m];
    forall k | 0 <= k < m
      ensures x[k] == y[k]
    {
      assert (pos + k) / BSIZE == pos / BSIZE && (pos + k) % BSIZE == pos % BSIZE + k;
      assert Bytes(fs, i, len)[pos + k] == ByteAt(fs, i, len, pos + k);
    }
  }

  lemma Slices(s: seq<Byte>, a: nat, b: nat, c: nat)
    requires a <= b <= c <= |s|
    ensures s[a..b] + s[b..c] == s[a..c]
  {
  }

  /** What was written is what is read back. */
  lemma SpliceReadsBack(s: seq<Byte>, at: nat, data: seq<Byte>)
    requires at <= |s|
    ensures Splice(s, at, data)[at..at + |data|] == data
  {
  }

  /**
   * The effect of writei: the bytes of file `i` from `off` on become `data`, the file grows if it must,
   * and no other byte of it, field of its inode or other file changes.
   */
  ghost predicate Rewrote(f: Fs, g: Fs, i: nat, off: nat, data: seq<Byte>) {
    && OthersSame(f, g, i) && i < |f.inodes|
    && NoHoles(f, i, f.inodes[i].size) && NoHoles(g, i, g.inodes[i].size)
    && g.inodes[i].(addrs := [], size := 0) == f.inodes[i].(addrs := [], size := 0)
    && off <= f.inodes[i].size
    && Whole(g, i) == Splice(Whole(f, i), off, data)
  }

  lemma RewroteFacts(f: Fs, g: Fs, i: nat, off: nat, data: seq<Byte>)
    requires Rewrote(f, g, i, off, data)
    ensures i < |f.inodes| == |g.inodes| && off <= f.inodes[i].size && off + |data| <= g.inodes[i].size
    ensures NoHoles(f, i, f.inodes[i].size) && NoHoles(g, i, g.inodes[i].size)
    ensures g.inodes[i].kind == f.inodes[i].kind && OthersSame(f, g, i)
    ensures Whole(g, i) == Splice(Whole(f, i), off, data)
  {
  }

  lemma RewroteTwice(f: Fs, g: Fs, h: Fs, i: nat, off: nat, x: seq<Byte>, y: seq<Byte>)
    requires Rewrote(f, g, i, off, x) && Rewrote(g, h, i, off + |x|, y)
    ensures Rewrote(f, h, i, off, x + y)
  {
    hide Splice, Bytes, NoHoles, OthersSame;
    OthersSameTrans(f, g, h, i);
    SpliceTwice(Whole(f, i), off, x, y);
  }

  lemma WroteRewrote(f: Fs, g: Fs, i: nat, off: nat, data: seq<Byte>)
    requires i < |f.inodes| && Wrote(f, f.inodes[i].size, g, i, off, data) && off + |data| <= f.inodes[i].size
    ensures Rewrote(f, g, i, off, data)
  {
  }

  /** The new size, when the write ended past the old one. */
  lemma WroteResized(f: Fs, g: Fs, own: Owners, first: nat, h: Fs, i: nat, off: nat, data: seq<Byte>)
    requires Tree(g, own, first) && i < |f.inodes| && Wrote(f, f.inodes[i].size, g, i, off, data)
    requires off + |data| > f.inodes[i].size && i < |g.inodes|
    requires h == g.(inodes := g.inodes[i := g.inodes[i].(size := off + |data|)])
    ensures Tree(h, own, first) && Rewrote(f, h, i, off, data)
  {
    NewSize(g, own, first, h, i);
    OthersSameTrans(f, g, h, i);
    SameBytes(g, h, i, off + |data|);
  }
}
