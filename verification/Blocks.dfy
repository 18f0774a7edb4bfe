/** Disk blocks, and the words that the kernel finds in them by casting. */
module Blocks {
  const BSIZE: nat := 512
  const NWORDS: nat := 128
  const UINT: nat := 0x1_0000_0000

  type Byte = x: int | 0 <= x < 256
  type Block = b: seq<Byte> | |b| == BSIZE witness seq(512, _ => 0)
  type Word = x: int | 0 <= x < UINT

  function ZeroBlock(): (b: Block) {
    seq(BSIZE, _ => 0)
  }

  function Join(b0: int, b1: int, b2: int, b3: int): int {
    b0 + 0x100 * b1 + 0x1_0000 * b2 + 0x100_0000 * b3
  }

  /** `((uint*)b)[i]`, little endian. */
  function WordAt(b: Block, i: nat): Word
    requires i < NWORDS
  {
    Join(b[4 * i], b[4 * i + 1], b[4 * i + 2], b[4 * i + 3])
  }

  function WordBytes(w: Word): (s: seq<Byte>)
    ensures |s| == 4
    ensures Join(s[0], s[1], s[2], s[3]) == w
  {
    var q1 := w / 0x100;
    var q2 := q1 / 0x100;
    [w % 0x100, q1 % 0x100, q2 % 0x100, q2 / 0x100]
  }

  /** `((uint*)b)[i] = w`. */
  function SetWord(b: Block, i: nat, w: Word): (r: Block)
    requires i < NWORDS
    ensures WordAt(r, i) == w
    ensures forall j :: 0 <= j < NWORDS && j != i ==> WordAt(r, j) == WordAt(b, j)
  {
    b[..4 * i] + WordBytes(w) + b[4 * i + 4..]
  }

  lemma ZeroWords()
    ensures forall i :: 0 <= i < NWORDS ==> WordAt(ZeroBlock(), i) == 0
  {
  }
}
