/** The free map of fs.c as it is stored: one bit for each disk block, eight to a byte. */
module Bitmap {
  /** 1 << k */
  function Mask(k: nat): bv8 {
    if k == 0 then 1 else if k == 1 then 2 else if k == 2 then 4 else if k == 3 then 8
    else if k == 4 then 16 else if k == 5 then 32 else if k == 6 then 64 else 128
  }

  /** The operations of balloc and bfree on a byte of the map. */
  predicate Has(x: bv8, k: nat) {
    x & Mask(k) != 0
  }

  function Mark(x: bv8, k: nat): bv8 {
    x | Mask(k)
  }

  function Unmark(x: bv8, k: nat): bv8 {
    x & !Mask(k)
  }

  /** Marking and unmarking a bit changes that bit of the byte and no other. */
  lemma MarkedByte(x: bv8, k: nat, j: nat)
    requires k < 8 && j < 8
    ensures Has(Mark(x, k), j) <==> j == k || Has(x, j)
    ensures Has(Unmark(x, k), j) <==> j != k && Has(x, j)
  {
  }

  predicate Bit(bytes: seq<bv8>, b: nat) {
    b / 8 < |bytes| && Has(bytes[b / 8], b % 8)
  }

  /** The bytes hold these bits. */
  ghost predicate Packed(bytes: seq<bv8>, bits: seq<bool>) {
    |bits| <= 8 * |bytes| && forall b: nat :: b < |bits| ==> (Bit(bytes, b) <==> bits[b])
  }

  lemma PackedAt(bytes: seq<bv8>, bits: seq<bool>, b: nat)
    requires Packed(bytes, bits) && b < |bits|
    ensures b / 8 < |bytes| && (Has(bytes[b / 8], b % 8) <==> bits[b])
  {
    hide Has;
    assert Bit(bytes, b) <==> bits[b];
  }

  lemma MarkedBit(bytes: seq<bv8>, b: nat, c: nat)
    requires b / 8 < |bytes| && c / 8 < |bytes|
    ensures Bit(bytes[b / 8 := Mark(bytes[b / 8], b % 8)], c) <==> c == b || Bit(bytes, c)
    ensures Bit(bytes[b / 8 := Unmark(bytes[b / 8], b % 8)], c) <==> c != b && Bit(bytes, c)
  {
    hide Has, Mark, Unmark;
    MarkedByte(bytes[b / 8], b % 8, c % 8);
  }

  lemma PackedMark(bytes: seq<bv8>, bits: seq<bool>, b: nat)
    requires Packed(bytes, bits) && b < |bits|
    ensures b / 8 < |bytes|
    ensures Packed(bytes[b / 8 := Mark(bytes[b / 8], b % 8)], bits[b := true])
    ensures Packed(bytes[b / 8 := Unmark(bytes[b / 8], b % 8)], bits[b := false])
  {
    hide Bit, Has, Mark, Unmark;
    var x, y := bytes[b / 8 := Mark(bytes[b / 8], b % 8)], bytes[b / 8 := Unmark(bytes[b / 8], b % 8)];
    forall c: nat | c < |bits|
      ensures (Bit(x, c) <==> c == b || Bit(bytes, c)) && (Bit(y, c) <==> c != b && Bit(bytes, c))
    {
      MarkedBit(bytes, b, c);
    }
  }

  /** A bit's place: its block of the map, the byte there and the bit of the byte. */
  lemma BitPlace(b: nat)
    ensures b / 8 == b / 4096 * 512 + b % 4096 / 8 && b % 4096 % 8 == b % 8
  {
    var q, r := b / 4096, b % 4096;
    assert b == 4096 * q + r;
    var s, m := r / 8, r % 8;
    assert b == 8 * (512 * q + s) + m;
  }

  /** The place of the `bi`-th bit of the block that begins with bit `b`. */
  lemma InBlock(b: nat, bi: nat)
    requires b % 4096 == 0 && bi < 4096
    ensures b / 4096 * 512 + bi / 8 == (b + bi) / 8 && bi % 8 == (b + bi) % 8 && (b + bi) / 4096 == b / 4096
  {
    BitPlace(b + bi);
    var q := b / 4096;
    assert b + bi == 4096 * q + bi;
  }
}
