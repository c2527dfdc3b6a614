/** The volume bitmap: one bit per allocation block, most significant bit first. */
module Bitmap {

  /** The bit of a byte that stands for position `pos`, counted from the left. */
  function Mask(pos: nat): bv8
    requires pos < 8
  {
    if pos < 4 then
      if pos < 2 then (if pos == 0 then 0x80 else 0x40) else (if pos == 2 then 0x20 else 0x10)
    else
      if pos < 6 then (if pos == 4 then 0x08 else 0x04) else (if pos == 6 then 0x02 else 0x01)
  }

  /** The mask is what the source's shift computes. */
  lemma MaskIsShift(pos: nat)
    requires pos < 8
    ensures Mask(pos) == (1 as bv8) << (7 - pos)
  {
    assert pos == 0 || pos == 1 || pos == 2 || pos == 3 || pos == 4 || pos == 5 || pos == 6 || pos == 7;
  }

  predicate BitOf(b: bv8, pos: nat)
    requires pos < 8
  {
    b & Mask(pos) != 0
  }

  function ByteBits(b: bv8): (s: seq<bool>)
    ensures |s| == 8 && forall i :: 0 <= i < 8 ==> s[i] == BitOf(b, i)
  {
    [BitOf(b, 0), BitOf(b, 1), BitOf(b, 2), BitOf(b, 3), BitOf(b, 4), BitOf(b, 5), BitOf(b, 6), BitOf(b, 7)]
  }

  /** The bitmap as a sequence of flags; `true` means the block is in use. */
  function Bits(bytes: seq<bv8>): (s: seq<bool>)
    ensures |s| == 8 * |bytes|
  {
    if bytes == [] then [] else Bits(bytes[..|bytes| - 1]) + ByteBits(bytes[|bytes| - 1])
  }

  /** Block `n` is recorded in byte `n / 8` at position `n % 8`. */
  lemma {:induction false} BitsAt(bytes: seq<bv8>, n: nat)
    requires n < 8 * |bytes|
    ensures Bits(bytes)[n] == BitOf(bytes[n / 8], n % 8)
  {
    if n < 8 * (|bytes| - 1) {
      BitsAt(bytes[..|bytes| - 1], n);
    } else {
      assert Bits(bytes)[n] == ByteBits(bytes[|bytes| - 1])[n % 8];
    }
  }

  lemma OrTouchesOneBit(b: bv8, p: nat, q: nat)
    requires p < 8 && q < 8
    ensures BitOf(b | Mask(p), q) == (p == q || BitOf(b, q))
  {
  }

  lemma AndNotTouchesOneBit(b: bv8, p: nat, q: nat)
    requires p < 8 && q < 8
    ensures BitOf(b & !Mask(p), q) == (p != q && BitOf(b, q))
  {
  }

  predicate TestBit(bitmap: array<bv8>, bitNum: nat)
    requires bitNum < 8 * bitmap.Length
    reads bitmap
  {
    BitOf(bitmap[bitNum / 8], bitNum % 8)
  }

  lemma BitsAfterSet(bytes: seq<bv8>, bitNum: nat)
    requires bitNum < 8 * |bytes|
    ensures Bits(bytes[bitNum / 8 := bytes[bitNum / 8] | Mask(bitNum % 8)]) == Bits(bytes)[bitNum := true]
  {
    hide Bits, BitOf, Mask;
    var after := bytes[bitNum / 8 := bytes[bitNum / 8] | Mask(bitNum % 8)];
    forall n | 0 <= n < 8 * |bytes|
      ensures Bits(after)[n] == Bits(bytes)[bitNum := true][n]
    {
      BitsAt(after, n);
      BitsAt(bytes, n);
      OrTouchesOneBit(bytes[bitNum / 8], bitNum % 8, n % 8);
    }
  }

  lemma BitsAfterClear(bytes: seq<bv8>, bitNum: nat)
    requires bitNum < 8 * |bytes|
    ensures Bits(bytes[bitNum / 8 := bytes[bitNum / 8] & !Mask(bitNum % 8)]) == Bits(bytes)[bitNum := false]
  {
    hide Bits, BitOf, Mask;
    var after := bytes[bitNum / 8 := bytes[bitNum / 8] & !Mask(bitNum % 8)];
    forall n | 0 <= n < 8 * |bytes|
      ensures Bits(after)[n] == Bits(bytes)[bitNum := false][n]
    {
      BitsAt(after, n);
      BitsAt(bytes, n);
      AndNotTouchesOneBit(bytes[bitNum / 8], bitNum % 8, n % 8);
    }
  }

  method SetBit(bitmap: array<bv8>, bitNum: nat)
    requires bitNum < 8 * bitmap.Length
    modifies bitmap
    ensures Bits(bitmap[..]) == old(Bits(bitmap[..]))[bitNum := true]
  {
    var byteNum, bitPos := bitNum / 8, bitNum % 8;
    hide Bits, BitOf, Mask;
    BitsAfterSet(bitmap[..], bitNum);
    MaskIsShift(bitPos);
    var mask := (1 as bv8) << (7 - bitPos);
    bitmap[byteNum] := bitmap[byteNum] | mask;
    assert bitmap[..] == old(bitmap[..])[byteNum := bitmap[byteNum]];
  }

  method ClearBit(bitmap: array<bv8>, bitNum: nat)
    requires bitNum < 8 * bitmap.Length
    modifies bitmap
    ensures Bits(bitmap[..]) == old(Bits(bitmap[..]))[bitNum := false]
  {
    var byteNum, bitPos := bitNum / 8, bitNum % 8;
    hide Bits, BitOf, Mask;
    BitsAfterClear(bitmap[..], bitNum);
    MaskIsShift(bitPos);
    var mask := (1 as bv8) << (7 - bitPos);
    bitmap[byteNum] := bitmap[byteNum] & !mask;
    assert bitmap[..] == old(bitmap[..])[byteNum := bitmap[byteNum]];
  }
}
