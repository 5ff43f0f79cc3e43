/** Bits of the data bitmap (kernel/filesystem.h, kernel/filesystem.c). */
module Bitmap {

  /** BITMAP_GET of a byte. */
  predicate Bit(byte: bv8, k: nat)
    requires k < 8
  {
    (byte >> k) & 1 == 1
  }

  /** BITMAP_SET and BITMAP_CLEAR of a byte. */
  function WithBit(byte: bv8, k: nat): bv8
    requires k < 8
  {
    byte | (1 << k)
  }

  function WithoutBit(byte: bv8, k: nat): bv8
    requires k < 8
  {
    byte & !(1 << k)
  }

  lemma SetBit(byte: bv8, k: nat, j: nat)
    requires k < 8 && j < 8
    ensures Bit(WithBit(byte, k), j) <==> j == k || Bit(byte, j)
  {
  }

  lemma ClearBit(byte: bv8, k: nat, j: nat)
    requires k < 8 && j < 8
    ensures Bit(WithoutBit(byte, k), j) <==> j != k && Bit(byte, j)
  {
  }

  lemma FullByte(byte: bv8)
    ensures byte == 0xff <==> forall j: nat :: j < 8 ==> Bit(byte, j)
  {
    if forall j: nat :: j < 8 ==> Bit(byte, j) {
      assert Bit(byte, 0) && Bit(byte, 1) && Bit(byte, 2) && Bit(byte, 3);
      assert Bit(byte, 4) && Bit(byte, 5) && Bit(byte, 6) && Bit(byte, 7);
    }
  }

  /** Block `b` is marked in the bitmap. */
  predicate Marked(bitmap: seq<bv8>, b: nat) { b / 8 < |bitmap| && Bit(bitmap[b / 8], b % 8) }

  /** The lowest bit of a byte is the first of its eight blocks. */
  lemma BitOrder()
    ensures Marked([0x01], 0) && Marked([0x80], 7) && Marked([0x00, 0x02], 9)
    ensures forall b: nat {:trigger Marked([0x01], b)} :: b > 0 ==> !Marked([0x01], b)
  {
    assert forall k: nat {:trigger Bit(0x01, k)} :: 0 < k < 8 ==> !Bit(0x01, k);
  }

  /** The bitmap with block `b` marked, and with it unmarked. */
  function Mark(bitmap: seq<bv8>, b: nat): seq<bv8>
    requires b / 8 < |bitmap|
  {
    bitmap[b / 8 := WithBit(bitmap[b / 8], b % 8)]
  }

  function Unmark(bitmap: seq<bv8>, b: nat): seq<bv8>
    requires b / 8 < |bitmap|
  {
    bitmap[b / 8 := WithoutBit(bitmap[b / 8], b % 8)]
  }

  /** Marking and unmarking change one block. */
  lemma MarkOne(bitmap: seq<bv8>, b: nat, c: nat)
    requires b / 8 < |bitmap|
    ensures Marked(Mark(bitmap, b), c) <==> c == b || Marked(bitmap, c)
    ensures Marked(Unmark(bitmap, b), c) <==> c != b && Marked(bitmap, c)
  {
    hide Bit, WithBit, WithoutBit;
    if c / 8 == b / 8 {
      SetBit(bitmap[b / 8], b % 8, c % 8);
      ClearBit(bitmap[b / 8], b % 8, c % 8);
    }
  }

  lemma ByteOfBits(x: bv8, y: bv8)
    requires forall j: nat :: j < 8 ==> Bit(x, j) == Bit(y, j)
    ensures x == y
  {
    assert Bit(x, 0) == Bit(y, 0) && Bit(x, 1) == Bit(y, 1) && Bit(x, 2) == Bit(y, 2) && Bit(x, 3) == Bit(y, 3);
    assert Bit(x, 4) == Bit(y, 4) && Bit(x, 5) == Bit(y, 5) && Bit(x, 6) == Bit(y, 6) && Bit(x, 7) == Bit(y, 7);
  }

  /** Bitmaps of the same length that mark the same blocks are equal. */
  lemma SameMarks(x: seq<bv8>, y: seq<bv8>)
    requires |x| == |y| && forall b: nat :: Marked(x, b) == Marked(y, b)
    ensures x == y
  {
    forall i | 0 <= i < |x| ensures x[i] == y[i] {
      forall j: nat | j < 8 ensures Bit(x[i], j) == Bit(y[i], j) {
        assert Marked(x, i * 8 + j) == Marked(y, i * 8 + j);
      }
      ByteOfBits(x[i], y[i]);
    }
  }

  /** `allocate_block` on the bitmap bytes: the first unmarked block is marked. */
  method FirstFree(bitmap: seq<bv8>) returns (b: nat, bitmap': seq<bv8>)
    ensures b <= 8 * |bitmap| && forall c: nat :: c < b ==> Marked(bitmap, c)
    ensures b < 8 * |bitmap| ==> b / 8 < |bitmap| && !Marked(bitmap, b) && bitmap' == Mark(bitmap, b)
    ensures b == 8 * |bitmap| ==> bitmap' == bitmap
  {
    for offset := 0 to |bitmap|
      invariant forall c: nat :: c < 8 * offset ==> Marked(bitmap, c)
    {
      var buf := bitmap[offset];
      FullByte(buf);
      if buf != 0xff {
        for bit := 0 to 8
          invariant forall j: nat :: j < bit ==> Bit(buf, j)
          invariant forall c: nat :: c < 8 * offset + bit ==> Marked(bitmap, c)
        {
          if !Bit(buf, bit) {
            b := 8 * offset + bit;
            assert b / 8 == offset && b % 8 == bit;
            bitmap' := bitmap[offset := WithBit(buf, bit)];
            return;
          }
          forall c: nat | c < 8 * offset + bit + 1 ensures Marked(bitmap, c) {
            if c == 8 * offset + bit { assert c / 8 == offset && c % 8 == bit; }
          }
        }
      } else {
        forall c: nat | c < 8 * (offset + 1) ensures Marked(bitmap, c) {
          if c >= 8 * offset { assert c / 8 == offset; }
        }
      }
    }
    b, bitmap' := 8 * |bitmap|, bitmap;
  }

  /** How many of the first `n` blocks are unmarked. */
  function FreeCount(bitmap: seq<bv8>, n: nat): nat
  {
    if n == 0 then 0 else FreeCount(bitmap, n - 1) + (if Marked(bitmap, n - 1) then 0 else 1)
  }

  lemma {:induction false} FreeSome(bitmap: seq<bv8>, n: nat)
    ensures FreeCount(bitmap, n) > 0 <==> exists b: nat :: b < n && !Marked(bitmap, b)
  {
    hide Marked;
    if n > 0 { FreeSome(bitmap, n - 1); }
  }

  /** Marking a block takes one off the count. */
  lemma {:induction false} FreeMark(bitmap: seq<bv8>, b: nat, n: nat)
    requires b / 8 < |bitmap| && !Marked(bitmap, b)
    ensures FreeCount(Mark(bitmap, b), n) == FreeCount(bitmap, n) - (if b < n then 1 else 0)
  {
    hide Marked, Mark;
    if n > 0 {
      FreeMark(bitmap, b, n - 1);
      MarkOne(bitmap, b, n - 1);
    }
  }

  /** Unmarking a block adds one to the count. */
  lemma {:induction false} FreeUnmark(bitmap: seq<bv8>, b: nat, n: nat)
    requires b / 8 < |bitmap| && Marked(bitmap, b)
    ensures FreeCount(Unmark(bitmap, b), n) == FreeCount(bitmap, n) + (if b < n then 1 else 0)
  {
    hide Marked, Unmark;
    if n > 0 {
      FreeUnmark(bitmap, b, n - 1);
      MarkOne(bitmap, b, n - 1);
    }
  }
}
