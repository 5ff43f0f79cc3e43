/** `bitmap_locate` and `allocate_contiguous_blocks` (script/mkfs.py): a run of blocks is marked
    byte by byte. */
module ImageBitmap {
  import opened Paging
  import opened Bitmap

  /** The byte with its bits from `k` up, or up to `k`, set. */
  function HighBits(byte: bv8, k: nat): bv8
    requires k < 8
  {
    byte | (0xff << k)
  }

  function LowBits(byte: bv8, k: nat): bv8
    requires k < 8
  {
    byte | (0xff >> (7 - k))
  }

  lemma HighBit(byte: bv8, k: nat, j: nat)
    requires k < 8 && j < 8
    ensures Bit(HighBits(byte, k), j) <==> j >= k || Bit(byte, j)
  {
    if k < 4 {
      if k == 0 { } else if k == 1 { } else if k == 2 { } else { }
    } else {
      if k == 4 { } else if k == 5 { } else if k == 6 { } else { }
    }
  }

  lemma LowBit(byte: bv8, k: nat, j: nat)
    requires k < 8 && j < 8
    ensures Bit(LowBits(byte, k), j) <==> j <= k || Bit(byte, j)
  {
    if k < 4 {
      if k == 0 { } else if k == 1 { } else if k == 2 { } else { }
    } else {
      if k == 4 { } else if k == 5 { } else if k == 6 { } else { }
    }
  }

  /** A byte whose blocks are marked up to `hi`, from `lo` on. */
  ghost predicate Run(byte': bv8, byte: bv8, lo: int, hi: int)
  {
    forall j: nat {:trigger Bit(byte', j)} :: j < 8 ==> (Bit(byte', j) <==> lo <= j < hi || Bit(byte, j))
  }

  /** The loop for a run within one byte. */
  method OneByte(byte: bv8, lo: nat, hi: nat) returns (byte': bv8)
    requires lo <= 8 && hi < 8
    ensures Run(byte', byte, lo, hi + 1)
  {
    hide Bit, WithBit;
    byte' := byte;
    var i := lo;
    while i < hi + 1
      invariant lo <= i <= 8 && (i <= hi + 1 || i == lo) && Run(byte', byte, lo, i)
    {
      forall j: nat | j < 8 ensures Bit(WithBit(byte', i), j) <==> j == i || Bit(byte', j) { SetBit(byte', i, j); }
      byte' := WithBit(byte', i);
      i := i + 1;
    }
  }

  lemma RunHigh(byte: bv8, k: nat)
    requires k < 8
    ensures Run(HighBits(byte, k), byte, k, 8)
  {
    hide Bit, HighBits;
    forall j: nat | j < 8 ensures Bit(HighBits(byte, k), j) <==> j >= k || Bit(byte, j) { HighBit(byte, k, j); }
  }

  lemma RunLow(byte: bv8, k: nat)
    requires k < 8
    ensures Run(LowBits(byte, k), byte, 0, k + 1)
  {
    hide Bit, LowBits;
    forall j: nat | j < 8 ensures Bit(LowBits(byte, k), j) <==> j <= k || Bit(byte, j) { LowBit(byte, k, j); }
  }

  lemma RunNone(byte: bv8, lo: nat)
    ensures Run(byte, byte, lo, 0)
  {
    hide Bit;
  }

  lemma RunFull(byte: bv8)
    ensures Run(0xff, byte, 0, 8)
  {
    FullByte(0xff);
  }

  /** What a run of blocks means for byte `i`. */
  lemma ByteOfRun(byte': bv8, byte: bv8, i: nat, from: nat, size: nat)
    requires size >= 1
    requires var last := from + size - 1;
             Run(byte', byte, if i == from / 8 then from % 8 else 0,
                 if i < from / 8 || i > last / 8 then 0 else if i == last / 8 then last % 8 + 1 else 8)
    ensures Run(byte', byte, from - 8 * i, from + size - 8 * i)
  {
    hide Bit;
    var last := from + size - 1;
    assert from == 8 * (from / 8) + from % 8 && last == 8 * (last / 8) + last % 8;
    if i < from / 8 { assert from - 8 * i >= 8; }
    if i > last / 8 { assert from + size - 8 * i <= 0; }
  }

  /** Bitmaps that differ byte by byte by a run of blocks. */
  lemma RunMarked(bitmap': seq<bv8>, bitmap: seq<bv8>, from: nat, to: nat)
    requires |bitmap'| == |bitmap|
    requires forall i: nat {:trigger bitmap'[i]} :: i < |bitmap| ==>
      Run(bitmap'[i], bitmap[i], from - 8 * i, to - 8 * i)
    ensures forall b: nat {:trigger Marked(bitmap', b)} :: b / 8 < |bitmap| ==>
      (Marked(bitmap', b) <==> from <= b < to || Marked(bitmap, b))
  {
    hide Bit;
    forall b: nat | b / 8 < |bitmap| ensures Marked(bitmap', b) <==> from <= b < to || Marked(bitmap, b) {
      assert Run(bitmap'[b / 8], bitmap[b / 8], from - 8 * (b / 8), to - 8 * (b / 8));
      assert Bit(bitmap'[b / 8], b % 8) <==>
        from - 8 * (b / 8) <= b % 8 < to - 8 * (b / 8) || Bit(bitmap[b / 8], b % 8);
    }
  }

  /** `allocate_contiguous_blocks`; None is the exception. Exactly the blocks of the run become
      marked, if there are any; a run of no blocks marks nothing unless it starts a byte: then that
      byte and the one before become full. */
  method AllocateRun(bitmap: seq<bv8>, from: nat, size: nat) returns (r: Option<seq<bv8>>)
    requires size >= 1 || (from >= 1 && from / 8 < |bitmap|)
    ensures r.Some? <==> (from + size - 1) / 8 < |bitmap|
    ensures r.Some? ==> |r.value| == |bitmap|
    ensures r.Some? && size >= 1 ==> forall b: nat {:trigger Marked(r.value, b)} :: b / 8 < |bitmap| ==>
      (Marked(r.value, b) <==> from <= b < from + size || Marked(bitmap, b))
    ensures r.Some? && size == 0 ==>
      r.value == if from % 8 != 0 then bitmap else bitmap[from / 8 := 0xff][from / 8 - 1 := 0xff]
  {
    hide HighBits, LowBits, Marked, Run;
    var first, lo := from / 8, from % 8;
    var last, hi := (from + size - 1) / 8, (from + size - 1) % 8;
    if last >= |bitmap| { return None; }
    var bytes: seq<bv8>;
    if first == last {
      var byte := OneByte(bitmap[first], lo, hi);
      bytes := bitmap[first := byte];
      if size == 0 { RunEmpty(byte, bitmap[first], lo); }
    } else {
      RunHigh(bitmap[first], lo);
      RunLow(bitmap[last], hi);
      Ends(bitmap[first]);
      bytes := bitmap[first := HighBits(bitmap[first], lo)];
      var at := first + 1;
      while at < last
        invariant first < at && (at <= last || at == first + 1) && |bytes| == |bitmap|
        invariant forall k: nat {:trigger bytes[k]} :: k < |bitmap| ==>
          bytes[k] == if k == first then HighBits(bitmap[first], lo) else if first < k < at then 0xff else bitmap[k]
      {
        bytes := bytes[at := 0xff];
        at := at + 1;
      }
      var byte := if at < |bytes| then bytes[at] else 0;
      Ends(byte);
      bytes := bytes[last := LowBits(byte, hi)];
    }
    if size >= 1 {
      forall i: nat | i < |bitmap| ensures Run(bytes[i], bitmap[i], from - 8 * i, from + size - 8 * i) {
        RunFull(bitmap[i]);
        RunNone(bitmap[i], if i == first then lo else 0);
        ByteOfRun(bytes[i], bitmap[i], i, from, size);
      }
      RunMarked(bytes, bitmap, from, from + size);
    }
    r := Some(bytes);
  }

  lemma RunEmpty(byte': bv8, byte: bv8, lo: nat)
    requires Run(byte', byte, lo, lo)
    ensures byte' == byte
  {
    hide Bit;
    forall j: nat | j < 8 ensures Bit(byte', j) == Bit(byte, j) { }
    ByteOfBits(byte', byte);
  }

  lemma Ends(byte: bv8)
    ensures HighBits(byte, 0) == 0xff && LowBits(byte, 7) == 0xff
  {
  }
}
