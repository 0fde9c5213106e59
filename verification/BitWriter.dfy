/**
 The output bit buffer of src/zlib/trees.c: up to 16 bits in `bi_buf`, and whole
 bytes in the pending buffer, which is taken here as an unbounded sink.
 */
module BitWriter {
  import opened Bits

  const BUF_SIZE := 16

  lemma JoinStrings(b: nat, k: nat, v: nat, m: nat)
    requires b < Pow2(k)
    ensures BitsOf(b + Shl(v, k), k + m) == BitsOf(b, k) + BitsOf(v, m)
  {
    var x := b + Shl(v, k);
    JoinBits(b, k, v);
    BitsOfSplit(x, k, m);
    BitsOfLow(x, k);
  }

  lemma {:induction false} ShortBytes(w: nat)
    requires w < Pow2(BUF_SIZE)
    ensures Shr(w, 8) < 256 && Low(w, 8) < 256
    ensures BitsOf(Low(w, 8), 8) + BitsOf(Shr(w, 8), 8) == BitsOf(w, BUF_SIZE)
  {
    assert Pow2(8) == 256;
    ShrBound(w, 8, 8);
    BitsOfSplit(w, 8, 8);
    BitsOfLow(w, 8);
  }

  class Writer {
    var pending: seq<Byte>
    var biBuf: nat
    var biValid: nat

    /** All bits above the last valid bit are zero. */
    ghost predicate Valid()
      reads this
    {
      biValid <= BUF_SIZE && biBuf < Pow2(biValid)
    }

    /** The bits written so far. */
    ghost function Stream(): seq<bool>
      reads this
    {
      StreamOf(pending) + BitsOf(biBuf, biValid)
    }

    constructor ()
      ensures Valid() && Stream() == []
    {
      pending, biBuf, biValid := [], 0, 0;
    }

    method PutShort(w: nat)
      requires w < Pow2(BUF_SIZE)
      modifies this`pending
      ensures StreamOf(pending) == StreamOf(old(pending)) + BitsOf(w, BUF_SIZE)
    {
      hide BitsOf, StreamOf, Pow2, Low, Shr;
      ShortBytes(w);
      StreamSnoc(pending, Low(w, 8));
      StreamSnoc(pending + [Low(w, 8)], Shr(w, 8));
      pending := pending + [Low(w, 8)];
      pending := pending + [Shr(w, 8)];
    }

    /**
     Appends the low `length` bits of `value`.  The source's `|=` puts the value
     above the valid bits of the buffer, where the buffer is zero, so it is a sum;
     the 16-bit buffer drops what does not fit.
     */
    method SendBits(value: nat, length: nat)
      requires Valid() && length <= BUF_SIZE && value < Pow2(length)
      modifies this
      ensures Valid() && Stream() == old(Stream()) + BitsOf(value, length)
    {
      hide BitsOf, Shl, Shr, Low, Pow2, StreamOf;
      ghost var b, k := biBuf, biValid;
      var x := biBuf + Shl(value, biValid);
      if biValid > BUF_SIZE - length {
        var room := BUF_SIZE - biValid;
        SpillBits(b, k, value, length);
        PutShort(Low(x, BUF_SIZE));
        biBuf := Shr(value, room);
        biValid := biValid + length - BUF_SIZE;
        assert StreamOf(pending) + BitsOf(biBuf, biValid)
            == StreamOf(old(pending)) + (BitsOf(Low(x, BUF_SIZE), BUF_SIZE) + BitsOf(biBuf, biValid));
      } else {
        JoinStrings(b, k, value, length);
        FitBits(b, k, value, length);
        biBuf := x;
        biValid := biValid + length;
      }
      assert Stream() == StreamOf(old(pending)) + (BitsOf(b, k) + BitsOf(value, length));
    }

    /** Flushes whole bytes, leaving at most 7 bits in the buffer. */
    method BiFlush()
      requires Valid()
      modifies this
      ensures Valid() && biValid <= 7 && Stream() == old(Stream())
    {
      hide BitsOf, StreamOf, Low, Shr;
      assert Pow2(8) == 256;
      if biValid == BUF_SIZE {
        PutShort(biBuf);
        biBuf, biValid := 0, 0;
        assert BitsOf(0, 0) == [];
      } else if biValid >= 8 {
        StreamSnoc(pending, Low(biBuf, 8));
        BitsOfSplit(biBuf, 8, biValid - 8);
        BitsOfLow(biBuf, 8);
        ShrBound(biBuf, 8, biValid - 8);
        pending := pending + [Low(biBuf, 8)];
        biBuf := Shr(biBuf, 8);
        biValid := biValid - 8;
      }
    }

    /** Flushes the buffer and fills the last byte with zero bits. */
    method BiWindup()
      requires Valid()
      modifies this
      ensures Valid() && biValid == 0
      ensures exists z :: 0 <= z < 8 && Stream() == old(Stream()) + BitsOf(0, z)
    {
      hide BitsOf, Shl, Shr, Low, StreamOf;
      ghost var size := if biValid > 8 then 16 else if biValid > 0 then 8 else 0;
      ghost var z := size - biValid;
      PadBits(biBuf, biValid, z);
      Pow2Mono(biValid, size);
      if biValid > 8 {
        PutShort(biBuf);
      } else if biValid > 0 {
        StreamSnoc(pending, Low(biBuf, 8));
        BitsOfLow(biBuf, 8);
        pending := pending + [Low(biBuf, 8)];
      }
      biBuf, biValid := 0, 0;
      assert Stream() == old(Stream()) + BitsOf(0, z);
    }
  }

  lemma FitBits(b: nat, k: nat, v: nat, len: nat)
    requires b < Pow2(k) && v < Pow2(len)
    ensures b + Shl(v, k) < Pow2(k + len)
  {
    ShlBound(v, k, len);
  }

  /** The bits that fill a 16-bit buffer and the bits that spill over it. */
  lemma SpillBits(b: nat, k: nat, v: nat, len: nat)
    requires b < Pow2(k) && k <= BUF_SIZE && len <= BUF_SIZE < k + len && v < Pow2(len)
    ensures BitsOf(Low(b + Shl(v, k), BUF_SIZE), BUF_SIZE) + BitsOf(Shr(v, BUF_SIZE - k), k + len - BUF_SIZE)
         == BitsOf(b, k) + BitsOf(v, len)
    ensures Shr(v, BUF_SIZE - k) < Pow2(k + len - BUF_SIZE)
  {
    hide BitsOf, Shl, Shr, Low, Pow2;
    var m := BUF_SIZE - k;
    JoinStrings(b, k, v, m);
    BitsOfLow(b + Shl(v, k), BUF_SIZE);
    BitsOfSplit(v, m, len - m);
    ShrBound(v, m, len - m);
  }

  lemma PadBits(b: nat, k: nat, z: nat)
    requires b < Pow2(k)
    ensures BitsOf(b, k + z) == BitsOf(b, k) + BitsOf(0, z)
  {
    JoinStrings(b, k, 0, z);
    ShlZero(k);
  }
}
