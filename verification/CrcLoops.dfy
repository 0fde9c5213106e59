/**
 The loops of src/zlib/crc32.c: crc32_z a byte at a time, crc32_little and crc32_big a
 word at a time. All compute the register that is stepped one bit at a time.
 */
module CrcLoops {
  import opened Crc32
  import opened CrcTables

  // ------------------------------------------------- one byte, one word

  /** DO1: the table entry for the low byte, and the register moved down. */
  function Do1(t: array2<bv32>, c: bv32, b: bv8): bv32
    requires Filled(t)
    reads t
  {
    Xor(t[0, Num(Byte0(Xor(c, Wide(b))))], Shr8(c))
  }

  lemma ByteAbove(c: bv32, b: bv8)
    ensures Shr8(Xor(c, Wide(b))) == Shr8(c)
  {
  }

  lemma Do1Steps(t: array2<bv32>, c: bv32, b: bv8)
    requires Filled(t)
    ensures Do1(t, c, b) == Update(c, b)
  {
    hide Xor, Shr8, Low8, Byte0, Wide, Num, Zeros, Swap;
    var x := Xor(c, Wide(b));
    assert t[0, Num(Byte0(x))] == Entry(0, Byte0(x));
    Byte0Is(x);
    ByteStep(x);
    ByteAbove(c, b);
  }

  /** DOLIT4. */
  function DoLit4(t: array2<bv32>, c: bv32, word: bv32): bv32
    requires Filled(t)
    reads t
  {
    var x := Xor(c, word);
    Xor(Xor(Xor(t[3, Num(Byte0(x))], t[2, Num(Byte1(x))]), t[1, Num(Byte2(x))]), t[0, Num(Byte3(x))])
  }

  lemma BytesOf(x: bv32)
    ensures Wide(Byte0(x)) == Low8(x) && Wide(Byte1(x)) == Low8(Shr8(x)) && Wide(Byte2(x)) == Low8(Shr8(Shr8(x)))
    ensures Wide(Byte3(x)) == Shr8(Shr8(Shr8(x)))
  {
    hide *;
    Byte0Is(x);
    Byte1Is(x);
    Byte0Is(Shr8(x));
    Byte2Is(x);
    Byte1Is(Shr8(x));
    Byte0Is(Shr8(Shr8(x)));
    Byte3Last(x);
  }

  lemma DoLit4Steps(t: array2<bv32>, c: bv32, b0: bv8, b1: bv8, b2: bv8, b3: bv8)
    requires Filled(t)
    ensures DoLit4(t, c, LittleWord(b0, b1, b2, b3)) == Update(Update(Update(Update(c, b0), b1), b2), b3)
  {
    hide Xor, Shr8, Low8, Byte0, Byte1, Byte2, Byte3, Wide, Num, Zeros, Swap, LittleWord, Update;
    var x := Xor(c, LittleWord(b0, b1, b2, b3));
    assert t[0, Num(Byte3(x))] == Entry(0, Byte3(x));
    assert t[1, Num(Byte2(x))] == Entry(1, Byte2(x));
    assert t[2, Num(Byte1(x))] == Entry(2, Byte1(x));
    assert t[3, Num(Byte0(x))] == Entry(3, Byte0(x));
    BytesOf(x);
    WordStep(x);
    FourUpdates(c, b0, b1, b2, b3);
  }

  // ------------------------------------------------- the same with the bytes of the register reversed

  function DoBig1(t: array2<bv32>, c: bv32, b: bv8): bv32
    requires Filled(t)
    reads t
  {
    Xor(t[4, Num(Byte3(c) ^ b)], Shl8(c))
  }

  lemma SwappedTop(c: bv32, b: bv8)
    ensures Byte3(Swap(c)) ^ b == Byte0(Xor(c, Wide(b)))
  {
  }

  lemma DoBig1Steps(t: array2<bv32>, c: bv32, b: bv8)
    requires Filled(t)
    ensures DoBig1(t, Swap(c), b) == Swap(Update(c, b))
  {
    hide Xor, Shr8, Shl8, Low8, Byte0, Byte3, Wide, Num, Zeros, Swap;
    var x := Xor(c, Wide(b));
    SwappedTop(c, b);
    assert t[4, Num(Byte0(x))] == Entry(4, Byte0(x));
    Byte0Is(x);
    ByteStep(x);
    ByteAbove(c, b);
    SwapShift(c);
    SwapXor(Zeros(Low8(x), 8), Shr8(c));
  }

  /** DOBIG4. */
  function DoBig4(t: array2<bv32>, c: bv32, word: bv32): bv32
    requires Filled(t)
    reads t
  {
    var x := Xor(c, word);
    Xor(Xor(Xor(t[4, Num(Byte0(x))], t[5, Num(Byte1(x))]), t[6, Num(Byte2(x))]), t[7, Num(Byte3(x))])
  }

  lemma SwappedBytes(y: bv32)
    ensures Byte0(Swap(y)) == Byte3(y) && Byte3(Swap(y)) == Byte0(y)
  {
  }

  lemma SwappedMiddle(y: bv32)
    ensures Byte1(Swap(y)) == Byte2(y) && Byte2(Swap(y)) == Byte1(y)
  {
  }

  lemma SwapFour(a: bv32, b: bv32, c: bv32, d: bv32)
    ensures Xor(Xor(Xor(Swap(d), Swap(c)), Swap(b)), Swap(a)) == Swap(Xor(Xor(Xor(a, b), c), d))
  {
    hide *;
    SwapXor(Xor(Xor(a, b), c), d);
    SwapXor(Xor(a, b), c);
    SwapXor(a, b);
    var sa, sb, sc, sd := Swap(a), Swap(b), Swap(c), Swap(d);
    XorCommutative(Xor(Xor(sd, sc), sb), sa);
    XorCommutative(Xor(sd, sc), sb);
    XorCommutative(sd, sc);
    XorAssociative(sa, sb, Xor(sc, sd));
    XorAssociative(Xor(sa, sb), sc, sd);
  }

  lemma DoBig4Steps(t: array2<bv32>, c: bv32, b0: bv8, b1: bv8, b2: bv8, b3: bv8)
    requires Filled(t)
    ensures DoBig4(t, Swap(c), BigWord(b0, b1, b2, b3)) == Swap(Update(Update(Update(Update(c, b0), b1), b2), b3))
  {
    hide Xor, Shr8, Low8, Byte0, Byte1, Byte2, Byte3, Wide, Num, Zeros, Swap, LittleWord, BigWord, Update;
    var y := Xor(c, LittleWord(b0, b1, b2, b3));
    SwapWord(b0, b1, b2, b3);
    SwapXor(c, LittleWord(b0, b1, b2, b3));
    SwappedBytes(y);
    SwappedMiddle(y);
    assert t[4, Num(Byte3(y))] == Entry(4, Byte3(y));
    assert t[5, Num(Byte2(y))] == Entry(5, Byte2(y));
    assert t[6, Num(Byte1(y))] == Entry(6, Byte1(y));
    assert t[7, Num(Byte0(y))] == Entry(7, Byte0(y));
    BytesOf(y);
    WordStep(y);
    FourUpdates(c, b0, b1, b2, b3);
    SwapFour(Zeros(Wide(Byte0(y)), 32), Zeros(Wide(Byte1(y)), 24), Zeros(Wide(Byte2(y)), 16), Zeros(Wide(Byte3(y)), 8));
  }

  // ------------------------------------------------- the loops

  lemma {:induction false} RegisterNext(c: bv32, s: seq<bv8>, i: nat)
    requires i < |s|
    ensures Register(c, s[..i + 1]) == Update(Register(c, s[..i]), s[i])
  {
    hide Update;
    assert s[..i + 1][..i] == s[..i] && s[..i + 1][i] == s[i];
  }

  lemma {:induction false} RegisterFour(c: bv32, s: seq<bv8>, i: nat)
    requires i + 4 <= |s|
    ensures Register(c, s[..i + 4])
         == Update(Update(Update(Update(Register(c, s[..i]), s[i]), s[i + 1]), s[i + 2]), s[i + 3])
  {
    hide Update, Register;
    RegisterNext(c, s, i);
    RegisterNext(c, s, i + 1);
    RegisterNext(c, s, i + 2);
    RegisterNext(c, s, i + 3);
  }

  lemma {:induction false} WholeText(c: bv32, s: seq<bv8>)
    ensures Register(c, s[..0]) == c && s[..|s|] == s
  {
  }

  /** crc32_z where no four-byte form is compiled in: DO8 while eight bytes are left, then DO1. */
  method ByByte(t: array2<bv32>, crc: bv32, s: seq<bv8>) returns (r: bv32)
    requires Filled(t)
    ensures r == Crc(crc, s)
  {
    hide Register, Do1, Update, Filled, Flip;
    var c := Flip(crc);
    WholeText(c, s);
    var i := 0;
    while |s| - i >= 8
      invariant i <= |s| && c == Register(Flip(crc), s[..i])
    {
      for k := 0 to 8
        invariant c == Register(Flip(crc), s[..i + k])
      {
        Do1Steps(t, c, s[i + k]);
        RegisterNext(Flip(crc), s, i + k);
        c := Do1(t, c, s[i + k]);
      }
      i := i + 8;
    }
    while i < |s|
      invariant i <= |s| && c == Register(Flip(crc), s[..i])
    {
      Do1Steps(t, c, s[i]);
      RegisterNext(Flip(crc), s, i);
      c := Do1(t, c, s[i]);
      i := i + 1;
    }
    r := Flip(c);
  }

  method LittleStep(t: array2<bv32>, ghost start: bv32, c: bv32, s: seq<bv8>, i: nat) returns (d: bv32)
    requires Filled(t) && i + 4 <= |s| && c == Register(start, s[..i])
    ensures d == Register(start, s[..i + 4])
  {
    hide Register, DoLit4, Update, Filled, LittleWord;
    DoLit4Steps(t, c, s[i], s[i + 1], s[i + 2], s[i + 3]);
    RegisterFour(start, s, i);
    d := DoLit4(t, c, LittleWord(s[i], s[i + 1], s[i + 2], s[i + 3]));
  }

  /** crc32_little: bytes up to a four-byte boundary of memory, words by eights, words, bytes. */
  method Little(t: array2<bv32>, crc: bv32, s: seq<bv8>, address: nat) returns (r: bv32)
    requires Filled(t)
    ensures r == Crc(crc, s)
  {
    hide Register, Do1, Update, Filled, Flip;
    var c := Flip(crc);
    WholeText(c, s);
    var i := 0;
    while i < |s| && (address + i) % 4 != 0
      invariant i <= |s| && c == Register(Flip(crc), s[..i])
    {
      Do1Steps(t, c, s[i]);
      RegisterNext(Flip(crc), s, i);
      c := Do1(t, c, s[i]);
      i := i + 1;
    }
    while |s| - i >= 32
      invariant i <= |s| && c == Register(Flip(crc), s[..i])
    {
      for k := 0 to 8
        invariant c == Register(Flip(crc), s[..i + 4 * k])
      {
        c := LittleStep(t, Flip(crc), c, s, i + 4 * k);
      }
      i := i + 32;
    }
    while |s| - i >= 4
      invariant i <= |s| && c == Register(Flip(crc), s[..i])
    {
      c := LittleStep(t, Flip(crc), c, s, i);
      i := i + 4;
    }
    while i < |s|
      invariant i <= |s| && c == Register(Flip(crc), s[..i])
    {
      Do1Steps(t, c, s[i]);
      RegisterNext(Flip(crc), s, i);
      c := Do1(t, c, s[i]);
      i := i + 1;
    }
    r := Flip(c);
  }

  method BigStep(t: array2<bv32>, ghost start: bv32, c: bv32, s: seq<bv8>, i: nat) returns (d: bv32)
    requires Filled(t) && i + 4 <= |s| && c == Swap(Register(start, s[..i]))
    ensures d == Swap(Register(start, s[..i + 4]))
  {
    hide Register, DoBig4, Update, Filled, BigWord, Swap;
    DoBig4Steps(t, Register(start, s[..i]), s[i], s[i + 1], s[i + 2], s[i + 3]);
    RegisterFour(start, s, i);
    d := DoBig4(t, c, BigWord(s[i], s[i + 1], s[i + 2], s[i + 3]));
  }

  method BigByte(t: array2<bv32>, ghost start: bv32, c: bv32, s: seq<bv8>, i: nat) returns (d: bv32)
    requires Filled(t) && i < |s| && c == Swap(Register(start, s[..i]))
    ensures d == Swap(Register(start, s[..i + 1]))
  {
    hide Register, DoBig1, Update, Filled, Swap;
    DoBig1Steps(t, Register(start, s[..i]), s[i]);
    RegisterNext(start, s, i);
    d := DoBig1(t, c, s[i]);
  }

  /** crc32_big: the register is kept with its bytes reversed. */
  method Big(t: array2<bv32>, crc: bv32, s: seq<bv8>, address: nat) returns (r: bv32)
    requires Filled(t)
    ensures r == Crc(crc, s)
  {
    hide Register, Filled, Flip, Swap;
    var c := Swap(crc);
    c := Flip(c);
    ghost var start := Flip(crc);
    SwapFlip(crc);
    WholeText(start, s);
    var i := 0;
    while i < |s| && (address + i) % 4 != 0
      invariant i <= |s| && c == Swap(Register(start, s[..i]))
    {
      c := BigByte(t, start, c, s, i);
      i := i + 1;
    }
    while |s| - i >= 32
      invariant i <= |s| && c == Swap(Register(start, s[..i]))
    {
      for k := 0 to 8
        invariant c == Swap(Register(start, s[..i + 4 * k]))
      {
        c := BigStep(t, start, c, s, i + 4 * k);
      }
      i := i + 32;
    }
    while |s| - i >= 4
      invariant i <= |s| && c == Swap(Register(start, s[..i]))
    {
      c := BigStep(t, start, c, s, i);
      i := i + 4;
    }
    while i < |s|
      invariant i <= |s| && c == Swap(Register(start, s[..i]))
    {
      c := BigByte(t, start, c, s, i);
      i := i + 1;
    }
    SwapFlip(Register(start, s));
    SwapFlip(Flip(Register(start, s)));
    c := Flip(c);
    r := Swap(c);
  }

  // ------------------------------------------------- crc32_z

  /** A pointer and a length, or Z_NULL. */
  datatype Memory = Null | Buffer(bytes: seq<bv8>, address: nat)

  /** How crc32_z was compiled, and for which machine. */
  datatype Machine = NoByFour | LittleEndian | BigEndian

  method Crc32Z(t: array2<bv32>, crc: bv32, buf: Memory, machine: Machine) returns (r: bv32)
    requires Filled(t)
    ensures r == if buf.Null? then 0 else Crc(crc, buf.bytes)
  {
    hide Crc, Filled;
    if buf.Null? {
      return 0;
    }
    match machine {
      case NoByFour => r := ByByte(t, crc, buf.bytes);
      case LittleEndian => r := Little(t, crc, buf.bytes, buf.address);
      case BigEndian => r := Big(t, crc, buf.bytes, buf.address);
    }
  }
}
