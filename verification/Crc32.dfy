/**
 The cyclic redundancy check of src/zlib/crc32.c (section 8 of RFC 1952): the register
 stepped one bit at a time, and what its byte-wise and word-wise forms rest on.
 */
module Crc32 {
  // ------------------------------------------------- the definition, a bit at a time

  /** x^32+x^26+x^23+x^22+x^16+x^12+x^11+x^10+x^8+x^7+x^5+x^4+x^2+x+1, the lowest power in the highest bit. */
  const POLY: bv32 := 0xedb88320

  /** One zero bit shifted in. */
  function ZeroBit(c: bv32): bv32 {
    if c & 1 == 0 then c >> 1 else POLY ^ (c >> 1)
  }

  function Zeros(c: bv32, n: nat): bv32
    decreases n
  {
    if n == 0 then c else Zeros(ZeroBit(c), n - 1)
  }

  function Xor(a: bv32, b: bv32): bv32 {
    a ^ b
  }

  function Wide(b: bv8): bv32 {
    b as bv32
  }

  function Update(c: bv32, b: bv8): bv32 {
    Zeros(Xor(c, Wide(b)), 8)
  }

  function Register(c: bv32, s: seq<bv8>): bv32 {
    if s == [] then c else Update(Register(c, s[..|s| - 1]), s[|s| - 1])
  }

  function Flip(c: bv32): bv32 {
    !c
  }

  /** The check of a text that continues one whose check is `crc`. */
  function Crc(crc: bv32, s: seq<bv8>): bv32 {
    Flip(Register(Flip(crc), s))
  }

  // ------------------------------------------------- the zeros operator is linear

  lemma RawAssociative(a: bv32, b: bv32, c: bv32)
    ensures a ^ (b ^ c) == (a ^ b) ^ c
  {
  }

  lemma XorAssociative(a: bv32, b: bv32, c: bv32)
    ensures Xor(a, Xor(b, c)) == Xor(Xor(a, b), c)
  {
    RawAssociative(a, b, c);
  }

  lemma XorCommutative(a: bv32, b: bv32)
    ensures Xor(a, b) == Xor(b, a)
  {
  }

  lemma XorZero(a: bv32)
    ensures Xor(a, a) == 0 && Xor(a, 0) == a && Xor(0, a) == a
  {
  }

  lemma Gather(a: bv32, b: bv32, p: bv32)
    ensures Xor(Xor(p, a), b) == Xor(p, Xor(a, b)) && Xor(a, Xor(p, b)) == Xor(p, Xor(a, b))
    ensures Xor(Xor(p, a), Xor(p, b)) == Xor(a, b)
  {
    hide *;
    XorAssociative(p, a, b);
    XorAssociative(a, p, b);
    XorCommutative(a, p);
    XorAssociative(p, a, Xor(p, b));
    XorAssociative(p, p, Xor(a, b));
    XorZero(p);
    XorZero(Xor(a, b));
  }

  function Half(c: bv32): bv32 {
    c >> 1
  }

  predicate Odd(c: bv32) {
    c & 1 != 0
  }

  lemma ZeroBitIs(c: bv32)
    ensures ZeroBit(c) == if Odd(c) then Xor(POLY, Half(c)) else Half(c)
  {
  }

  lemma LowBitXor(a: bv32, b: bv32)
    ensures ((a ^ b) & 1 != 0) == ((a & 1 != 0) != (b & 1 != 0))
  {
  }

  lemma OddXor(a: bv32, b: bv32)
    ensures Odd(Xor(a, b)) == (Odd(a) != Odd(b))
  {
    LowBitXor(a, b);
  }

  lemma HalfXor(a: bv32, b: bv32)
    ensures Half(Xor(a, b)) == Xor(Half(a), Half(b))
  {
  }

  lemma ZeroBitLinear(a: bv32, b: bv32)
    ensures ZeroBit(Xor(a, b)) == Xor(ZeroBit(a), ZeroBit(b))
  {
    hide *;
    ZeroBitIs(a);
    ZeroBitIs(b);
    ZeroBitIs(Xor(a, b));
    OddXor(a, b);
    HalfXor(a, b);
    Gather(Half(a), Half(b), POLY);
  }

  lemma {:induction false} ZerosLinear(a: bv32, b: bv32, n: nat)
    ensures Zeros(Xor(a, b), n) == Xor(Zeros(a, n), Zeros(b, n))
    decreases n
  {
    hide ZeroBit, Xor;
    if n > 0 {
      ZeroBitLinear(a, b);
      ZerosLinear(ZeroBit(a), ZeroBit(b), n - 1);
    }
  }

  lemma {:induction false} ZerosAdd(c: bv32, m: nat, n: nat)
    ensures Zeros(Zeros(c, m), n) == Zeros(c, m + n)
    decreases m
  {
    hide ZeroBit;
    if m > 0 {
      ZerosAdd(ZeroBit(c), m - 1, n);
    }
  }

  // ------------------------------------------------- whole bytes

  // Byte-wise moves of a register.
  function Low8(c: bv32): bv32 {
    c & 0xff
  }

  function Shr8(c: bv32): bv32 {
    c >> 8
  }

  function Shl8(c: bv32): bv32 {
    c << 8
  }

  lemma ClearSteps(c: bv32)
    requires c & 0xff == 0
    ensures ZeroBit(c) == c >> 1 && ZeroBit(c >> 1) == c >> 2 && ZeroBit(c >> 2) == c >> 3 && ZeroBit(c >> 3) == c >> 4
    ensures ZeroBit(c >> 4) == c >> 5 && ZeroBit(c >> 5) == c >> 6 && ZeroBit(c >> 6) == c >> 7
    ensures ZeroBit(c >> 7) == c >> 8
  {
  }

  lemma FourSteps(a: bv32, b: bv32, c: bv32, d: bv32, e: bv32, n: nat)
    requires b == ZeroBit(a) && c == ZeroBit(b) && d == ZeroBit(c) && e == ZeroBit(d)
    ensures Zeros(a, n + 4) == Zeros(e, n)
  {
    hide ZeroBit;
    assert Zeros(a, n + 4) == Zeros(b, n + 3);
    assert Zeros(b, n + 3) == Zeros(c, n + 2);
    assert Zeros(c, n + 2) == Zeros(d, n + 1);
  }

  lemma {:induction false} EightSteps(c: bv32, d: bv32)
    requires d == ZeroBit(ZeroBit(ZeroBit(ZeroBit(ZeroBit(ZeroBit(ZeroBit(ZeroBit(c))))))))
    ensures Zeros(c, 8) == d
  {
    hide ZeroBit;
    var c2 := ZeroBit(ZeroBit(c));
    var c4 := ZeroBit(ZeroBit(c2));
    var c6 := ZeroBit(ZeroBit(c4));
    FourSteps(c, ZeroBit(c), c2, ZeroBit(c2), c4, 4);
    FourSteps(c4, ZeroBit(c4), c6, ZeroBit(c6), d, 0);
  }

  lemma {:induction false} ClearByte(c: bv32)
    requires Low8(c) == 0
    ensures Zeros(c, 8) == Shr8(c)
  {
    hide Zeros, ZeroBit;
    ClearSteps(c);
    EightSteps(c, c >> 8);
  }

  /** What `c` is without its low byte. */
  function Upper(c: bv32): bv32 {
    c & 0xffffff00
  }

  lemma SplitByte(c: bv32)
    ensures c == Xor(Low8(c), Upper(c)) && Low8(Upper(c)) == 0 && Shr8(Upper(c)) == Shr8(c)
  {
  }

  /** The low byte is pushed out on its own: the identity behind the first table. */
  lemma {:induction false} ByteStep(c: bv32)
    ensures Zeros(c, 8) == Xor(Zeros(Low8(c), 8), Shr8(c))
  {
    hide Zeros, Xor, Low8, Shr8, Upper;
    SplitByte(c);
    ZerosLinear(Low8(c), Upper(c), 8);
    ClearByte(Upper(c));
  }

  lemma {:induction false} Peel(c: bv32, n: nat)
    ensures Zeros(c, n + 8) == Xor(Zeros(Low8(c), n + 8), Zeros(Shr8(c), n))
  {
    hide Zeros, Xor, Low8, Shr8;
    ByteStep(c);
    ZerosAdd(c, 8, n);
    ZerosAdd(Low8(c), 8, n);
    ZerosLinear(Zeros(Low8(c), 8), Shr8(c), n);
  }

  lemma TopByte(c: bv32)
    ensures Low8(Shr8(Shr8(Shr8(c)))) == Shr8(Shr8(Shr8(c)))
  {
  }

  /** Four bytes at once: the identity behind slicing by four. */
  lemma {:induction false} WordStep(c: bv32)
    ensures
      var x0, x1, x2, x3 := Low8(c), Low8(Shr8(c)), Low8(Shr8(Shr8(c))), Shr8(Shr8(Shr8(c)));
      Zeros(c, 32) == Xor(Xor(Xor(Zeros(x0, 32), Zeros(x1, 24)), Zeros(x2, 16)), Zeros(x3, 8))
  {
    hide Zeros, Xor, Low8, Shr8;
    var z0, z1 := Zeros(Low8(c), 32), Zeros(Low8(Shr8(c)), 24);
    var z2, z3 := Zeros(Low8(Shr8(Shr8(c))), 16), Zeros(Shr8(Shr8(Shr8(c))), 8);
    Peel(c, 24);
    Peel(Shr8(c), 16);
    Peel(Shr8(Shr8(c)), 8);
    assert Zeros(c, 32) == Xor(z0, Xor(z1, Xor(z2, z3)));
    XorAssociative(z1, z2, z3);
    XorAssociative(z0, Xor(z1, z2), z3);
    XorAssociative(z0, z1, z2);
  }

  // ------------------------------------------------- memory words

  /** What a little-endian machine loads from four bytes. */
  function LittleWord(b0: bv8, b1: bv8, b2: bv8, b3: bv8): bv32 {
    (b0 as bv32) | ((b1 as bv32) << 8) | ((b2 as bv32) << 16) | ((b3 as bv32) << 24)
  }

  function BigWord(b0: bv8, b1: bv8, b2: bv8, b3: bv8): bv32 {
    (b3 as bv32) | ((b2 as bv32) << 8) | ((b1 as bv32) << 16) | ((b0 as bv32) << 24)
  }

  /** `b` placed eight bits above `a`. */
  function Over(a: bv32, b: bv32): bv32 {
    Xor(a, Shl8(b))
  }

  lemma XorIs(a: bv32, b: bv32)
    ensures Xor(a, b) == a ^ b
  {
  }

  lemma Shl8Is(a: bv32)
    ensures Shl8(a) == a << 8
  {
  }

  lemma OverIs(a: bv32, b: bv32)
    ensures Over(a, b) == a ^ (b << 8)
  {
    hide Xor, Shl8;
    Shl8Is(b);
    XorIs(a, b << 8);
  }

  lemma RawWord(a0: bv32, a1: bv32, a2: bv32, a3: bv32)
    requires a0 <= 0xff && a1 <= 0xff && a2 <= 0xff && a3 <= 0xff
    ensures (a0 | (a1 << 8) | (a2 << 16) | (a3 << 24)) == a0 ^ ((a1 ^ ((a2 ^ (a3 << 8)) << 8)) << 8)
  {
  }

  lemma WordIs(b0: bv8, b1: bv8, b2: bv8, b3: bv8)
    ensures LittleWord(b0, b1, b2, b3) == (Wide(b0) | (Wide(b1) << 8) | (Wide(b2) << 16) | (Wide(b3) << 24))
    ensures Wide(b0) <= 0xff && Wide(b1) <= 0xff && Wide(b2) <= 0xff && Wide(b3) <= 0xff
  {
  }

  lemma WordNested(b0: bv8, b1: bv8, b2: bv8, b3: bv8)
    ensures LittleWord(b0, b1, b2, b3) == Over(Wide(b0), Over(Wide(b1), Over(Wide(b2), Wide(b3))))
  {
    hide *;
    WordIs(b0, b1, b2, b3);
    RawWord(Wide(b0), Wide(b1), Wide(b2), Wide(b3));
    OverIs(Wide(b2), Wide(b3));
    OverIs(Wide(b1), Over(Wide(b2), Wide(b3)));
    OverIs(Wide(b0), Over(Wide(b1), Over(Wide(b2), Wide(b3))));
  }

  lemma ByteFits(b: bv8)
    ensures Wide(b) <= 0xff
  {
  }

  lemma PairFits(b: bv8, y: bv32)
    requires y <= 0xff
    ensures Over(Wide(b), y) <= 0xffff
  {
  }

  lemma TripleFits(b: bv8, y: bv32)
    requires y <= 0xffff
    ensures Over(Wide(b), y) <= 0xffffff
  {
  }

  lemma ShiftBack(y: bv32)
    requires y <= 0xffffff
    ensures Shr8(Shl8(y)) == y
  {
  }

  lemma LowOfShl8(c: bv32)
    ensures Low8(Shl8(c)) == 0
  {
  }

  /** A byte may be combined a step early, one place higher up. */
  lemma {:induction false} Defer(x: bv32, b: bv32, y: bv32, n: nat)
    requires y <= 0xffffff
    ensures Zeros(Xor(x, Over(b, y)), n + 8) == Zeros(Xor(Zeros(Xor(x, b), 8), y), n)
  {
    hide Xor, Shl8, Shr8, Low8, Zeros;
    XorAssociative(x, b, Shl8(y));
    ShiftBack(y);
    LowOfShl8(y);
    ZerosLinear(Xor(x, b), Shl8(y), 8);
    ClearByte(Shl8(y));
    ZerosAdd(Xor(x, Over(b, y)), 8, n);
  }

  lemma FourUpdates(c: bv32, b0: bv8, b1: bv8, b2: bv8, b3: bv8)
    ensures Zeros(Xor(c, LittleWord(b0, b1, b2, b3)), 32) == Update(Update(Update(Update(c, b0), b1), b2), b3)
  {
    hide Zeros, LittleWord, Xor, Over, Wide;
    var y3 := Wide(b3);
    var y2 := Over(Wide(b2), y3);
    var y1 := Over(Wide(b1), y2);
    ByteFits(b3);
    PairFits(b2, y3);
    TripleFits(b1, y2);
    WordNested(b0, b1, b2, b3);
    Small(y3, y2);
    Defer(c, Wide(b0), y1, 24);
    Defer(Update(c, b0), Wide(b1), y2, 16);
    Defer(Update(Update(c, b0), b1), Wide(b2), y3, 8);
  }

  lemma Small(a: bv32, b: bv32)
    requires a <= 0xff && b <= 0xffff
    ensures a <= 0xffffff && b <= 0xffffff
  {
  }

  // ------------------------------------------------- byte order

  function Swap(q: bv32): bv32 {
    ((q >> 24) & 0xff) + ((q >> 8) & 0xff00) + ((q & 0xff00) << 8) + ((q & 0xff) << 24)
  }

  lemma SwapXor(a: bv32, b: bv32)
    ensures Swap(Xor(a, b)) == Xor(Swap(a), Swap(b))
  {
  }

  lemma SwapFlip(c: bv32)
    ensures Swap(Swap(c)) == c && Swap(Flip(c)) == Flip(Swap(c))
  {
  }

  // The four terms of the sum.

  function FromTop(q: bv32): bv32 {
    (q >> 24) & 0xff
  }

  function FromThird(q: bv32): bv32 {
    (q >> 8) & 0xff00
  }

  function FromSecond(q: bv32): bv32 {
    (q & 0xff00) << 8
  }

  function FromLow(q: bv32): bv32 {
    (q & 0xff) << 24
  }

  function Join(a: bv32, b: bv32, c: bv32, d: bv32): bv32 {
    a | b | c | d
  }

  lemma SwapIs(q: bv32)
    ensures Swap(q) == Join(FromTop(q), FromThird(q), FromSecond(q), FromLow(q))
  {
  }

  lemma JoinIs(a: bv32, b: bv32, c: bv32, d: bv32)
    ensures Join(a, b, c, d) == a | b | c | d
  {
  }

  lemma RawJoin(a: bv32, b: bv32, c: bv32, d: bv32)
    requires d << 8 == 0
    ensures (a | b | c | d) << 8 == 0 | (a << 8) | (b << 8) | (c << 8)
  {
  }

  lemma JoinShift(a: bv32, b: bv32, c: bv32, d: bv32)
    requires d << 8 == 0
    ensures Shl8(Join(a, b, c, d)) == Join(0, a << 8, b << 8, c << 8)
  {
    hide *;
    JoinIs(a, b, c, d);
    Shl8Is(Join(a, b, c, d));
    JoinIs(0, a << 8, b << 8, c << 8);
    RawJoin(a, b, c, d);
  }

  lemma TermShifts(q: bv32)
    ensures FromTop(Shr8(q)) == 0 && FromTop(q) << 8 == FromThird(Shr8(q))
  {
  }

  lemma MoreTermShifts(q: bv32)
    ensures FromThird(q) << 8 == FromSecond(Shr8(q)) && FromSecond(q) << 8 == FromLow(Shr8(q)) && FromLow(q) << 8 == 0
  {
  }

  lemma SwapShift(c: bv32)
    ensures Shl8(Swap(c)) == Swap(Shr8(c))
  {
    hide *;
    SwapIs(c);
    SwapIs(Shr8(c));
    TermShifts(c);
    MoreTermShifts(c);
    JoinShift(FromTop(c), FromThird(c), FromSecond(c), FromLow(c));
  }

  lemma SwapWord(b0: bv8, b1: bv8, b2: bv8, b3: bv8)
    ensures BigWord(b0, b1, b2, b3) == Swap(LittleWord(b0, b1, b2, b3))
  {
  }
}
