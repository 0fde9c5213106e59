/**
 The tables of src/zlib/crc32.c (make_crc_table), and the three loops that use them: a
 byte at a time (crc32_z), and a word at a time on little- and big-endian machines.
 */
module CrcTables {
  import opened Crc32

  // ------------------------------------------------- the polynomial

  type Exponent = e: nat | e < 32

  /** Its exponents below 32. */
  const TERMS: seq<Exponent> := [0, 1, 2, 4, 5, 7, 8, 10, 11, 12, 16, 22, 23, 26]

  function Double(c: bv32): bv32 {
    c << 1
  }

  /** 1 << i. */
  function Unit(i: nat): bv32 {
    if i == 0 then 1 else Double(Unit(i - 1))
  }

  lemma Units0()
    ensures Unit(0) == 0x1 && Unit(1) == 0x2 && Unit(2) == 0x4 && Unit(3) == 0x8
    ensures Unit(4) == 0x10 && Unit(5) == 0x20 && Unit(6) == 0x40 && Unit(7) == 0x80
  {
  }

  lemma Units1()
    ensures Unit(8) == 0x100 && Unit(9) == 0x200 && Unit(10) == 0x400 && Unit(11) == 0x800
    ensures Unit(12) == 0x1000 && Unit(13) == 0x2000 && Unit(14) == 0x4000 && Unit(15) == 0x8000
  {
    Units0();
  }

  lemma Units2()
    ensures Unit(16) == 0x10000 && Unit(17) == 0x20000 && Unit(18) == 0x40000 && Unit(19) == 0x80000
    ensures Unit(20) == 0x100000 && Unit(21) == 0x200000 && Unit(22) == 0x400000 && Unit(23) == 0x800000
  {
    Units1();
  }

  lemma Units3()
    ensures Unit(24) == 0x1000000 && Unit(25) == 0x2000000 && Unit(26) == 0x4000000 && Unit(27) == 0x8000000
    ensures Unit(28) == 0x10000000 && Unit(29) == 0x20000000 && Unit(30) == 0x40000000 && Unit(31) == 0x80000000
  {
    Units2();
  }

  function PolyOf(n: nat): bv32
    requires n <= |TERMS|
  {
    if n == 0 then 0 else PolyOf(n - 1) | Unit(31 - TERMS[n - 1])
  }

  lemma LowTerms()
    ensures PolyOf(5) == 0xec000000
  {
    hide Unit;
    Units3();
    assert PolyOf(1) == 0x80000000;
    assert PolyOf(2) == 0xc0000000;
    assert PolyOf(3) == 0xe0000000;
    assert PolyOf(4) == 0xe8000000;
  }

  lemma MiddleTerms()
    ensures PolyOf(10) == 0xedb80000
  {
    hide Unit;
    LowTerms();
    Units2();
    Units3();
    assert PolyOf(6) == 0xed000000;
    assert PolyOf(7) == 0xed800000;
    assert PolyOf(8) == 0xeda00000;
    assert PolyOf(9) == 0xedb00000;
  }

  lemma PolyIs()
    ensures PolyOf(|TERMS|) == POLY
  {
    hide Unit;
    MiddleTerms();
    Units0();
    Units1();
    Units2();
    assert PolyOf(11) == 0xedb88000;
    assert PolyOf(12) == 0xedb88200;
    assert PolyOf(13) == 0xedb88300;
  }

  // ------------------------------------------------- entries

  function Num(b: bv8): (n: nat)
    ensures n < 256
  {
    b as nat
  }

  /**
   Table `k` holds the register of a byte followed by `k` zero bytes; tables 4 to 7 are 0 to 3 with their bytes
   reversed.
  */
  function Entry(k: nat, b: bv8): bv32 {
    if k < 4 then Zeros(Wide(b), 8 * k + 8) else Swap(Zeros(Wide(b), 8 * (k - 4) + 8))
  }

  ghost predicate Filled(t: array2<bv32>)
    reads t
  {
    t.Length0 == 8 && t.Length1 == 256 && forall k: nat, b: bv8 :: k < 8 ==> t[k, Num(b)] == Entry(k, b)
  }

  /** The bytes of a register, from the lowest. */
  function Byte0(c: bv32): bv8 {
    (c & 0xff) as bv8
  }

  function Byte1(c: bv32): bv8 {
    ((c >> 8) & 0xff) as bv8
  }

  function Byte2(c: bv32): bv8 {
    ((c >> 16) & 0xff) as bv8
  }

  function Byte3(c: bv32): bv8 {
    (c >> 24) as bv8
  }

  lemma Byte0Is(c: bv32)
    ensures Wide(Byte0(c)) == Low8(c)
  {
  }

  lemma Byte1Is(c: bv32)
    ensures Byte1(c) == Byte0(Shr8(c))
  {
  }

  lemma Byte2Is(c: bv32)
    ensures Byte2(c) == Byte1(Shr8(c))
  {
  }

  lemma Byte3Is(c: bv32)
    ensures Byte3(c) == Byte2(Shr8(c))
  {
  }

  lemma Byte3Last(c: bv32)
    ensures Wide(Byte3(c)) == Shr8(Shr8(Shr8(c)))
  {
    TopByte(c);
    hide *;
    Byte3Is(c);
    Byte2Is(Shr8(c));
    Byte1Is(Shr8(Shr8(c)));
    Byte0Is(Shr8(Shr8(Shr8(c))));
  }

  // ------------------------------------------------- make_crc_table

  lemma NumBack(b: bv8, n: nat)
    requires n < 256
    ensures Num(n as bv8) == n && (Num(b) == n ==> b == n as bv8)
  {
  }

  /** The entries for the bytes below `n`, of the tables below `k` and their reversals. */
  ghost predicate Made(t: array2<bv32>, k: nat, n: nat)
    reads t
    requires t.Length0 == 8 && t.Length1 == 256 && k <= 4
  {
    forall j: nat, b: bv8 :: (j < k || 4 <= j < k + 4) && Num(b) < n ==> t[j, Num(b)] == Entry(j, b)
  }

  /** The exclusive-or pattern of the polynomial. */
  method MakePoly() returns (poly: bv32)
    ensures poly == POLY
  {
    hide Unit;
    poly := 0;
    for n := 0 to |TERMS|
      invariant poly == PolyOf(n)
    {
      poly := poly | Unit(31 - TERMS[n]);
    }
    PolyIs();
  }

  method ByteRegister(poly: bv32, n: nat) returns (c: bv32)
    requires poly == POLY && n < 256
    ensures c == Entry(0, n as bv8)
  {
    hide Zeros;
    c := n as bv32;
    assert c == Wide(n as bv8) by { Widened(n); }
    ghost var first := c;
    for k := 0 to 8
      invariant Zeros(first, 8) == Zeros(c, 8 - k)
    {
      NextZero(c, 8 - k);
      c := if c & 1 == 0 then c >> 1 else poly ^ (c >> 1);
    }
    NoZeros(c);
  }

  lemma Widened(n: nat)
    requires n < 256
    ensures n as bv32 == Wide(n as bv8)
  {
  }

  lemma NextZero(c: bv32, n: nat)
    requires n > 0
    ensures Zeros(c, n) == Zeros(ZeroBit(c), n - 1)
  {
  }

  lemma {:induction false} NoZeros(c: bv32)
    ensures Zeros(c, 0) == c
  {
  }

  /** One more zero byte: the recurrence between the tables. */
  lemma NextEntry(c: bv32, k: nat, b: bv8)
    requires k < 3 && c == Entry(k, b)
    ensures Xor(Entry(0, Byte0(c)), Shr8(c)) == Entry(k + 1, b)
  {
    hide Zeros, Xor, Shr8, Low8, Byte0, Wide;
    ByteStep(c);
    Byte0Is(c);
    ZerosAdd(Wide(b), 8 * k + 8, 8);
  }

  method MakeCrcTable() returns (t: array2<bv32>)
    ensures fresh(t) && Filled(t)
  {
    hide Entry, Num;
    t := new bv32[8, 256];
    var poly := MakePoly();
    for n := 0 to 256
      invariant forall b: bv8 :: Num(b) < n ==> t[0, Num(b)] == Entry(0, b)
    {
      var c := ByteRegister(poly, n);
      t[0, n] := c;
      forall b: bv8 | Num(b) < n + 1 ensures t[0, Num(b)] == Entry(0, b) {
        NumBack(b, n);
      }
    }
    for n := 0 to 256
      invariant forall b: bv8 :: t[0, Num(b)] == Entry(0, b)
      invariant Made(t, 4, n)
    {
      Slices(t, n);
    }
  }

  method Slices(t: array2<bv32>, n: nat)
    requires t.Length0 == 8 && t.Length1 == 256 && n < 256
    requires (forall b: bv8 :: t[0, Num(b)] == Entry(0, b)) && Made(t, 4, n)
    modifies t
    ensures (forall b: bv8 :: t[0, Num(b)] == Entry(0, b)) && Made(t, 4, n + 1)
  {
    hide Entry, Num, Xor, Shr8, Swap, Byte0;
    ghost var b := n as bv8;
    NumBack(b, n);
    var c := t[0, n];
    t[4, n] := Swap(c);
    SwappedEntry(0, b);
    for k := 1 to 4
      invariant c == Entry(k - 1, b)
      invariant forall j: nat, m: nat :: j < 8 && m < 256 && m != n ==> t[j, m] == old(t[j, m])
      invariant forall j: nat :: j < k || 4 <= j < k + 4 ==> t[j, n] == Entry(j, b)
    {
      NextEntry(c, k - 1, b);
      SwappedEntry(k, b);
      ghost var low := Byte0(c);
      NumBack(low, n);
      assert t[0, Num(low)] == Entry(0, low);
      c := Xor(t[0, Num(Byte0(c))], Shr8(c));
      t[k, n] := c;
      t[k + 4, n] := Swap(c);
    }
    forall j: nat, d: bv8 | j < 8 && Num(d) < n + 1 ensures t[j, Num(d)] == Entry(j, d) {
      NumBack(d, n);
    }
  }

  lemma SwappedEntry(k: nat, b: bv8)
    requires k < 4
    ensures Entry(k + 4, b) == Swap(Entry(k, b))
  {
    hide Zeros, Swap;
  }
}
