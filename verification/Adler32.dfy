/**
 The Adler-32 checksum of src/zlib/adler32.c (section 2.2 and section 9 of RFC 1950): two
 sums kept modulo BASE, with the modulo put off for as long as 32 bits allow.
 */
module Adler32 {
  const BASE: nat := 65521
  const NMAX: nat := 5552

  type Byte = n: nat | n < 0x100
  type Word = n: nat | n < 0x1_0000_0000

  // ------------------------------------------------- the definition, a byte at a time

  datatype Sums = Sums(a: nat, b: nat)

  function Rem(x: nat): (r: nat)
    ensures r < BASE
  {
    x % BASE
  }

  function Step(s: Sums, x: Byte): Sums {
    var a := Rem(s.a + x);
    Sums(a, Rem(s.b + a))
  }

  function Run(s: Sums, text: seq<Byte>): Sums {
    if text == [] then s else Step(Run(s, text[..|text| - 1]), text[|text| - 1])
  }

  predicate Reduced(s: Sums) {
    s.a < BASE && s.b < BASE
  }

  function Reduce(s: Sums): (r: Sums)
    ensures Reduced(r)
  {
    Sums(Rem(s.a), Rem(s.b))
  }

  /** The two halves of a check value. */
  function Split(v: Word): (s: Sums)
    ensures s.a < 0x1_0000 && s.b < 0x1_0000
  {
    Sums(v % 0x1_0000, v / 0x1_0000 % 0x1_0000)
  }

  function Pack(s: Sums): Word
    requires s.a < 0x1_0000 && s.b < 0x1_0000
  {
    s.a + 0x1_0000 * s.b
  }

  /** A check value whose halves are reduced, as every call returns for a text of other than one byte. */
  predicate Valid(v: Word) {
    Reduced(Split(v))
  }

  lemma {:induction false} RunReduced(s: Sums, text: seq<Byte>)
    requires Reduced(s)
    ensures Reduced(Run(s, text))
  {
    if text != [] {
      RunReduced(s, text[..|text| - 1]);
    }
  }

  /** The check of a text that continues one whose check is `v`. */
  function Adler(v: Word, text: seq<Byte>): (r: Word)
    ensures Valid(r)
  {
    RunReduced(Reduce(Split(v)), text);
    var s := Run(Reduce(Split(v)), text);
    PackSplit(s);
    Pack(s)
  }

  lemma Quotient(x: nat, q: nat, r: nat)
    requires x == 0x1_0000 * q + r && r < 0x1_0000
    ensures x / 0x1_0000 == q && x % 0x1_0000 == r
  {
  }

  lemma PackSplit(s: Sums)
    requires s.a < 0x1_0000 && s.b < 0x1_0000
    ensures Split(Pack(s)) == s
  {
    Quotient(Pack(s), s.b, s.a);
    Quotient(s.b, 0, s.b);
  }

  lemma {:induction false} Congruent(a: nat, b: nat, k: nat)
    requires a == b + k * BASE
    ensures Rem(a) == Rem(b)
  {
    if k > 0 {
      Congruent(a - BASE, b, k - 1);
      OneBase(a - BASE);
    }
  }

  lemma OneBase(a: nat)
    ensures Rem(a + BASE) == Rem(a)
  {
  }

  lemma RemSmall(x: nat)
    ensures x < BASE ==> Rem(x) == x
    ensures BASE <= x < 2 * BASE ==> Rem(x) == x - BASE
  {
  }

  /** A sum may be reduced in the middle. */
  lemma RemInside(x: nat, y: nat)
    ensures Rem(Rem(x) + y) == Rem(x + y)
  {
    RemIs(x);
    hide Rem;
    Congruent(x + y, Rem(x) + y, x / BASE);
  }

  lemma RemIs(x: nat)
    ensures x == Rem(x) + (x / BASE) * BASE
  {
  }

  lemma {:induction false} RunConcat(s: Sums, x: seq<Byte>, y: seq<Byte>)
    ensures Run(s, x + y) == Run(Run(s, x), y)
    decreases |y|
  {
    hide Step;
    if y == [] {
      assert x + y == x;
    } else {
      var xy := x + y;
      assert xy[..|xy| - 1] == x + y[..|y| - 1] && xy[|xy| - 1] == y[|y| - 1];
      RunConcat(s, x, y[..|y| - 1]);
    }
  }

  /** The check value is all that is needed of what came before. */
  lemma AdlerContinues(v: Word, x: seq<Byte>, y: seq<Byte>)
    ensures Adler(v, x + y) == Adler(Adler(v, x), y)
  {
    hide Run, Split;
    var s := Reduce(Split(v));
    RunConcat(s, x, y);
    RunReduced(s, x);
    PackSplit(Run(s, x));
  }

  // ------------------------------------------------- the sums without the modulo

  function Add(s: Sums, x: Byte): Sums {
    Sums(s.a + x, s.b + s.a + x)
  }

  function Total(s: Sums, text: seq<Byte>): Sums {
    if text == [] then s else Add(Total(s, text[..|text| - 1]), text[|text| - 1])
  }

  lemma ReduceStep(s: Sums, x: Byte)
    ensures Step(Reduce(s), x) == Reduce(Add(s, x))
  {
    hide Rem;
    RemInside(s.a, x);
    RemInside(s.b, Rem(s.a + x));
    RemInside(s.a + x, s.b);
  }

  /** Putting the modulo off changes nothing. */
  lemma {:induction false} Deferred(s: Sums, text: seq<Byte>)
    ensures Run(Reduce(s), text) == Reduce(Total(s, text))
  {
    hide Step, Reduce, Add;
    if text != [] {
      var n := |text| - 1;
      Deferred(s, text[..n]);
      ReduceStep(Total(s, text[..n]), text[n]);
    }
  }

  // the sums in closed form

  /** The sum of the bytes from the `i`-th on. */
  function BytesFrom(text: seq<Byte>, i: nat): nat
    requires i <= |text|
    decreases |text| - i
  {
    if i == |text| then 0 else text[i] + BytesFrom(text, i + 1)
  }

  /** The same with each byte taken as often as there are bytes from it to the end. */
  function WeightedFrom(text: seq<Byte>, i: nat): nat
    requires i <= |text|
    decreases |text| - i
  {
    if i == |text| then 0 else (|text| - i) * text[i] + WeightedFrom(text, i + 1)
  }

  lemma {:induction false} LastByte(text: seq<Byte>, i: nat)
    requires text != [] && i < |text|
    ensures BytesFrom(text, i) == BytesFrom(text[..|text| - 1], i) + text[|text| - 1]
    ensures WeightedFrom(text, i) == WeightedFrom(text[..|text| - 1], i) + BytesFrom(text, i)
    decreases |text| - i
  {
    var n := |text| - 1;
    if i < n {
      LastByte(text, i + 1);
      assert (|text| - i) * text[i] == (n - i) * text[i] + text[i];
    }
  }

  lemma OneMoreTime(n: nat, a: nat)
    ensures (n + 1) * a == n * a + a
  {
  }

  lemma {:induction false} TotalIs(s: Sums, text: seq<Byte>)
    ensures Total(s, text).a == s.a + BytesFrom(text, 0)
    ensures Total(s, text).b == s.b + |text| * s.a + WeightedFrom(text, 0)
  {
    if text == [] {
      assert 0 * s.a == 0;
    } else {
      hide BytesFrom, WeightedFrom;
      var n := |text| - 1;
      TotalIs(s, text[..n]);
      LastByte(text, 0);
      OneMoreTime(n, s.a);
    }
  }

  /**
   The check in one formula (section 9 of RFC 1950): the lower half is the start value and
   the bytes, the upper half its start value, as many times the lower one as there are
   bytes, and each byte as often as there are bytes from it on, both modulo 65521.
  */
  lemma AdlerFormula(v: Word, text: seq<Byte>)
    ensures Adler(v, text) % 0x1_0000 == (v % 0x1_0000 + BytesFrom(text, 0)) % 65521
    ensures Adler(v, text) / 0x1_0000
         == (v / 0x1_0000 + |text| * (v % 0x1_0000) + WeightedFrom(text, 0)) % 65521
  {
    hide *;
    var s := Split(v);
    Halves(v);
    Deferred(s, text);
    TotalIs(s, text);
    AdlerHalves(v, text);
    ReducedHalves(Total(s, text));
  }

  lemma Halves(v: Word)
    ensures Split(v) == Sums(v % 0x1_0000, v / 0x1_0000)
  {
    Quotient(v / 0x1_0000, 0, v / 0x1_0000);
  }

  lemma ReducedHalves(s: Sums)
    ensures Reduce(s).a == s.a % 65521 && Reduce(s).b == s.b % 65521
  {
  }

  lemma AdlerHalves(v: Word, text: seq<Byte>)
    ensures var r := Run(Reduce(Split(v)), text);
      Adler(v, text) % 0x1_0000 == r.a && Adler(v, text) / 0x1_0000 == r.b
  {
    hide Run, Reduce, Split;
    RunReduced(Reduce(Split(v)), text);
    var r := Run(Reduce(Split(v)), text);
    Quotient(Pack(r), r.b, r.a);
  }

  /** 1 + 2 + ... + n */
  function Triangle(n: nat): nat {
    if n == 0 then 0 else Triangle(n - 1) + n
  }

  lemma {:induction false} TriangleIs(n: nat)
    ensures 2 * Triangle(n) == n * (n + 1)
  {
    if n > 0 {
      TriangleIs(n - 1);
    }
  }

  lemma {:induction false} TriangleGrows(m: nat, n: nat)
    requires m <= n
    ensures Triangle(m) <= Triangle(n)
    decreases n - m
  {
    if m < n {
      TriangleGrows(m + 1, n);
    }
  }

  lemma {:induction false} TotalBound(s: Sums, text: seq<Byte>)
    requires s.a < 0x1_0000 && s.b < 0x1_0000
    ensures Total(s, text).a <= 0xffff + 255 * |text|
    ensures Total(s, text).b <= 0xffff * (|text| + 1) + 255 * Triangle(|text|)
  {
    if text != [] {
      TotalBound(s, text[..|text| - 1]);
    }
  }

  /** NMAX bytes after a reduction stay within 32 bits, even if the halves started from are not reduced. */
  lemma {:induction false} NoOverflow(s: Sums, text: seq<Byte>)
    requires s.a < 0x1_0000 && s.b < 0x1_0000 && |text| <= NMAX
    ensures Total(s, text).a < 0x1_0000_0000 && Total(s, text).b < 0x1_0000_0000
  {
    TotalBound(s, text);
    TriangleGrows(|text|, NMAX);
    TriangleIs(NMAX);
  }

  /** NMAX is the largest length for which this holds: one byte more, and the second sum can overflow. */
  lemma Overflows()
    ensures Total(Sums(BASE - 1, BASE - 1), seq(NMAX + 1, i => 255)).b >= 0x1_0000_0000
  {
    TotalOfOnes(NMAX + 1);
    TriangleIs(NMAX + 1);
  }

  lemma {:induction false} TotalOfOnes(n: nat)
    ensures Total(Sums(BASE - 1, BASE - 1), seq(n, i => 255))
         == Sums(BASE - 1 + 255 * n, (BASE - 1) * (n + 1) + 255 * Triangle(n))
  {
    var text: seq<Byte> := seq(n, i => 255);
    if n > 0 {
      assert text[..n - 1] == seq(n - 1, i => 255);
      TotalOfOnes(n - 1);
    }
  }

  // ------------------------------------------------- the modulo macros

  /** NO_DIVIDE replaces the remainder by shifts and subtractions. */
  datatype Division = Divide | NoDivide

  /** CHOP: 2^16 is 15 modulo BASE. */
  function Chop(a: nat): nat {
    var tmp := a / 0x1_0000;
    a % 0x1_0000 + (16 * tmp - tmp)
  }

  function Mod28(d: Division, a: nat): nat {
    if d.Divide? then Rem(a) else
      var c := Chop(a);
      if c >= BASE then c - BASE else c
  }

  function Mod(d: Division, a: nat): nat {
    if d.Divide? then Rem(a) else Mod28(d, Chop(a))
  }

  function Mod63(d: Division, a: nat): nat {
    if d.Divide? then Rem(a) else
      var tmp := a / 0x1_0000_0000;
      var c := Chop(Chop(a % 0x1_0000_0000 + (256 * tmp - 32 * tmp + tmp)));
      if c >= BASE then c - BASE else c
  }

  lemma Parts(a: nat, m: nat)
    requires m == 0x1_0000 || m == 0x1_0000_0000
    ensures a == a % m + m * (a / m) && 0 <= a % m < m
  {
  }

  lemma ChopCongruent(a: nat)
    ensures Rem(Chop(a)) == Rem(a) && Chop(a) <= 0xffff + 15 * (a / 0x1_0000)
    ensures forall n: nat :: a < 0x1_0000 * n ==> Chop(a) <= 0xffff + 15 * (n - 1)
  {
    hide Rem;
    Parts(a, 0x1_0000);
    Congruent(a, Chop(a), a / 0x1_0000);
    forall n: nat | a < 0x1_0000 * n ensures a / 0x1_0000 <= n - 1 {
      Parts(a, 0x1_0000);
    }
  }

  /** For what its name says: 28 bits. */
  lemma Mod28Is(d: Division, a: nat)
    requires a < 0x1000_0000
    ensures Mod28(d, a) == Rem(a)
  {
    hide Rem, Chop;
    ChopCongruent(a);
    assert a < 0x1_0000 * 0x1000;
    RemSmall(Chop(a));
  }

  lemma ModIs(d: Division, a: Word)
    ensures Mod(d, a) == Rem(a)
  {
    hide Rem, Chop;
    ChopCongruent(a);
    assert a < 0x1_0000 * 0x1_0000;
    if d.NoDivide? {
      Mod28Is(d, Chop(a));
    }
  }

  /** 2^32 is 225 modulo BASE. */
  lemma FoldHigh(a: nat)
    requires a < 0x8000_0000_0000_0000
    ensures
      var tmp := a / 0x1_0000_0000;
      var c := a % 0x1_0000_0000 + (256 * tmp - 32 * tmp + tmp);
      Rem(c) == Rem(a) && c < 0x1_0000 * 0x80_0000
  {
    hide Rem;
    Parts(a, 0x1_0000_0000);
    var tmp := a / 0x1_0000_0000;
    Congruent(a, a % 0x1_0000_0000 + 225 * tmp, 65551 * tmp);
  }

  lemma Mod63Is(d: Division, a: nat)
    requires a < 0x8000_0000_0000_0000
    ensures Mod63(d, a) == Rem(a)
  {
    hide Rem, Chop;
    FoldHigh(a);
    var tmp := a / 0x1_0000_0000;
    var c := a % 0x1_0000_0000 + (256 * tmp - 32 * tmp + tmp);
    ChopCongruent(c);
    assert Chop(c) < 0x1_0000 * 0xf00;
    ChopCongruent(Chop(c));
    RemSmall(Chop(Chop(c)));
  }

  // ------------------------------------------------- adler32_z

  lemma NextTotal(base: Sums, text: seq<Byte>, from: nat, i: nat)
    requires from <= i < |text| && base.a < 0x1_0000 && base.b < 0x1_0000 && i < from + NMAX
    ensures Total(base, text[from..i + 1]) == Add(Total(base, text[from..i]), text[i])
    ensures Total(base, text[from..i + 1]).a < 0x1_0000_0000 && Total(base, text[from..i + 1]).b < 0x1_0000_0000
  {
    var more := text[from..i + 1];
    assert more[..|more| - 1] == text[from..i] && more[|more| - 1] == text[i];
    NoOverflow(base, more);
  }

  lemma {:induction false} EndBlock(first: Sums, base: Sums, text: seq<Byte>, from: nat, i: nat)
    requires from <= i <= |text| && Run(first, text[..from]) == Reduce(base)
    ensures Run(first, text[..i]) == Reduce(Total(base, text[from..i]))
  {
    hide Run, Total, Reduce;
    assert text[..i] == text[..from] + text[from..i];
    RunConcat(first, text[..from], text[from..i]);
    Deferred(base, text[from..i]);
  }

  /** DO1. */
  method Do1(ghost base: Sums, text: seq<Byte>, ghost from: nat, i: nat, a: Word, b: Word) returns (c: Word, e: Word)
    requires from <= i < |text| && base.a < 0x1_0000 && base.b < 0x1_0000 && i < from + NMAX
    requires Sums(a, b) == Total(base, text[from..i])
    ensures Sums(c, e) == Total(base, text[from..i + 1])
  {
    hide Total;
    NextTotal(base, text, from, i);
    c := a + text[i];
    e := b + c;
  }

  /** DO16. */
  method Do16(ghost base: Sums, text: seq<Byte>, ghost from: nat, i: nat, a: Word, b: Word) returns (c: Word, e: Word)
    requires from <= i && i + 16 <= |text| && base.a < 0x1_0000 && base.b < 0x1_0000 && i + 16 <= from + NMAX
    requires Sums(a, b) == Total(base, text[from..i])
    ensures Sums(c, e) == Total(base, text[from..i + 16])
  {
    hide Total;
    c, e := a, b;
    for k := 0 to 16
      invariant Sums(c, e) == Total(base, text[from..i + k])
    {
      c, e := Do1(base, text, from, i + k, c, e);
    }
  }

  /** The bytes that are left, by sixteens and then one at a time. */
  method Rest(ghost base: Sums, text: seq<Byte>, from: nat, a: Word, b: Word) returns (c: Word, e: Word)
    requires from <= |text| <= from + NMAX && base.a < 0x1_0000 && base.b < 0x1_0000
    requires Sums(a, b) == base
    ensures Sums(c, e) == Total(base, text[from..])
  {
    hide Total;
    c, e := a, b;
    NoText(base, text, from);
    var i := from;
    while |text| - i >= 16
      invariant from <= i <= |text| && Sums(c, e) == Total(base, text[from..i])
    {
      c, e := Do16(base, text, from, i, c, e);
      i := i + 16;
    }
    while i < |text|
      invariant from <= i <= |text| && Sums(c, e) == Total(base, text[from..i])
    {
      c, e := Do1(base, text, from, i, c, e);
      i := i + 1;
    }
    assert text[from..i] == text[from..];
  }

  lemma {:induction false} NoText(base: Sums, text: seq<Byte>, from: nat)
    requires from <= |text|
    ensures Total(base, text[from..from]) == base
  {
  }

  /** NMAX bytes at a time. */
  method Blocks(d: Division, text: seq<Byte>, a: Word, b: Word) returns (i: nat, c: Word, e: Word)
    requires a < 0x1_0000 && b < 0x1_0000
    ensures i <= |text| < i + NMAX && c < 0x1_0000 && e < 0x1_0000 && (i > 0 ==> c < BASE && e < BASE)
    ensures Run(Reduce(Sums(a, b)), text[..i]) == Reduce(Sums(c, e))
    ensures i == 0 ==> c == a && e == b
  {
    hide Total, Run, Reduce;
    i, c, e := 0, a, b;
    NoRun(Reduce(Sums(a, b)), text);
    while |text| - i >= NMAX
      invariant i <= |text| && c < 0x1_0000 && e < 0x1_0000 && (i > 0 ==> c < BASE && e < BASE)
      invariant Run(Reduce(Sums(a, b)), text[..i]) == Reduce(Sums(c, e))
      invariant i == 0 ==> c == a && e == b
    {
      ghost var base, from := Sums(c, e), i;
      NoText(base, text, from);
      var n := NMAX / 16;
      while n > 0
        invariant 0 <= n <= NMAX / 16 && i == from + 16 * (NMAX / 16 - n)
        invariant Sums(c, e) == Total(base, text[from..i])
      {
        c, e := Do16(base, text, from, i, c, e);
        i := i + 16;
        n := n - 1;
      }
      EndBlock(Reduce(Sums(a, b)), base, text, from, i);
      ModIs(d, c);
      ModIs(d, e);
      ReduceTwice(Sums(c, e));
      c := Mod(d, c);
      e := Mod(d, e);
    }
  }

  lemma {:induction false} NoRun(s: Sums, text: seq<Byte>)
    ensures Run(s, text[..0]) == s
  {
  }

  lemma ReduceTwice(s: Sums)
    ensures Reduce(Sums(Rem(s.a), Rem(s.b))) == Reduce(s) == Sums(Rem(s.a), Rem(s.b))
  {
    hide Rem;
    RemSmall(Rem(s.a));
    RemSmall(Rem(s.b));
  }

  /** `if (x >= BASE) x -= BASE`. */
  function Once(x: nat): nat {
    if x >= BASE then x - BASE else x
  }

  /** The one-byte path subtracts BASE once from each sum. */
  function OneByte(v: Word, x: Byte): Word {
    var s := Split(v);
    var a := Once(s.a + x);
    Pack(Sums(a, Once(s.b + a)))
  }

  lemma OnceIs(x: nat)
    ensures Once(x) == Rem(x) <==> x < 2 * BASE
  {
    hide Rem;
    RemSmall(x);
  }

  lemma OneStep(s: Sums, x: Byte)
    ensures Run(Reduce(s), [x]) == Sums(Rem(s.a + x), Rem(s.b + Rem(s.a + x)))
  {
    hide Rem;
    RunOne(Reduce(s), x);
    RemInside(s.a, x);
    RemInside(s.b, Rem(s.a + x));
  }

  /** That is enough exactly when the second sum is below twice BASE. */
  lemma OneByteRight(v: Word, x: Byte)
    ensures OneByte(v, x) == Adler(v, [x]) <==> Split(v).b + Rem(Split(v).a + x) < 2 * BASE
    ensures Valid(v) ==> OneByte(v, x) == Adler(v, [x])
  {
    hide Run, Split, Pack, Reduce, Rem;
    var s := Split(v);
    OneStep(s, x);
    OnceIs(s.a + x);
    var a := Once(s.a + x);
    OnceIs(s.b + a);
    PackSplit(Sums(a, Once(s.b + a)));
    PackSplit(Sums(a, Rem(s.b + a)));
  }

  /** It is not enough for this one: 65535 + 65520 is not below twice BASE. */
  lemma OneByteWrong()
    ensures OneByte(0xffff_fff0, 0) != Adler(0xffff_fff0, [0])
  {
    hide OneByte, Adler, Rem;
    Quotient(0xffff_fff0, 0xffff, 0xfff0);
    Quotient(0xffff, 0, 0xffff);
    RemSmall(0xfff0);
    OneByteRight(0xffff_fff0, 0);
  }

  lemma {:induction false} RunOne(s: Sums, x: Byte)
    ensures Run(s, [x]) == Step(s, x)
  {
    assert [x][..0] == [];
    assert Run(s, []) == s;
  }

  /** A pointer and a length, or Z_NULL. */
  datatype Memory = Null | Buffer(bytes: seq<Byte>)

  method AdlerZ(d: Division, v: Word, buf: Memory) returns (r: Word)
    ensures buf.Null? ==> r == 1
    ensures buf.Buffer? && |buf.bytes| != 1 ==> r == Adler(v, buf.bytes)
    ensures buf.Buffer? && |buf.bytes| == 1 ==> r == OneByte(v, buf.bytes[0])
    ensures buf.Buffer? && Valid(v) ==> r == Adler(v, buf.bytes)
  {
    hide Run, Total, Adler;
    if buf.Null? {
      return 1;
    }
    var text := buf.bytes;
    var b: Word := v / 0x1_0000 % 0x1_0000;
    var a: Word := v % 0x1_0000;
    if |text| == 1 {
      OneByteRight(v, text[0]);
      assert text == [text[0]];
      a := a + text[0];
      if a >= BASE {
        a := a - BASE;
      }
      b := b + a;
      if b >= BASE {
        b := b - BASE;
      }
      return Pack(Sums(a, b));
    }
    if |text| < 16 {
      r := Few(d, v, text, a, b);
      return;
    }
    r := Many(d, v, text, a, b);
  }

  lemma {:induction false} FewFits(base: Sums, text: seq<Byte>)
    requires base.a < 0x1_0000 && base.b < 0x1_0000 && |text| < 16
    ensures Total(base, text).a < 2 * BASE && Total(base, text).b < 0x1000_0000
  {
    hide Total;
    TotalBound(base, text);
    TriangleGrows(|text|, 15);
    TriangleIs(15);
  }

  /** Fewer than sixteen bytes. */
  method Few(d: Division, v: Word, text: seq<Byte>, a: Word, b: Word) returns (r: Word)
    requires Sums(a, b) == Split(v) && |text| < 16
    ensures r == Adler(v, text)
  {
    hide Run, Total, Split, Reduce, Mod28;
    ghost var base := Sums(a, b);
    NoText(base, text, 0);
    var c: Word, e: Word := a, b;
    var i := 0;
    while i < |text|
      invariant i <= |text| && Sums(c, e) == Total(base, text[0..i])
    {
      c, e := Do1(base, text, 0, i, c, e);
      i := i + 1;
    }
    assert text[0..i] == text && text[..i] == text;
    FewFits(base, text);
    NoRun(Reduce(base), text);
    ReduceOnce(base);
    EndBlock(Reduce(base), base, text, 0, i);
    Mod28Is(d, e);
    ReduceTwice(Sums(c, e));
    if c >= BASE {
      c := c - BASE;
    }
    e := Mod28(d, e);
    r := Pack(Sums(c, e));
  }

  lemma ReduceOnce(s: Sums)
    ensures Reduce(Reduce(s)) == Reduce(s)
  {
    hide Rem;
    ReduceTwice(s);
  }

  method Many(d: Division, v: Word, text: seq<Byte>, a: Word, b: Word) returns (r: Word)
    requires Sums(a, b) == Split(v) && |text| >= 16
    ensures r == Adler(v, text)
  {
    hide Run, Total, Split, Reduce;
    var i, c, e := Blocks(d, text, a, b);
    assert text[..|text|] == text;
    if i < |text| {
      ghost var base := Sums(c, e);
      c, e := Rest(base, text, i, c, e);
      EndBlock(Reduce(Split(v)), base, text, i, |text|);
      assert text[i..|text|] == text[i..];
      ModIs(d, c);
      ModIs(d, e);
      ReduceTwice(Sums(c, e));
      c := Mod(d, c);
      e := Mod(d, e);
    }
    SmallReduced(Sums(c, e));
    r := Pack(Sums(c, e));
  }

  lemma SmallReduced(s: Sums)
    requires Reduced(s)
    ensures Reduce(s) == s
  {
    hide Rem;
    RemSmall(s.a);
    RemSmall(s.b);
  }

  // ------------------------------------------------- adler32_combine_

  /** The check of a whole, from those of its parts: the sums reduced; 0xffffffff for a negative length. */
  function Combined(v1: Word, v2: Word, len2: int): Word {
    if len2 < 0 then 0xffff_ffff else
      var s, t, rem := Split(v1), Split(v2), Rem(len2);
      Pack(Sums(Rem(FirstSum(s, t)), Rem(SecondSum(s, t, rem))))
  }

  function FirstSum(s: Sums, t: Sums): nat {
    s.a + t.a + BASE - 1
  }

  function SecondSum(s: Sums, t: Sums, rem: nat): nat
    requires rem < BASE
  {
    Rem(rem * s.a) + s.b + t.b + BASE - rem
  }

  /** How wide an unsigned long is. */
  datatype Width = Bits32 | Bits64

  /** `x | (y << 16)`: bit 16 of `x`, if it is set, falls on the lowest bit of `y`. */
  function Joined(width: Width, x: nat, y: nat): nat
    requires x < 0x2_0000
  {
    var high := if x >= 0x1_0000 && y % 2 == 0 then y + 1 else y;
    x % 0x1_0000 + 0x1_0000 * (if width.Bits32? then high % 0x1_0000 else high)
  }

  function Twice(x: nat): nat {
    if x >= 2 * BASE then x - 2 * BASE else x
  }

  /** What adler32_combine_ computes, which subtracts BASE twice from one sum and three times from the other. */
  function Subtracted(width: Width, v1: Word, v2: Word, len2: nat): nat {
    var s, t := Split(v1), Split(v2);
    RawBounds(s, t, Rem(len2));
    Joined(width, Once(Once(FirstSum(s, t))), Once(Twice(SecondSum(s, t, Rem(len2)))))
  }

  lemma RawBounds(s: Sums, t: Sums, rem: nat)
    requires s.a < 0x1_0000 && s.b < 0x1_0000 && t.a < 0x1_0000 && t.b < 0x1_0000 && rem < BASE
    ensures FirstSum(s, t) <= 0x2_fffe && Once(Once(FirstSum(s, t))) < 0x1_0010
    ensures SecondSum(s, t, rem) <= 0x3_fff0 && Once(Twice(SecondSum(s, t, rem))) < 0x1_0010
  {
    hide Rem;
  }

  lemma RemUpTo(x: nat)
    requires x < 5 * BASE
    ensures Rem(x) == if x >= 4 * BASE then x - 4 * BASE else if x >= 3 * BASE then x - 3 * BASE else Once(Twice(x))
  {
  }

  lemma JoinedIs(width: Width, x: nat, y: nat, p: nat, q: nat)
    requires x < 0x1_0010 && y < 0x1_0010 && p < BASE && q < BASE
    requires (x == p || x == p + BASE) && (y == q || y == q + BASE)
    ensures Joined(width, x, y) == Pack(Sums(p, q)) <==> x == p && y == q
  {
  }

  /** That is the combined check if and only if the sums are small enough, as they are for reduced halves. */
  lemma CombineRight(width: Width, v1: Word, v2: Word, len2: nat)
    ensures Subtracted(width, v1, v2, len2) == Combined(v1, v2, len2)
      <==> FirstSum(Split(v1), Split(v2)) < 3 * BASE && SecondSum(Split(v1), Split(v2), Rem(len2)) < 4 * BASE
    ensures Valid(v1) && Valid(v2) ==> Subtracted(width, v1, v2, len2) == Combined(v1, v2, len2)
  {
    hide Rem, Split, Pack, Joined;
    var s, t, rem := Split(v1), Split(v2), Rem(len2);
    var x, y := FirstSum(s, t), SecondSum(s, t, rem);
    RawBounds(s, t, rem);
    RemUpTo(x);
    RemUpTo(y);
    JoinedIs(width, Once(Once(x)), Once(Twice(y)), Rem(x), Rem(y));
  }

  /** It is not for these: the first sum is three times BASE and more. */
  lemma CombineWrong(width: Width, len2: nat)
    ensures Subtracted(width, 0xffff, 0xffff, len2) != Combined(0xffff, 0xffff, len2)
  {
    CombineRight(width, 0xffff, 0xffff, len2);
    assert Split(0xffff) == Sums(0xffff, 0);
  }

  lemma {:induction false} TimesGrows(x: nat, y: nat, k: nat)
    requires x <= y
    ensures x * k <= y * k
  {
    if k > 0 {
      TimesGrows(x, y, k - 1);
    }
  }

  lemma ProductFits(rem: nat, a: nat)
    requires rem < BASE && a < 0x1_0000
    ensures rem * a < 0x1_0000_0000
  {
    TimesGrows(rem, BASE - 1, a);
  }

  /** The sums of both checks, each reduced by subtractions. */
  method CombineSums(d: Division, s: Sums, t: Sums, rem: nat) returns (sum1: Word, sum2: Word)
    requires s.a < 0x1_0000 && s.b < 0x1_0000 && t.a < 0x1_0000 && t.b < 0x1_0000 && rem < BASE
    ensures sum1 == Once(Once(FirstSum(s, t))) && sum2 == Once(Twice(SecondSum(s, t, rem)))
  {
    hide Mod, Rem;
    sum1 := s.a;
    ProductFits(rem, sum1);
    sum2 := rem * sum1;
    ModIs(d, sum2);
    sum2 := Mod(d, sum2);
    sum1 := sum1 + t.a + BASE - 1;
    sum2 := sum2 + s.b + t.b + BASE - rem;
    if sum1 >= BASE {
      sum1 := sum1 - BASE;
    }
    if sum1 >= BASE {
      sum1 := sum1 - BASE;
    }
    if sum2 >= 2 * BASE {
      sum2 := sum2 - 2 * BASE;
    }
    if sum2 >= BASE {
      sum2 := sum2 - BASE;
    }
  }

  method Combine(d: Division, width: Width, v1: Word, v2: Word, len2: int) returns (r: nat)
    requires len2 < 0x8000_0000_0000_0000
    ensures len2 < 0 ==> r == 0xffff_ffff
    ensures len2 >= 0 ==> r == Subtracted(width, v1, v2, len2)
    ensures Valid(v1) && Valid(v2) ==> r == Combined(v1, v2, len2)
  {
    if len2 < 0 {
      return 0xffff_ffff;
    }
    hide Split, Pack, Mod63, Rem, Joined, Once, Twice, FirstSum, SecondSum, Combined, Valid;
    Mod63Is(d, len2);
    var rem := Mod63(d, len2);
    RawBounds(Split(v1), Split(v2), rem);
    CombineRight(width, v1, v2, len2);
    var sum1, sum2 := CombineSums(d, Split(v1), Split(v2), rem);
    r := Joined(width, sum1, sum2);
  }

  // What a text adds to the sums started from zero.

  lemma {:induction false} TotalSplits(s: Sums, text: seq<Byte>)
    ensures Total(s, text).a == s.a + Total(Sums(0, 0), text).a
    ensures Total(s, text).b == s.b + |text| * s.a + Total(Sums(0, 0), text).b
  {
    if text != [] {
      var n := |text| - 1;
      TotalSplits(s, text[..n]);
      assert |text| * s.a == n * s.a + s.a;
    }
  }

  lemma Multiples(n: nat, a: nat)
    ensures Rem(Rem(n) * a) == Rem(n * a)
  {
    RemIs(n);
    hide Rem;
    var q := n / BASE;
    assert n * a == Rem(n) * a + (q * a) * BASE;
    Congruent(n * a, Rem(n) * a, q * a);
  }

  lemma CombinedFirst(a: nat, c: nat)
    ensures Rem(a + Rem(1 + c) + BASE - 1) == Rem(a + c)
  {
    hide Rem;
    RemInside(1 + c, a + BASE - 1);
    OneBase(a + c);
  }

  lemma CombinedSecond(a: nat, b: nat, n: nat, d: nat)
    ensures Rem(Rem(Rem(n) * a) + b + Rem(n + d) + BASE - Rem(n)) == Rem(b + n * a + d)
  {
    RemIs(n);
    hide Rem;
    var rem, q := Rem(n), n / BASE;
    RemInside(n + d, Rem(rem * a) + b + BASE - rem);
    Multiples(n, a);
    RemInside(n * a, n + d + b + BASE - rem);
    Congruent(n * a + (n + d + b + BASE - rem), b + n * a + d, q + 1);
  }

  /** The checks of two texts, the second started from one, and its length give the check of the whole. */
  lemma CombineLaw(v: Word, x: seq<Byte>, y: seq<Byte>)
    ensures Combined(Adler(v, x), Adler(1, y), |y|) == Adler(v, x + y)
    ensures Valid(Adler(v, x)) && Valid(Adler(1, y))
  {
    hide Run, Total, Split, Pack, Reduce, Rem;
    var first := Reduce(Split(v));
    RunReduced(first, x);
    var s := Run(first, x);
    PackSplit(s);
    assert Split(1) == Sums(1, 0) && Reduce(Sums(1, 0)) == Sums(1, 0) by { StartOne(); }
    RunReduced(Sums(1, 0), y);
    PackSplit(Run(Sums(1, 0), y));
    RunConcat(first, x, y);
    SmallReduced(s);
    Deferred(s, y);
    Deferred(Sums(1, 0), y);
    TotalSplits(s, y);
    TotalSplits(Sums(1, 0), y);
    var t := Total(Sums(0, 0), y);
    CombinedFirst(s.a, t.a);
    CombinedSecond(s.a, s.b, |y|, t.b);
    ReduceIs(Total(s, y));
    ReduceIs(Total(Sums(1, 0), y));
  }

  lemma StartOne()
    ensures Split(1) == Sums(1, 0) && Reduce(Sums(1, 0)) == Sums(1, 0)
  {
  }

  lemma ReduceIs(s: Sums)
    ensures Reduce(s) == Sums(Rem(s.a), Rem(s.b))
  {
  }
}
