/**
 What the register of src/zlib/crc32.c stands for: the remainder of the message, read as
 a polynomial over GF(2), divided by the generator polynomial.
 */
module CrcDivision {
  import opened Crc32
  import opened CrcTables
  import opened CrcCombine

  // ------------------------------------------------- polynomials over GF(2)

  /** The exponents whose coefficient is one. */
  type Poly = set<nat>

  function Plus(a: Poly, b: Poly): Poly {
    (a - b) + (b - a)
  }

  function TimesX(a: Poly): Poly {
    set e | e in a :: e + 1
  }

  lemma InPlus(a: Poly, b: Poly, e: nat)
    ensures e in Plus(a, b) <==> ((e in a) != (e in b))
  {
  }

  lemma InTimesX(a: Poly, e: nat)
    ensures e in TimesX(a) <==> e > 0 && e - 1 in a
  {
    if e > 0 && e - 1 in a {
      assert (e - 1) + 1 == e;
    }
  }

  function TimesPower(a: Poly, n: nat): Poly {
    if n == 0 then a else TimesX(TimesPower(a, n - 1))
  }

  function Only(a: Poly, on: bool): Poly {
    if on then a else {}
  }

  /** The generator. */
  function Generator(): Poly {
    {32} + set e | e in TERMS
  }

  /** `bits` as coefficients, the highest power first, times `unit`. */
  function Horner(unit: Poly, bits: seq<bool>): Poly {
    if bits == [] then {}
    else Plus(TimesX(Horner(unit, bits[..|bits| - 1])), Only(unit, bits[|bits| - 1]))
  }

  lemma TimesXPlus(a: Poly, b: Poly)
    ensures TimesX(Plus(a, b)) == Plus(TimesX(a), TimesX(b))
  {
    hide TimesX, Plus;
    forall e: nat ensures e in TimesX(Plus(a, b)) <==> e in Plus(TimesX(a), TimesX(b)) {
      InTimesX(Plus(a, b), e);
      InPlus(TimesX(a), TimesX(b), e);
      InTimesX(a, e);
      InTimesX(b, e);
      if e > 0 {
        InPlus(a, b, e - 1);
      }
    }
  }

  lemma PlusLaws(a: Poly, b: Poly, c: Poly)
    ensures Plus(a, Plus(b, c)) == Plus(Plus(a, b), c) && Plus(a, b) == Plus(b, a)
    ensures Plus(a, a) == {} && Plus(a, {}) == a
  {
  }

  // ------------------------------------------------- registers as polynomials

  /** The coefficient of x^e is bit 31 - e. */
  predicate Coefficient(c: bv32, e: nat) {
    e < 32 && Odd(Down(c, 31 - e))
  }

  function Residue(c: bv32): (r: Poly)
    ensures forall e :: e in r ==> e < 32
  {
    set e | 0 <= e < 32 && Coefficient(c, e)
  }

  lemma {:induction false} DownLast(c: bv32, n: nat)
    ensures Down(c, n + 1) == Half(Down(c, n))
    decreases n
  {
    hide Half;
    if n > 0 {
      DownLast(Half(c), n - 1);
    }
  }

  lemma {:induction false} DownNone(c: bv32)
    ensures Down(c, 0) == c
  {
  }

  lemma {:induction false} DownXor(a: bv32, b: bv32, n: nat)
    ensures Down(Xor(a, b), n) == Xor(Down(a, n), Down(b, n))
    decreases n
  {
    hide Half, Xor;
    if n > 0 {
      HalfXor(a, b);
      DownXor(Half(a), Half(b), n - 1);
    }
  }

  lemma CoefficientXor(a: bv32, b: bv32, e: nat)
    ensures Coefficient(Xor(a, b), e) <==> (Coefficient(a, e) != Coefficient(b, e))
  {
    hide Down, Xor, Odd;
    if e < 32 {
      DownXor(a, b, 31 - e);
      OddXor(Down(a, 31 - e), Down(b, 31 - e));
    }
  }

  lemma CoefficientHalf(c: bv32, e: nat)
    requires e < 32
    ensures Coefficient(Half(c), e) <==> e > 0 && Coefficient(c, e - 1)
  {
    hide Half, Odd;
    if e == 0 {
      AllOut(c);
      NextDown(c, 32);
      HalfZero();
    } else {
      NextDown(c, 32 - e);
    }
  }

  lemma HalfIs(a: bv32, b: bv32)
    requires b == a >> 1
    ensures Half(a) == b
  {
  }

  lemma PolyBits0()
    ensures !Odd(Down(POLY, 0)) && !Odd(Down(POLY, 1)) && !Odd(Down(POLY, 2)) && !Odd(Down(POLY, 3))
    ensures !Odd(Down(POLY, 4)) && Odd(Down(POLY, 5)) && !Odd(Down(POLY, 6)) && !Odd(Down(POLY, 7))
    ensures Down(POLY, 8) == 0xedb883
  {
    hide Down;
    DownNone(POLY);
    DownLast(POLY, 0);
    HalfIs(0xedb88320, 0x76dc4190);
    DownLast(POLY, 1);
    HalfIs(0x76dc4190, 0x3b6e20c8);
    DownLast(POLY, 2);
    HalfIs(0x3b6e20c8, 0x1db71064);
    DownLast(POLY, 3);
    HalfIs(0x1db71064, 0xedb8832);
    DownLast(POLY, 4);
    HalfIs(0xedb8832, 0x76dc419);
    DownLast(POLY, 5);
    HalfIs(0x76dc419, 0x3b6e20c);
    DownLast(POLY, 6);
    HalfIs(0x3b6e20c, 0x1db7106);
    DownLast(POLY, 7);
    HalfIs(0x1db7106, 0xedb883);
  }

  lemma PolyBits1()
    ensures Odd(Down(POLY, 8)) && Odd(Down(POLY, 9)) && !Odd(Down(POLY, 10)) && !Odd(Down(POLY, 11))
    ensures !Odd(Down(POLY, 12)) && !Odd(Down(POLY, 13)) && !Odd(Down(POLY, 14)) && Odd(Down(POLY, 15))
    ensures Down(POLY, 16) == 0xedb8
  {
    hide Down;
    PolyBits0();
    DownLast(POLY, 8);
    HalfIs(0xedb883, 0x76dc41);
    DownLast(POLY, 9);
    HalfIs(0x76dc41, 0x3b6e20);
    DownLast(POLY, 10);
    HalfIs(0x3b6e20, 0x1db710);
    DownLast(POLY, 11);
    HalfIs(0x1db710, 0xedb88);
    DownLast(POLY, 12);
    HalfIs(0xedb88, 0x76dc4);
    DownLast(POLY, 13);
    HalfIs(0x76dc4, 0x3b6e2);
    DownLast(POLY, 14);
    HalfIs(0x3b6e2, 0x1db71);
    DownLast(POLY, 15);
    HalfIs(0x1db71, 0xedb8);
  }

  lemma PolyBits2()
    ensures !Odd(Down(POLY, 16)) && !Odd(Down(POLY, 17)) && !Odd(Down(POLY, 18)) && Odd(Down(POLY, 19))
    ensures Odd(Down(POLY, 20)) && Odd(Down(POLY, 21)) && !Odd(Down(POLY, 22)) && Odd(Down(POLY, 23))
    ensures Down(POLY, 24) == 0xed
  {
    hide Down;
    PolyBits1();
    DownLast(POLY, 16);
    HalfIs(0xedb8, 0x76dc);
    DownLast(POLY, 17);
    HalfIs(0x76dc, 0x3b6e);
    DownLast(POLY, 18);
    HalfIs(0x3b6e, 0x1db7);
    DownLast(POLY, 19);
    HalfIs(0x1db7, 0xedb);
    DownLast(POLY, 20);
    HalfIs(0xedb, 0x76d);
    DownLast(POLY, 21);
    HalfIs(0x76d, 0x3b6);
    DownLast(POLY, 22);
    HalfIs(0x3b6, 0x1db);
    DownLast(POLY, 23);
    HalfIs(0x1db, 0xed);
  }

  lemma PolyBits3()
    ensures Odd(Down(POLY, 24)) && !Odd(Down(POLY, 25)) && Odd(Down(POLY, 26)) && Odd(Down(POLY, 27))
    ensures !Odd(Down(POLY, 28)) && Odd(Down(POLY, 29)) && Odd(Down(POLY, 30)) && Odd(Down(POLY, 31))
    ensures Down(POLY, 32) == 0x0
  {
    hide Down;
    PolyBits2();
    DownLast(POLY, 24);
    HalfIs(0xed, 0x76);
    DownLast(POLY, 25);
    HalfIs(0x76, 0x3b);
    DownLast(POLY, 26);
    HalfIs(0x3b, 0x1d);
    DownLast(POLY, 27);
    HalfIs(0x1d, 0xe);
    DownLast(POLY, 28);
    HalfIs(0xe, 0x7);
    DownLast(POLY, 29);
    HalfIs(0x7, 0x3);
    DownLast(POLY, 30);
    HalfIs(0x3, 0x1);
    DownLast(POLY, 31);
    HalfIs(0x1, 0x0);
  }


  lemma Coefficients0(e: nat)
    requires 0 <= e < 8
    ensures Coefficient(POLY, e) <==> e in TERMS
  {
    hide Down, Odd;
    PolyBits3();
  }

  lemma Coefficients1(e: nat)
    requires 8 <= e < 16
    ensures Coefficient(POLY, e) <==> e in TERMS
  {
    hide Down, Odd;
    PolyBits2();
  }

  lemma Coefficients2(e: nat)
    requires 16 <= e < 24
    ensures Coefficient(POLY, e) <==> e in TERMS
  {
    hide Down, Odd;
    PolyBits1();
  }

  lemma Coefficients3(e: nat)
    requires 24 <= e < 32
    ensures Coefficient(POLY, e) <==> e in TERMS
  {
    hide Down, Odd;
    PolyBits0();
  }

  /** The constant of the code is the generator without its highest term. */
  lemma PolyCoefficient(e: nat)
    requires e < 32
    ensures Coefficient(POLY, e) <==> e in Generator()
  {
    hide Coefficient;
    if e < 8 {
      Coefficients0(e);
    } else if e < 16 {
      Coefficients1(e);
    } else if e < 24 {
      Coefficients2(e);
    } else {
      Coefficients3(e);
    }
  }

  // ------------------------------------------------- one bit of the message

  function Serial(c: bv32, b: bool): bv32 {
    ZeroBit(Xor(c, Row(1, b)))
  }

  function SerialRun(c: bv32, bits: seq<bool>): bv32 {
    if bits == [] then c else Serial(SerialRun(c, bits[..|bits| - 1]), bits[|bits| - 1])
  }

  /** Whether the generator is subtracted when `b` comes in. */
  predicate Goes(c: bv32, b: bool) {
    Odd(c) != b
  }

  function Quotient(c: bv32, bits: seq<bool>): (q: seq<bool>)
    ensures |q| == |bits|
  {
    if bits == [] then [] else
      var front := bits[..|bits| - 1];
      Quotient(c, front) + [Goes(SerialRun(c, front), bits[|bits| - 1])]
  }

  lemma HalfOne(b: bool)
    ensures Half(Row(1, b)) == 0 && Odd(Row(1, b)) == b
  {
  }

  lemma RowCoefficient(b: bool, e: nat)
    requires e < 31
    ensures !Coefficient(Row(1, b), e)
  {
    hide Half, Odd, Row;
    NextDown(Row(1, b), 31 - e);
    HalfOne(b);
    DownZero(30 - e);
    HalfZero();
  }

  lemma {:induction false} DownZero(n: nat)
    ensures Down(0, n) == 0
  {
    hide Half;
    if n > 0 {
      HalfZero();
      DownZero(n - 1);
    }
  }

  lemma TopCoefficient(c: bv32)
    ensures Coefficient(c, 31) <==> Odd(c)
  {
    hide Odd;
    DownNone(c);
  }

  lemma SerialIs(c: bv32, b: bool)
    ensures Serial(c, b) == Xor(Row(POLY, Goes(c, b)), Half(Xor(c, Row(1, b))))
  {
    hide Xor, Half, Odd, ZeroBit;
    ZeroBitIs(Xor(c, Row(1, b)));
    OddXor(c, Row(1, b));
    HalfOne(b);
    XorZero(Half(Xor(c, Row(1, b))));
  }

  lemma SerialCoefficient(c: bv32, b: bool, e: nat)
    requires e < 32
    ensures Coefficient(Serial(c, b), e) <==> ((Goes(c, b) && e in Generator()) != (e > 0 && Coefficient(c, e - 1)))
  {
    hide Coefficient, Xor, Half, Generator, Goes, Serial;
    var x := Xor(c, Row(1, b));
    SerialIs(c, b);
    CoefficientXor(Row(POLY, Goes(c, b)), Half(x), e);
    CoefficientHalf(x, e);
    PolyCoefficient(e);
    assert !Coefficient(0, e) by { RowCoefficientZero(e); }
    if e > 0 {
      CoefficientXor(c, Row(1, b), e - 1);
      RowCoefficient(b, e - 1);
    }
  }

  lemma RowCoefficientZero(e: nat)
    ensures !Coefficient(0, e)
  {
    hide Odd;
    if e < 32 {
      DownZero(31 - e);
      HalfZero();
    }
  }

  lemma GeneratorTop(e: nat)
    requires e >= 32
    ensures e in Generator() <==> e == 32
  {
  }

  /**
   One step multiplies the remainder by x, adds x^32 for the new bit, and subtracts the generator if x^32 is there.
  */
  lemma StepDivides(c: bv32, b: bool)
    ensures Residue(Serial(c, b)) == Plus(Plus(TimesX(Residue(c)), Only({32}, b)), Only(Generator(), Goes(c, b)))
  {
    hide Coefficient, TimesX, Plus, Generator, Serial;
    var moved := TimesX(Residue(c));
    var with := Plus(moved, Only({32}, b));
    forall e: nat ensures e in Residue(Serial(c, b)) <==> e in Plus(with, Only(Generator(), Goes(c, b))) {
      InPlus(with, Only(Generator(), Goes(c, b)), e);
      InPlus(moved, Only({32}, b), e);
      InTimesX(Residue(c), e);
      if e < 32 {
        SerialCoefficient(c, b, e);
      } else {
        GeneratorTop(e);
        TopCoefficient(c);
      }
    }
  }

  // ------------------------------------------------- the whole message

  lemma {:induction false} TimesPowerPlus(a: Poly, b: Poly, n: nat)
    ensures TimesPower(Plus(a, b), n) == Plus(TimesPower(a, n), TimesPower(b, n))
  {
    hide Plus, TimesX;
    if n > 0 {
      TimesPowerPlus(a, b, n - 1);
      TimesXPlus(TimesPower(a, n - 1), TimesPower(b, n - 1));
    }
  }

  lemma {:induction false} TimesPowerX(a: Poly, n: nat)
    ensures TimesPower(TimesX(a), n) == TimesX(TimesPower(a, n))
  {
    hide TimesX;
    if n > 0 {
      TimesPowerX(a, n - 1);
    }
  }

  lemma {:induction false} OnePower(on: bool, n: nat)
    ensures TimesPower(Only({0}, on), n) == Only({n}, on)
  {
    if n > 0 {
      OnePower(on, n - 1);
      assert TimesX({n - 1}) == {n};
      assert TimesX({}) == {};
    }
  }

  lemma Cancel(a: Poly, b: Poly, o: Poly, g: Poly)
    ensures Plus(Plus(a, g), Plus(Plus(b, o), g)) == Plus(Plus(a, b), o)
  {
  }

  lemma SwapLast(a: Poly, b: Poly, o: Poly)
    ensures Plus(Plus(a, o), b) == Plus(Plus(a, b), o)
  {
  }

  /**
   The division identity: message * x^32 + start * x^n == quotient * generator + remainder,
   the remainder being what the register holds.
   */
  lemma {:induction false} Division(c: bv32, bits: seq<bool>)
    ensures Plus(TimesPower(Horner({0}, bits), 32), TimesPower(Residue(c), |bits|))
         == Plus(Horner(Generator(), Quotient(c, bits)), Residue(SerialRun(c, bits)))
  {
    hide Plus, TimesX, Residue, Generator, Serial, TimesPower, Goes;
    if bits == [] {
      NoPower(Residue(c));
      EmptyPower(32);
    } else {
      var n := |bits| - 1;
      var front, b := bits[..n], bits[n];
      Division(c, front);
      var message, start := TimesPower(Horner({0}, front), 32), TimesPower(Residue(c), n);
      var multiple, rest := Horner(Generator(), Quotient(c, front)), SerialRun(c, front);
      var o, g := Only({32}, b), Only(Generator(), Goes(rest, b));
      TimesPowerPlus(TimesX(Horner({0}, front)), Only({0}, b), 32);
      TimesPowerX(Horner({0}, front), 32);
      OnePower(b, 32);
      NextPower(Residue(c), n);
      SwapLast(TimesX(message), TimesX(start), o);
      TimesXPlus(message, start);
      TimesXPlus(multiple, Residue(rest));
      StepDivides(rest, b);
      var q := Quotient(c, bits);
      assert q[..n] == Quotient(c, front) && q[n] == Goes(rest, b);
      Cancel(TimesX(multiple), TimesX(Residue(rest)), o, g);
    }
  }

  lemma {:induction false} NoPower(a: Poly)
    ensures TimesPower(a, 0) == a
  {
  }

  lemma NextPower(a: Poly, n: nat)
    ensures TimesPower(a, n + 1) == TimesX(TimesPower(a, n))
  {
  }

  lemma {:induction false} EmptyPower(n: nat)
    ensures TimesPower({}, n) == {}
  {
    if n > 0 {
      EmptyPower(n - 1);
    }
  }

  // ------------------------------------------------- bytes

  function LowBits(w: bv32, n: nat): seq<bool>
    decreases n
  {
    if n == 0 then [] else [Odd(w)] + LowBits(Half(w), n - 1)
  }

  /** The message as bits, the low bit of each byte first. */
  function MessageBits(s: seq<bv8>): seq<bool> {
    if s == [] then [] else MessageBits(s[..|s| - 1]) + LowBits(Wide(s[|s| - 1]), 8)
  }

  lemma {:induction false} SerialConcat(c: bv32, a: seq<bool>, b: seq<bool>)
    ensures SerialRun(c, a + b) == SerialRun(SerialRun(c, a), b)
    decreases |b|
  {
    hide Serial;
    if b == [] {
      assert a + b == a;
    } else {
      var ab := a + b;
      assert ab[..|ab| - 1] == a + b[..|b| - 1] && ab[|ab| - 1] == b[|b| - 1];
      SerialConcat(c, a, b[..|b| - 1]);
    }
  }

  lemma EvenHalf(w: bv32)
    ensures !Odd(Double(Half(w))) && Half(Double(Half(w))) == Half(w)
  {
  }

  /** Adding a whole word and shifting is adding its bits one at a time. */
  lemma {:induction false} SerialWord(c: bv32, w: bv32, n: nat)
    requires Down(w, n) == 0
    ensures SerialRun(c, LowBits(w, n)) == Zeros(Xor(c, w), n)
    decreases n
  {
    hide Xor, Half, Odd, Double, ZeroBit, Row;
    if n == 0 {
      XorZero(c);
    } else {
      var d := Serial(c, Odd(w));
      SerialWord(d, Half(w), n - 1);
      SerialConcat(c, [Odd(w)], LowBits(Half(w), n - 1));
      SerialOne(c, Odd(w));
      HighAndLow(w);
      XorAssociative(c, Row(1, Odd(w)), Double(Half(w)));
      ZeroBitLinear(Xor(c, Row(1, Odd(w))), Double(Half(w)));
      EvenHalf(w);
      ZeroBitIs(Double(Half(w)));
    }
  }

  lemma {:induction false} SerialOne(c: bv32, b: bool)
    ensures SerialRun(c, [b]) == Serial(c, b)
  {
    hide Serial;
    assert [b][..0] == [];
    assert SerialRun(c, []) == c;
  }

  lemma ByteDown(b: bv8)
    ensures Down(Wide(b), 8) == 0
  {
    hide Half, Wide, Down;
    DownEight(Wide(b), 0);
    DownNone(Shr8(Wide(b)));
    ByteShift(b);
  }

  lemma ByteShift(b: bv8)
    ensures Shr8(Wide(b)) == 0
  {
  }

  lemma {:induction false} RegisterSerial(c: bv32, s: seq<bv8>)
    ensures |MessageBits(s)| == 8 * |s| && Register(c, s) == SerialRun(c, MessageBits(s))
  {
    hide Xor, Half, Odd, Wide, Zeros, Serial, LowBits, Down;
    if s != [] {
      var n := |s| - 1;
      RegisterSerial(c, s[..n]);
      ByteDown(s[n]);
      SerialWord(Register(c, s[..n]), Wide(s[n]), 8);
      SerialConcat(c, MessageBits(s[..n]), LowBits(Wide(s[n]), 8));
      BitCount(Wide(s[n]), 8);
    }
  }

  lemma {:induction false} BitCount(w: bv32, n: nat)
    ensures |LowBits(w, n)| == n
    decreases n
  {
    hide Odd, Half;
    if n > 0 {
      BitCount(Half(w), n - 1);
    }
  }

  /** The register after a text is the remainder of the text, started from what was in the register. */
  lemma {:induction false} RegisterIsRemainder(c: bv32, s: seq<bv8>)
    ensures Plus(TimesPower(Horner({0}, MessageBits(s)), 32), TimesPower(Residue(c), 8 * |s|))
         == Plus(Horner(Generator(), Quotient(c, MessageBits(s))), Residue(Register(c, s)))
    ensures |MessageBits(s)| == 8 * |s|
  {
    hide *;
    RegisterSerial(c, s);
    Division(c, MessageBits(s));
  }

  // ------------------------------------------------- there is only one remainder

  function Differences(p: seq<bool>, q: seq<bool>): (r: seq<bool>)
    requires |p| == |q|
    ensures |r| == |p|
  {
    seq(|p|, i requires 0 <= i < |p| => p[i] != q[i])
  }

  lemma OnlyPlus(g: Poly, a: bool, b: bool)
    ensures Plus(Only(g, a), Only(g, b)) == Only(g, a != b)
  {
  }

  lemma PlusExchange(a: Poly, b: Poly, c: Poly, d: Poly)
    ensures Plus(Plus(a, b), Plus(c, d)) == Plus(Plus(a, c), Plus(b, d))
  {
  }

  lemma {:induction false} HornerPlus(g: Poly, p: seq<bool>, q: seq<bool>)
    requires |p| == |q|
    ensures Plus(Horner(g, p), Horner(g, q)) == Horner(g, Differences(p, q))
  {
    hide Plus, TimesX, Only;
    if p == [] {
      PlusLaws({}, {}, {});
    } else {
      var n := |p| - 1;
      HornerPlus(g, p[..n], q[..n]);
      assert Differences(p, q)[..n] == Differences(p[..n], q[..n]);
      TimesXPlus(Horner(g, p[..n]), Horner(g, q[..n]));
      OnlyPlus(g, p[n], q[n]);
      PlusExchange(TimesX(Horner(g, p[..n])), Only(g, p[n]), TimesX(Horner(g, q[..n])), Only(g, q[n]));
    }
  }

  /** A multiple of the generator of degree below 32 is zero. */
  lemma {:induction false} SmallMultiple(q: seq<bool>) returns (e: nat)
    ensures Horner(Generator(), q) == {} || (e >= 32 && e in Horner(Generator(), q))
  {
    hide Plus, TimesX, Generator;
    e := 0;
    if q != [] {
      var n := |q| - 1;
      var f := SmallMultiple(q[..n]);
      var front := Horner(Generator(), q[..n]);
      if front != {} {
        e := f + 1;
        InTimesX(front, e);
      } else {
        e := 32;
        InTimesX(front, e);
        TimesNothing();
        PlusLaws(Only(Generator(), q[n]), {}, {});
      }
      InPlus(TimesX(front), Only(Generator(), q[n]), e);
      GeneratorTop(e);
    }
  }

  lemma TimesNothing()
    ensures TimesX({}) == {}
  {
  }

  /** Two divisions of the same polynomial leave the same remainder. */
  lemma {:induction false} RemainderUnique(p: seq<bool>, r: Poly, q: seq<bool>, s: Poly)
    requires |p| == |q| && (forall e :: e in r ==> e < 32) && (forall e :: e in s ==> e < 32)
    requires Plus(Horner(Generator(), p), r) == Plus(Horner(Generator(), q), s)
    ensures r == s
  {
    hide Horner, Generator;
    var a, b := Horner(Generator(), p), Horner(Generator(), q);
    assert Plus(a, b) == Plus(r, s) by {
      PlusExchange(a, r, b, s);
      PlusLaws(Plus(a, r), {}, {});
      PlusSame(Plus(a, b), Plus(r, s));
    }
    HornerPlus(Generator(), p, q);
    var e := SmallMultiple(Differences(p, q));
    InPlus(r, s, e);
    PlusSame(r, s);
  }

  lemma PlusSame(a: Poly, b: Poly)
    requires Plus(a, b) == {}
    ensures a == b
  {
  }
}
