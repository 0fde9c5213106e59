/**
 crc32_combine_ of src/zlib/crc32.c: matrices over GF(2), squared to reach any number of
 zero bits, give the check of a concatenation from the checks of its parts.
 */
module CrcCombine {
  import opened Crc32
  import opened CrcTables

  const GF2_DIM: nat := 32

  // ------------------------------------------------- matrices

  function Row(m: bv32, on: bool): bv32 {
    if on then m else 0
  }

  /** The sum of the rows that the bits of `v` select. */
  function Times(mat: seq<bv32>, v: bv32): bv32 {
    if mat == [] then 0 else Xor(Row(mat[0], Odd(v)), Times(mat[1..], Half(v)))
  }

  function Product(p: seq<bv32>, q: seq<bv32>): (r: seq<bv32>)
    ensures |r| == |q|
  {
    seq(|q|, i requires 0 <= i < |q| => Times(p, q[i]))
  }

  lemma Exchange(a: bv32, b: bv32, c: bv32, d: bv32)
    ensures Xor(Xor(a, b), Xor(c, d)) == Xor(Xor(a, c), Xor(b, d))
  {
    hide *;
    XorAssociative(a, b, Xor(c, d));
    XorAssociative(b, c, d);
    XorCommutative(b, c);
    XorAssociative(c, b, d);
    XorAssociative(a, c, Xor(b, d));
  }

  lemma RowXor(m: bv32, a: bool, b: bool)
    ensures Xor(Row(m, a), Row(m, b)) == Row(m, a != b)
  {
    hide Xor;
    XorZero(m);
    XorZero(0);
  }

  /** gf2_matrix_times is linear in the vector. */
  lemma {:induction false} TimesLinear(mat: seq<bv32>, a: bv32, b: bv32)
    ensures Times(mat, Xor(a, b)) == Xor(Times(mat, a), Times(mat, b))
  {
    hide Xor, Half, Odd, Row;
    if mat == [] {
      XorZero(0);
    } else {
      OddXor(a, b);
      HalfXor(a, b);
      TimesLinear(mat[1..], Half(a), Half(b));
      RowXor(mat[0], Odd(a), Odd(b));
      Exchange(Row(mat[0], Odd(a)), Times(mat[1..], Half(a)), Row(mat[0], Odd(b)), Times(mat[1..], Half(b)));
    }
  }

  lemma HalfZero()
    ensures Half(0) == 0 && !Odd(0)
  {
  }

  lemma {:induction false} TimesZero(mat: seq<bv32>)
    ensures Times(mat, 0) == 0
  {
    hide Xor, Half, Odd;
    if mat != [] {
      HalfZero();
      TimesZero(mat[1..]);
      XorZero(0);
    }
  }

  lemma {:induction false} TimesRow(mat: seq<bv32>, m: bv32, on: bool)
    ensures Times(mat, Row(m, on)) == Row(Times(mat, m), on)
  {
    TimesZero(mat);
  }

  /** A product of matrices is the composition of their maps; gf2_matrix_square is the case of equal factors. */
  lemma {:induction false} ProductComposes(p: seq<bv32>, q: seq<bv32>, v: bv32)
    ensures Times(Product(p, q), v) == Times(p, Times(q, v))
    decreases |q|
  {
    hide Xor, Half, Odd, Row;
    if q == [] {
      TimesZero(p);
    } else {
      assert Product(p, q)[1..] == Product(p, q[1..]);
      ProductComposes(p, q[1..], Half(v));
      TimesRow(p, q[0], Odd(v));
      TimesLinear(p, Row(q[0], Odd(v)), Times(q[1..], Half(v)));
    }
  }

  // ------------------------------------------------- the operator of one zero bit

  function Up(c: bv32, n: nat): bv32
    decreases n
  {
    if n == 0 then c else Up(Double(c), n - 1)
  }

  function Down(c: bv32, n: nat): bv32
    decreases n
  {
    if n == 0 then c else Down(Half(c), n - 1)
  }

  function Shr2(c: bv32): bv32 {
    c >> 2
  }

  function Shr4(c: bv32): bv32 {
    c >> 4
  }

  function Shr16(c: bv32): bv32 {
    c >> 16
  }

  lemma TwoHalves(c: bv32)
    ensures Half(Half(c)) == Shr2(c)
  {
  }

  lemma FourHalves(c: bv32)
    ensures Shr2(Shr2(c)) == Shr4(c)
  {
  }

  lemma TwoNibbles(c: bv32)
    ensures Shr4(Shr4(c)) == Shr8(c)
  {
  }

  lemma TwoBytes(c: bv32)
    ensures Shr8(Shr8(c)) == Shr16(c)
  {
  }

  lemma TwoPairs(c: bv32)
    ensures Shr16(Shr16(c)) == 0
  {
  }

  lemma {:induction false} DownFour(c: bv32, n: nat)
    ensures Down(c, n + 4) == Down(Shr4(c), n)
  {
    hide Half, Shr2, Shr4;
    assert Down(c, n + 4) == Down(Half(c), n + 3);
    assert Down(Half(c), n + 3) == Down(Half(Half(c)), n + 2);
    TwoHalves(c);
    assert Down(Shr2(c), n + 2) == Down(Half(Shr2(c)), n + 1);
    TwoHalves(Shr2(c));
    FourHalves(c);
  }

  lemma {:induction false} DownEight(c: bv32, n: nat)
    ensures Down(c, n + 8) == Down(Shr8(c), n)
  {
    hide *;
    DownFour(c, n + 4);
    DownFour(Shr4(c), n);
    TwoNibbles(c);
  }

  /** A register has 32 bits. */
  lemma {:induction false} AllOut(c: bv32)
    ensures Down(c, GF2_DIM) == 0
  {
    hide Shr8, Shr16, Half;
    DownEight(c, 24);
    DownEight(Shr8(c), 16);
    DownEight(Shr8(Shr8(c)), 8);
    DownEight(Shr8(Shr8(Shr8(c))), 0);
    TwoBytes(c);
    TwoBytes(Shr16(c));
    TwoPairs(c);
  }

  lemma DoubleXor(a: bv32, b: bv32)
    ensures Double(Xor(a, b)) == Xor(Double(a), Double(b))
  {
  }

  lemma DoubleZero()
    ensures Double(0) == 0
  {
  }

  lemma {:induction false} UpXor(a: bv32, b: bv32, n: nat)
    ensures Up(Xor(a, b), n) == Xor(Up(a, n), Up(b, n))
    decreases n
  {
    hide Xor, Double;
    if n > 0 {
      DoubleXor(a, b);
      UpXor(Double(a), Double(b), n - 1);
    }
  }

  lemma {:induction false} UpZero(n: nat)
    ensures Up(0, n) == 0
  {
    hide Double;
    if n > 0 {
      DoubleZero();
      UpZero(n - 1);
    }
  }

  lemma {:induction false} UpLast(c: bv32, n: nat)
    ensures Up(c, n + 1) == Double(Up(c, n))
    decreases n
  {
    hide Double;
    if n > 0 {
      UpLast(Double(c), n - 1);
    }
  }

  lemma {:induction false} UnitUp(n: nat)
    ensures Up(1, n) == Unit(n)
  {
    hide Double;
    if n > 0 {
      UnitUp(n - 1);
      UpLast(1, n - 1);
    }
  }

  lemma HighAndLow(c: bv32)
    ensures c == Xor(Row(1, Odd(c)), Double(Half(c)))
  {
  }

  /** 1 << k, 1 << k+1, and so on. */
  function UnitsFrom(k: nat, m: nat): (r: seq<bv32>)
    ensures |r| == m
  {
    seq(m, i requires 0 <= i < m => Unit(k + i))
  }

  lemma {:induction false} UpRow(k: nat, on: bool)
    ensures Up(Row(1, on), k) == Row(Unit(k), on)
  {
    hide Up, Unit;
    UnitUp(k);
    UpZero(k);
  }

  lemma {:induction false} UnitsTimes(k: nat, m: nat, v: bv32)
    requires Down(v, m) == 0
    ensures Times(UnitsFrom(k, m), v) == Up(v, k)
    decreases m
  {
    hide Xor, Half, Odd, Row, Double, Unit;
    if m == 0 {
      UpZero(k);
    } else {
      assert UnitsFrom(k, m)[1..] == UnitsFrom(k + 1, m - 1);
      UnitsTimes(k + 1, m - 1, Half(v));
      HighAndLow(v);
      UpXor(Row(1, Odd(v)), Double(Half(v)), k);
      UpRow(k, Odd(v));
    }
  }

  /** The matrix that crc32_combine_ starts from. */
  function ZeroMatrix(): (r: seq<bv32>)
    ensures |r| == GF2_DIM
  {
    [POLY] + UnitsFrom(0, 31)
  }

  lemma {:induction false} ZeroMatrixTimes(v: bv32)
    ensures Times(ZeroMatrix(), v) == ZeroBit(v)
  {
    hide Xor, Half, Odd, ZeroBit, UnitsFrom, Down;
    assert ZeroMatrix()[1..] == UnitsFrom(0, 31) && ZeroMatrix()[0] == POLY;
    AllOut(v);
    NextDown(v, 32);
    UnitsTimes(0, 31, Half(v));
    ZeroBitIs(v);
    XorZero(Half(v));
  }

  lemma NextDown(c: bv32, n: nat)
    requires n > 0
    ensures Down(c, n) == Down(Half(c), n - 1)
  {
  }

  // ------------------------------------------------- the operator of many

  /** Multiplying by `mat` shifts in `n` zero bits. */
  ghost predicate Operator(mat: seq<bv32>, n: nat) {
    forall v: bv32 :: Times(mat, v) == Zeros(v, n)
  }

  lemma FirstOperator()
    ensures Operator(ZeroMatrix(), 1)
  {
    hide Times, ZeroMatrix, ZeroBit;
    forall v: bv32 ensures Times(ZeroMatrix(), v) == Zeros(v, 1) {
      ZeroMatrixTimes(v);
      assert Zeros(v, 1) == Zeros(ZeroBit(v), 0);
    }
  }

  lemma SquareDoubles(mat: seq<bv32>, n: nat)
    requires Operator(mat, n)
    ensures Operator(Product(mat, mat), 2 * n)
  {
    hide Times, Product, Zeros;
    forall v: bv32 ensures Times(Product(mat, mat), v) == Zeros(v, 2 * n) {
      ProductComposes(mat, mat, v);
      ZerosAdd(v, n, n);
    }
  }

  // ------------------------------------------------- the code

  method MatrixTimes(mat: array<bv32>, vec: bv32) returns (sum: bv32)
    requires mat.Length == GF2_DIM
    ensures sum == Times(mat[..], vec)
  {
    hide Xor, Half, Odd, Row, Times, Down;
    sum := 0;
    var v, i := vec, 0;
    AllOut(vec);
    assert mat[..] == mat[0..];
    XorZero(Times(mat[..], vec));
    while v != 0
      invariant i <= GF2_DIM && Down(v, GF2_DIM - i) == 0
      invariant Xor(sum, Times(mat[i..], v)) == Times(mat[..], vec)
      decreases GF2_DIM - i
    {
      NoDown(v, GF2_DIM - i);
      NextDown(v, GF2_DIM - i);
      NextRow(mat[i..], v);
      assert mat[i..][0] == mat[i] && mat[i..][1..] == mat[i + 1..];
      XorAssociative(sum, Row(mat[i], Odd(v)), Times(mat[i + 1..], Half(v)));
      sum := AddRow(sum, mat[i], v);
      v := Half(v);
      i := i + 1;
    }
    TimesZero(mat[i..]);
    XorZero(sum);
  }

  lemma {:induction false} NoDown(c: bv32, n: nat)
    requires c != 0 && Down(c, n) == 0
    ensures n > 0
  {
  }

  lemma {:induction false} NextRow(mat: seq<bv32>, v: bv32)
    requires mat != []
    ensures Times(mat, v) == Xor(Row(mat[0], Odd(v)), Times(mat[1..], Half(v)))
  {
  }

  method AddRow(sum: bv32, m: bv32, v: bv32) returns (r: bv32)
    ensures r == Xor(sum, Row(m, Odd(v)))
  {
    hide Xor;
    XorZero(sum);
    r := sum;
    if v & 1 != 0 {
      r := Xor(sum, m);
    }
  }

  method MatrixSquare(square: array<bv32>, mat: array<bv32>)
    requires square.Length == GF2_DIM && mat.Length == GF2_DIM && square != mat
    modifies square
    ensures square[..] == Product(mat[..], mat[..])
  {
    hide Times;
    for n := 0 to GF2_DIM
      invariant forall i :: 0 <= i < n ==> square[i] == Times(mat[..], mat[i])
    {
      square[n] := MatrixTimes(mat, mat[n]);
    }
  }

  /** What crc32_combine_ computes. */
  function Combined(crc1: bv32, crc2: bv32, len2: int): bv32 {
    if len2 <= 0 then crc1 else Xor(Zeros(crc1, 8 * len2), crc2)
  }

  method FirstMatrix(odd: array<bv32>)
    requires odd.Length == GF2_DIM
    modifies odd
    ensures odd[..] == ZeroMatrix()
  {
    hide Double;
    odd[0] := POLY;
    var row: bv32 := 1;
    for n := 1 to GF2_DIM
      invariant row == Unit(n - 1)
      invariant odd[0] == POLY && forall i :: 1 <= i < n ==> odd[i] == Unit(i - 1)
    {
      odd[n] := row;
      row := Double(row);
    }
  }

  lemma HalfLength(c: bv32, m: nat, len: nat)
    ensures Zeros(if len % 2 == 1 then Zeros(c, m) else c, 2 * m * (len / 2)) == Zeros(c, m * len)
  {
    hide Zeros;
    var h := len / 2;
    if len % 2 == 1 {
      assert m * len == m * (2 * h) + m && m * (2 * h) == 2 * m * h;
      ZerosAdd(c, m, 2 * m * h);
    } else {
      assert m * len == m * (2 * h) && m * (2 * h) == 2 * m * h;
    }
  }

  /** One half of the loop: square the operator, and apply it if the bit of the length is set. */
  method HalfTurn(square: array<bv32>, mat: array<bv32>, ghost p: nat, c: bv32, len: nat) returns (d: bv32)
    requires square.Length == GF2_DIM && mat.Length == GF2_DIM && square != mat && Operator(mat[..], p)
    modifies square
    ensures Operator(square[..], 2 * p) && Zeros(d, 2 * (2 * p) * (len / 2)) == Zeros(c, 2 * p * len)
  {
    hide Times, Zeros, Product;
    MatrixSquare(square, mat);
    SquareDoubles(mat[..], p);
    HalfLength(c, 2 * p, len);
    d := c;
    if len % 2 == 1 {
      d := MatrixTimes(square, c);
    }
  }

  method Combine(crc1: bv32, crc2: bv32, len2: int) returns (crc: bv32)
    ensures crc == Combined(crc1, crc2, len2)
  {
    hide Zeros, Operator, Product, Xor;
    if len2 <= 0 {
      return crc1;
    }
    var even := new bv32[GF2_DIM];
    var odd := new bv32[GF2_DIM];
    FirstMatrix(odd);
    FirstOperator();
    MatrixSquare(even, odd);
    SquareDoubles(odd[..], 1);
    MatrixSquare(odd, even);
    SquareDoubles(even[..], 2);
    var c, len := crc1, len2;
    ghost var p: nat := 4;
    while len != 0
      invariant len >= 0 && Operator(odd[..], p) && Zeros(c, 2 * p * len) == Zeros(crc1, 8 * len2)
      decreases len
    {
      c := HalfTurn(even, odd, p, c, len);
      p := 2 * p;
      len := len / 2;
      if len == 0 {
        break;
      }
      c := HalfTurn(odd, even, p, c, len);
      p := 2 * p;
      len := len / 2;
    }
    assert 2 * p * len == 0;
    NoZeros(c);
    crc := Xor(c, crc2);
  }

  // ------------------------------------------------- what it is for

  lemma {:induction false} RegisterConcat(c: bv32, a: seq<bv8>, b: seq<bv8>)
    ensures Register(c, a + b) == Register(Register(c, a), b)
    decreases |b|
  {
    hide Update;
    if b == [] {
      assert a + b == a;
    } else {
      var ab := a + b;
      assert ab[..|ab| - 1] == a + b[..|b| - 1] && ab[|ab| - 1] == b[|b| - 1];
      RegisterConcat(c, a, b[..|b| - 1]);
    }
  }

  /** The check of a text can be continued: the value returned is all that is needed of what came before. */
  lemma CrcContinues(crc: bv32, a: seq<bv8>, b: seq<bv8>)
    ensures Crc(crc, a + b) == Crc(Crc(crc, a), b)
  {
    hide Register, Flip;
    RegisterConcat(Flip(crc), a, b);
    FlipTwice(Register(Flip(crc), a));
  }

  lemma FlipTwice(c: bv32)
    ensures Flip(Flip(c)) == c && Flip(c) == Xor(c, 0xffffffff)
  {
  }

  /** What the register held before a text only adds its own zeros. */
  lemma {:induction false} RegisterAffine(c: bv32, d: bv32, s: seq<bv8>)
    ensures Register(Xor(c, d), s) == Xor(Zeros(c, 8 * |s|), Register(d, s))
  {
    hide Zeros, Xor, Wide;
    if s == [] {
      NoZeros(c);
    } else {
      var n := |s| - 1;
      RegisterAffine(c, d, s[..n]);
      var z, r, w := Zeros(c, 8 * n), Register(d, s[..n]), Wide(s[n]);
      XorAssociative(z, r, w);
      ZerosLinear(z, Xor(r, w), 8);
      ZerosAdd(c, 8 * n, 8);
    }
  }

  /** The checks of two texts and the length of the second give the check of the whole. */
  lemma CombineLaw(crc: bv32, a: seq<bv8>, b: seq<bv8>)
    ensures Combined(Crc(crc, a), Crc(0, b), |b|) == Crc(crc, a + b)
  {
    hide Register, Flip, Xor, Zeros;
    var r := Register(Flip(crc), a);
    RegisterConcat(Flip(crc), a, b);
    if b == [] {
      assert a + b == a;
    } else {
      var ones := Flip(0);
      FlipTwice(0);
      FlipTwice(r);
      XorZero(ones);
      XorZero(0xffffffff);
      // The register before `b` is that of a check of zero with the check of `a` added.
      RegisterAffine(Flip(r), ones, b);
      XorAssociative(r, ones, ones);
      XorZero(r);
      FlipTwice(Register(ones, b));
      FlipTwice(Register(r, b));
      XorAssociative(Zeros(Flip(r), 8 * |b|), Register(ones, b), 0xffffffff);
    }
  }
}
