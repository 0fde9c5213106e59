/**
 Shifts, masks and bit strings.  Bit strings are in the order in which deflate
 puts them on the wire: the least significant bit of a value first (RFC 1951,
 section 3.1.1).  `Shl(v, n)`, `Shr(v, n)` and `Low(v, n)` are the C expressions
 `v << n`, `v >> n` and `v & ((1 << n) - 1)` on unbounded naturals.
 */
module Bits {

  type Byte = b: nat | b < 256

  function Pow2(n: nat): (p: nat)
    ensures p >= 1
  {
    if n == 0 then 1 else 2 * Pow2(n - 1)
  }

  function Shl(v: nat, n: nat): nat {
    if n == 0 then v else 2 * Shl(v, n - 1)
  }

  function Shr(v: nat, n: nat): nat {
    if n == 0 then v else Shr(v / 2, n - 1)
  }

  function Low(v: nat, n: nat): (r: nat)
    ensures r < Pow2(n)
  {
    if n == 0 then 0 else v % 2 + 2 * Low(v / 2, n - 1)
  }

  /** The low `n` bits of `v`, least significant bit first. */
  function BitsOf(v: nat, n: nat): (s: seq<bool>)
    ensures |s| == n
  {
    if n == 0 then [] else [v % 2 == 1] + BitsOf(v / 2, n - 1)
  }

  /** The number whose binary digits are `s`, least significant bit first. */
  function Val(s: seq<bool>): nat
  {
    if s == [] then 0 else (if s[0] then 1 else 0) + 2 * Val(s[1..])
  }

  /** The bit stream carried by a sequence of bytes. */
  function StreamOf(bytes: seq<Byte>): (s: seq<bool>)
    ensures |s| == 8 * |bytes|
  {
    if bytes == [] then [] else BitsOf(bytes[0], 8) + StreamOf(bytes[1..])
  }

  // ---------------------------------------------------------------- powers

  lemma {:induction false} Pow2Mono(a: nat, b: nat)
    requires a <= b
    ensures Pow2(a) <= Pow2(b)
    ensures a < b ==> 2 * Pow2(a) <= Pow2(b)
    decreases b
  {
    if a < b {
      Pow2Mono(a, b - 1);
    }
  }

  lemma Pow2Small()
    ensures Pow2(0) == 1 && Pow2(1) == 2 && Pow2(2) == 4 && Pow2(3) == 8 && Pow2(4) == 16
    ensures Pow2(5) == 32 && Pow2(6) == 64 && Pow2(7) == 128 && Pow2(8) == 256 && Pow2(9) == 512
    ensures Pow2(10) == 1024 && Pow2(11) == 2048 && Pow2(12) == 4096
    ensures Pow2(13) == 8192 && Pow2(14) == 16384 && Pow2(15) == 32768 && Pow2(16) == 65536
  {
    assert Pow2(3) == 8;
    assert Pow2(6) == 64;
    assert Pow2(9) == 512;
    assert Pow2(12) == 4096;
  }

  lemma {:induction false} Pow2Shl(a: nat, b: nat)
    ensures Pow2(a + b) == Shl(Pow2(a), b)
  {
    if b > 0 {
      Pow2Shl(a, b - 1);
    }
  }

  // ------------------------------------------------------ shifts and masks

  lemma {:induction false} ShlAdd(v: nat, w: nat, n: nat)
    ensures Shl(v + w, n) == Shl(v, n) + Shl(w, n)
  {
    if n > 0 {
      ShlAdd(v, w, n - 1);
    }
  }

  lemma {:induction false} ShlShl(v: nat, a: nat, b: nat)
    ensures Shl(Shl(v, a), b) == Shl(v, a + b)
  {
    if b > 0 {
      ShlShl(v, a, b - 1);
    }
  }

  lemma {:induction false} ShlZero(n: nat)
    ensures Shl(0, n) == 0
  {
    if n > 0 {
      ShlZero(n - 1);
    }
  }

  lemma {:induction false} ShlMono(v: nat, w: nat, n: nat)
    requires v <= w
    ensures Shl(v, n) <= Shl(w, n)
  {
    if n > 0 {
      ShlMono(v, w, n - 1);
    }
  }

  lemma {:induction false} ShrMono(v: nat, w: nat, n: nat)
    requires v <= w
    ensures Shr(v, n) <= Shr(w, n)
  {
    if n > 0 {
      ShrMono(v / 2, w / 2, n - 1);
    }
  }

  lemma {:induction false} CutBits(v: nat, a: nat)
    ensures v == Low(v, a) + Shl(Shr(v, a), a)
  {
    if a > 0 {
      CutBits(v / 2, a - 1);
    }
  }

  lemma {:induction false} ShlIsMul(v: nat, n: nat)
    ensures Shl(v, n) == v * Pow2(n)
  {
    if n > 0 {
      ShlIsMul(v, n - 1);
      assert Shl(v, n) == 2 * (v * Pow2(n - 1)) == v * (2 * Pow2(n - 1));
    }
  }

  lemma DivModUnique(v: int, m: int, q: int, r: int)
    requires m > 0 && v == q * m + r && 0 <= r < m
    ensures v / m == q && v % m == r
  {
    var d := v / m - q;
    assert v == (v / m) * m + v % m;
    assert d * m == r - v % m;
    assert d >= 1 ==> d * m >= m;
    assert d <= -1 ==> d * m <= -m;
  }

  /** `low` below bit `a` and `high` above it, put together and taken apart. */
  lemma {:induction false} JoinBits(low: nat, a: nat, high: nat)
    requires low < Pow2(a)
    ensures Low(low + Shl(high, a), a) == low
    ensures Shr(low + Shl(high, a), a) == high
  {
    if a > 0 {
      JoinBits(low / 2, a - 1, high);
      assert (low + Shl(high, a)) / 2 == low / 2 + Shl(high, a - 1);
    }
  }

  /** Splitting a value at bit `a`, inside its low `a + b` bits. */
  lemma {:induction false} SplitBits(v: nat, a: nat, b: nat)
    ensures Shr(v, a + b) == Shr(Shr(v, a), b)
    ensures Shr(Low(v, a + b), a) == Low(Shr(v, a), b)
    ensures Low(Low(v, a + b), a) == Low(v, a)
    ensures Low(v, a + b) == Low(v, a) + Shl(Low(Shr(v, a), b), a)
  {
    if a > 0 {
      SplitBits(v / 2, a - 1, b);
      var w := Low(v, a + b);
      assert w % 2 == v % 2 && w / 2 == Low(v / 2, a - 1 + b);
    }
  }

  lemma {:induction false} LowSmall(v: nat, n: nat)
    requires v < Pow2(n)
    ensures Low(v, n) == v && Shr(v, n) == 0
  {
    if n > 0 {
      LowSmall(v / 2, n - 1);
    }
  }

  lemma {:induction false} ShrBound(v: nat, a: nat, b: nat)
    requires v < Pow2(a + b)
    ensures Shr(v, a) < Pow2(b)
  {
    if a > 0 {
      ShrBound(v / 2, a - 1, b);
    }
  }

  lemma {:induction false} ShlBound(v: nat, a: nat, b: nat)
    requires v < Pow2(b)
    ensures Shl(v, a) < Pow2(a + b) && Shl(v, a) + Pow2(a) <= Pow2(a + b)
  {
    if a > 0 {
      ShlBound(v, a - 1, b);
    }
  }

  lemma {:induction false} ShrShl(v: nat, n: nat)
    ensures Shr(Shl(v, n), n) == v && Low(Shl(v, n), n) == 0
  {
    JoinBits(0, n, v);
  }

  // ----------------------------------------------------- strings and values

  lemma {:induction false} ValBound(s: seq<bool>)
    ensures Val(s) < Pow2(|s|)
  {
    if s != [] {
      ValBound(s[1..]);
    }
  }

  lemma {:induction false} ValConcat(a: seq<bool>, b: seq<bool>)
    ensures Val(a + b) == Val(a) + Shl(Val(b), |a|)
  {
    if a == [] {
      assert a + b == b;
    } else {
      ValConcat(a[1..], b);
      assert (a + b)[1..] == a[1..] + b;
    }
  }

  lemma {:induction false} ValBitsOf(v: nat, n: nat)
    ensures Val(BitsOf(v, n)) == Low(v, n)
  {
    if n > 0 {
      ValBitsOf(v / 2, n - 1);
      assert BitsOf(v, n)[1..] == BitsOf(v / 2, n - 1);
    }
  }

  lemma {:induction false} BitsOfVal(s: seq<bool>)
    ensures BitsOf(Val(s), |s|) == s
  {
    if s != [] {
      BitsOfVal(s[1..]);
      assert Val(s) / 2 == Val(s[1..]);
    }
  }

  lemma {:induction false} ValSplit(s: seq<bool>, n: nat)
    requires n <= |s|
    ensures Val(s[..n]) == Low(Val(s), n)
    ensures Val(s[n..]) == Shr(Val(s), n)
  {
    assert s == s[..n] + s[n..];
    ValConcat(s[..n], s[n..]);
    ValBound(s[..n]);
    JoinBits(Val(s[..n]), n, Val(s[n..]));
  }

  lemma {:induction false} BitsOfSplit(v: nat, a: nat, b: nat)
    ensures BitsOf(v, a + b) == BitsOf(v, a) + BitsOf(Shr(v, a), b)
  {
    if a > 0 {
      BitsOfSplit(v / 2, a - 1, b);
      assert BitsOf(v, a + b) == [v % 2 == 1] + BitsOf(v / 2, a - 1 + b);
    }
  }

  lemma {:induction false} BitsOfLow(v: nat, n: nat)
    ensures BitsOf(Low(v, n), n) == BitsOf(v, n)
  {
    ValBitsOf(v, n);
    BitsOfVal(BitsOf(v, n));
  }

  lemma {:induction false} StreamConcat(a: seq<Byte>, b: seq<Byte>)
    ensures StreamOf(a + b) == StreamOf(a) + StreamOf(b)
  {
    hide BitsOf;
    if a == [] {
      assert a + b == b;
    } else {
      StreamConcat(a[1..], b);
      assert (a + b)[0] == a[0] && (a + b)[1..] == a[1..] + b;
      assert BitsOf(a[0], 8) + (StreamOf(a[1..]) + StreamOf(b)) == (BitsOf(a[0], 8) + StreamOf(a[1..])) + StreamOf(b);
    }
  }

  lemma {:induction false} StreamSnoc(a: seq<Byte>, b: Byte)
    ensures StreamOf(a + [b]) == StreamOf(a) + BitsOf(b, 8)
  {
    hide BitsOf;
    StreamConcat(a, [b]);
    assert StreamOf([b]) == BitsOf(b, 8) + StreamOf([]);
  }
}
