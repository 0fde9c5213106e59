/**
 Canonical Huffman codes as RFC 1951, section 3.2.2, defines them from the code
 lengths, and the encoder's way of assigning them (src/zlib/trees.c).  `lens[s]`
 is the code length of symbol `s`, zero when `s` has no code.
 */
module Canonical {
  import opened Bits

  const MAX_BITS := 15

  ghost predicate ValidLens(lens: seq<nat>) {
    forall s :: 0 <= s < |lens| ==> lens[s] <= MAX_BITS
  }

  /** How many symbols have code length `b`. */
  function Count(lens: seq<nat>, b: nat): (c: nat)
    ensures c <= |lens|
  {
    if lens == [] then 0
    else Count(lens[..|lens| - 1], b) + (if lens[|lens| - 1] == b then 1 else 0)
  }

  /** The first code of length `b`: step 2 of the RFC's algorithm. */
  function FirstCode(lens: seq<nat>, b: nat): nat {
    if b == 0 then 0
    else 2 * (FirstCode(lens, b - 1) + (if b == 1 then 0 else Count(lens, b - 1)))
  }

  /** One past the last code of length `b`. */
  function EndCode(lens: seq<nat>, b: nat): nat {
    FirstCode(lens, b) + Count(lens, b)
  }

  /** The code of symbol `s` as a number: step 3 of the RFC's algorithm. */
  function CodeOf(lens: seq<nat>, s: nat): nat
    requires s < |lens|
  {
    FirstCode(lens, lens[s]) + Count(lens[..s], lens[s])
  }

  /** Not over-subscribed: the codes of every length fit in that length. */
  ghost predicate NotOver(lens: seq<nat>) {
    forall b {:trigger EndCode(lens, b)} :: 1 <= b <= MAX_BITS ==> EndCode(lens, b) <= Pow2(b)
  }

  /** Every bit string starts with a code. */
  ghost predicate Complete(lens: seq<nat>) {
    NotOver(lens) && EndCode(lens, MAX_BITS) == Pow2(MAX_BITS)
  }

  /** The low `n` bits of `v` in the opposite order. */
  function Rev(v: nat, n: nat): nat {
    if n == 0 then 0 else Shl(v % 2, n - 1) + Rev(v / 2, n - 1)
  }

  /** The code of `s` as it stands in the bit stream: first bit least significant. */
  function Huff(lens: seq<nat>, s: nat): nat
    requires s < |lens|
  {
    Rev(CodeOf(lens, s), lens[s])
  }

  /** The bits of `hold` begin with the code of `s`. */
  predicate Matches(lens: seq<nat>, s: nat, hold: nat) {
    s < |lens| && lens[s] > 0 && Low(hold, lens[s]) == Huff(lens, s)
  }

  // ------------------------------------------------------------- reversal

  lemma {:induction false} RevBound(v: nat, n: nat)
    ensures Rev(v, n) < Pow2(n)
  {
    if n > 0 {
      RevBound(v / 2, n - 1);
      ShlBound(v % 2, n - 1, 1);
    }
  }

  lemma {:induction false} RevSplit(v: nat, a: nat, b: nat)
    ensures Rev(v, a + b) == Rev(Shr(v, a), b) + Shl(Rev(v, a), b)
  {
    if a == 0 {
      ShlZero(b);
    } else {
      RevSplit(v / 2, a - 1, b);
      ShlShl(v % 2, a - 1, b);
      ShlAdd(Shl(v % 2, a - 1), Rev(v / 2, a - 1), b);
    }
  }

  /** The first `l` bits of a code, and the bits after them. */
  lemma {:induction false} RevPrefix(c: nat, n: nat, l: nat)
    requires l <= n
    ensures Low(Rev(c, n), l) == Rev(Shr(c, n - l), l)
    ensures Shr(Rev(c, n), l) == Rev(c, n - l)
  {
    RevSplit(c, n - l, l);
    RevBound(Shr(c, n - l), l);
    JoinBits(Rev(Shr(c, n - l), l), l, Rev(c, n - l));
  }

  lemma {:induction false} RevLow(v: nat, n: nat)
    ensures Rev(Low(v, n), n) == Rev(v, n)
  {
    if n > 0 {
      RevLow(v / 2, n - 1);
    }
  }

  lemma {:induction false} RevRev(v: nat, n: nat)
    ensures Rev(Rev(v, n), n) == Low(v, n)
  {
    if n > 0 {
      RevRev(v / 2, n - 1);
      RevRevStep(v, n);
    }
  }

  lemma RevRevStep(v: nat, n: nat)
    requires n > 0
    ensures Rev(Rev(v, n), n) == v % 2 + 2 * Rev(Rev(v / 2, n - 1), n - 1)
  {
    hide Shr, Low;
    var bit, rest := v % 2, Rev(v / 2, n - 1);
    var r := Rev(v, n);
    RevBound(v / 2, n - 1);
    JoinBits(rest, n - 1, bit);
    RevSplit(r, n - 1, 1);
    RevLow(r, n - 1);
    RevOne(bit);
  }

  lemma {:induction false} RevOne(bit: nat)
    requires bit < 2
    ensures Rev(bit, 1) == bit && forall x: nat :: Shl(x, 1) == 2 * x
  {
  }

  lemma {:induction false} RevInjective(a: nat, b: nat, n: nat)
    requires a < Pow2(n) && b < Pow2(n) && Rev(a, n) == Rev(b, n)
    ensures a == b
  {
    RevRev(a, n);
    RevRev(b, n);
    LowSmall(a, n);
    LowSmall(b, n);
  }

  // ------------------------------------------------- counting and ordering

  lemma {:induction false} CountPrefix(lens: seq<nat>, b: nat, i: nat)
    requires i < |lens|
    ensures Count(lens[..i + 1], b) == Count(lens[..i], b) + (if lens[i] == b then 1 else 0)
  {
    assert lens[..i + 1][..i] == lens[..i];
  }

  lemma {:induction false} CountMono(lens: seq<nat>, b: nat, i: nat, j: nat)
    requires i <= j <= |lens|
    ensures Count(lens[..i], b) <= Count(lens[..j], b)
    ensures i < j && lens[i] == b ==> Count(lens[..i], b) < Count(lens[..j], b)
    decreases j
  {
    if i < j {
      CountPrefix(lens, b, j - 1);
      CountMono(lens, b, i, j - 1);
    }
  }

  lemma {:induction false} CountAbsent(lens: seq<nat>, b: nat)
    requires forall i :: 0 <= i < |lens| ==> lens[i] != b
    ensures Count(lens, b) == 0
  {
    if lens != [] {
      CountAbsent(lens[..|lens| - 1], b);
    }
  }

  lemma {:induction false} CodeInRange(lens: seq<nat>, s: nat)
    requires s < |lens|
    ensures FirstCode(lens, lens[s]) <= CodeOf(lens, s) < EndCode(lens, lens[s])
  {
    CountMono(lens, lens[s], s, |lens|);
    assert lens[..|lens|] == lens;
  }

  /** The symbol that holds the `i`-th code of length `b`. */
  lemma {:induction false} SymbolAt(lens: seq<nat>, b: nat, i: nat) returns (s: nat)
    requires i < Count(lens, b)
    ensures s < |lens| && lens[s] == b && Count(lens[..s], b) == i
  {
    var last := |lens| - 1;
    if lens[last] == b && i == Count(lens[..last], b) {
      s := last;
    } else {
      s := SymbolAt(lens[..last], b, i);
      assert lens[..last][..s] == lens[..s];
    }
  }

  lemma {:induction false} FirstCodeGrows(lens: seq<nat>, b: nat, b': nat)
    requires 1 <= b < b'
    ensures FirstCode(lens, b') >= Shl(EndCode(lens, b), b' - b)
    decreases b'
  {
    if b < b' - 1 {
      FirstCodeGrows(lens, b, b' - 1);
    }
  }

  /** Lengths without codes only append zeros. */
  lemma {:induction false} EndCodeGap(lens: seq<nat>, b: nat, b': nat)
    requires 1 <= b <= b'
    requires forall l :: b < l <= b' ==> Count(lens, l) == 0
    ensures EndCode(lens, b') == Shl(EndCode(lens, b), b' - b)
    decreases b'
  {
    if b < b' {
      EndCodeGap(lens, b, b' - 1);
    }
  }

  /** Codes in canonical order: the later one leaves the interval of the earlier one. */
  lemma CodesOrdered(lens: seq<nat>, s: nat, t: nat)
    requires s < |lens| && t < |lens| && 1 <= lens[s]
    requires lens[s] < lens[t] || (lens[s] == lens[t] && s < t)
    ensures Shr(CodeOf(lens, t), lens[t] - lens[s]) > CodeOf(lens, s)
  {
    CodeInRange(lens, s);
    CodeInRange(lens, t);
    var d := lens[t] - lens[s];
    if d == 0 {
      CountMono(lens, lens[s], s, t);
    } else {
      FirstCodeGrows(lens, lens[s], lens[t]);
      ShrMono(Shl(EndCode(lens, lens[s]), d), CodeOf(lens, t), d);
      ShrShl(EndCode(lens, lens[s]), d);
    }
  }

  // ------------------------------------------------------------ main facts

  lemma CodeFits(lens: seq<nat>, s: nat)
    requires ValidLens(lens) && NotOver(lens) && s < |lens| && lens[s] > 0
    ensures CodeOf(lens, s) < Pow2(lens[s]) && Huff(lens, s) < Pow2(lens[s])
  {
    CodeInRange(lens, s);
    RevBound(CodeOf(lens, s), lens[s]);
  }

  /** Prefix freedom, earlier code against later code. */
  lemma PrefixFreeOrdered(lens: seq<nat>, s: nat, t: nat)
    requires ValidLens(lens) && NotOver(lens) && s < |lens| && t < |lens| && 1 <= lens[s]
    requires lens[s] < lens[t] || (lens[s] == lens[t] && s < t)
    ensures Low(Huff(lens, t), lens[s]) != Huff(lens, s)
  {
    hide Count, FirstCode, Rev, Low, Shr;
    CodeFits(lens, s);
    CodeFits(lens, t);
    CodesOrdered(lens, s, t);
    RevPrefix(CodeOf(lens, t), lens[t], lens[s]);
    ShrBound(CodeOf(lens, t), lens[t] - lens[s], lens[s]);
    if Low(Huff(lens, t), lens[s]) == Huff(lens, s) {
      RevInjective(CodeOf(lens, s), Shr(CodeOf(lens, t), lens[t] - lens[s]), lens[s]);
    }
  }

  /** No bit string begins with two codes. */
  lemma MatchUnique(lens: seq<nat>, s: nat, t: nat, hold: nat)
    requires ValidLens(lens) && NotOver(lens)
    requires Matches(lens, s, hold) && Matches(lens, t, hold)
    ensures s == t
  {
    if s != t {
      var (a, b) := if lens[s] < lens[t] || (lens[s] == lens[t] && s < t) then (s, t) else (t, s);
      SplitBits(hold, lens[a], lens[b] - lens[a]);
      PrefixFreeOrdered(lens, a, b);
    }
  }

  /** The length at which the position `p` among the `n`-bit strings is decided. */
  lemma {:induction false} FindLength(lens: seq<nat>, p: nat, n: nat, b: nat) returns (len: nat)
    requires 1 <= b <= n && Shr(p, n - b) < EndCode(lens, b)
    ensures 1 <= len <= b
    ensures FirstCode(lens, len) <= Shr(p, n - len) < EndCode(lens, len)
  {
    if Shr(p, n - b) >= FirstCode(lens, b) {
      len := b;
    } else {
      assert FirstCode(lens, 0) == 0;
      assert b > 1;
      SplitBits(p, n - b, 1);
      len := FindLength(lens, p, n, b - 1);
    }
  }

  lemma MatchFound(lens: seq<nat>, hold: nat, n: nat) returns (s: nat)
    requires n >= 1 && EndCode(lens, n) == Pow2(n)
    ensures Matches(lens, s, hold)
  {
    var p := Rev(hold, n);
    RevBound(hold, n);
    var len := FindLength(lens, p, n, n);
    s := SymbolAt(lens, len, Shr(p, n - len) - FirstCode(lens, len));
    assert Low(hold, len) == Rev(Shr(p, n - len), len) by {
      RevRev(hold, n);
      RevPrefix(p, n, len);
      SplitBits(hold, len, n - len);
    }
  }

  /** Every bit string begins with some code of a complete set. */
  lemma MatchExists(lens: seq<nat>, hold: nat) returns (s: nat)
    requires Complete(lens)
    ensures Matches(lens, s, hold)
  {
    s := MatchFound(lens, hold, MAX_BITS);
  }
}
