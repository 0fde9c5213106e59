/**
 The dictionary of src/zlib/deflate.c: the rolling hash (UPDATE_HASH), the hash chains
 stored modulo the window size (INSERT_STRING) and their sliding (slide_hash).
 */
module HashChains {
  import opened Bits

  const MIN_MATCH := 3
  const MAX_MATCH := 258
  const MIN_LOOKAHEAD := MAX_MATCH + MIN_MATCH + 1

  /** Window size, and number of bits of the hash. */
  datatype Params = Params(wsize: nat, hashBits: nat) {
    predicate Valid() {
      512 <= wsize <= 32768 && 8 <= hashBits <= 16
    }

    function Shift(): nat {
      (hashBits + MIN_MATCH - 1) / MIN_MATCH
    }

    function MaxDist(): nat
      requires Valid()
    {
      wsize - MIN_LOOKAHEAD
    }
  }

  // ------------------------------------------------- the hash

  /** Exclusive or of two numbers, bit by bit. */
  function Xor(a: nat, b: nat): nat
    decreases a + b
  {
    if a == 0 then b else if b == 0 then a
    else (if a % 2 == b % 2 then 0 else 1) + 2 * Xor(a / 2, b / 2)
  }

  lemma {:induction false} XorZero(a: nat)
    ensures Xor(0, a) == a && Xor(a, 0) == a
  {
  }

  lemma {:induction false} XorBoth(a: nat, b: nat)
    requires a > 0 && b > 0
    ensures Xor(a, b) == (if a % 2 == b % 2 then 0 else 1) + 2 * Xor(a / 2, b / 2)
  {
  }

  lemma Twice(bit: nat, x: nat)
    requires bit < 2
    ensures (bit + 2 * x) % 2 == bit && (bit + 2 * x) / 2 == x
  {
  }

  lemma {:induction false} XorStep(a: nat, b: nat)
    ensures Xor(a, b) % 2 == (if a % 2 == b % 2 then 0 else 1) && Xor(a, b) / 2 == Xor(a / 2, b / 2)
  {
    hide Xor;
    if a == 0 {
      XorZero(b);
      XorZero(b / 2);
    } else if b == 0 {
      XorZero(a);
      XorZero(a / 2);
    } else {
      XorBoth(a, b);
      Twice(if a % 2 == b % 2 then 0 else 1, Xor(a / 2, b / 2));
    }
  }

  lemma {:induction false} LowXor(a: nat, b: nat, n: nat)
    ensures Low(Xor(a, b), n) == Xor(Low(a, n), Low(b, n))
  {
    hide Xor;
    if n == 0 {
      assert Xor(0, 0) == 0 by { XorZero(0); }
    } else {
      XorStep(a, b);
      XorStep(Low(a, n), Low(b, n));
      LowXor(a / 2, b / 2, n - 1);
    }
  }

  lemma {:induction false} XorCancels(x: nat, c: nat, d: nat)
    requires Xor(x, c) == Xor(x, d)
    ensures c == d
    decreases x + c + d
  {
    XorStep(x, c);
    XorStep(x, d);
    if x != 0 {
      XorCancels(x / 2, c / 2, d / 2);
    }
  }

  /** The low bits of a shifted number come from the bits further down. */
  lemma {:induction false} LowShl(v: nat, s: nat, m: nat)
    ensures s <= m ==> Low(Shl(v, s), m) == Shl(Low(v, m - s), s)
    ensures m <= s ==> Low(Shl(v, s), m) == 0
  {
    if s > 0 && m > 0 {
      LowShl(v, s - 1, m - 1);
      assert Shl(v, s) % 2 == 0 && Shl(v, s) / 2 == Shl(v, s - 1);
    } else if m == 0 {
      ShlZero(s);
    }
  }

  lemma {:induction false} LowLow(v: nat, a: nat, b: nat)
    requires a <= b
    ensures Low(Low(v, b), a) == Low(v, a)
  {
    SplitBits(v, a, b - a);
    assert a + (b - a) == b;
  }

  /** The hash with one more byte. */
  function UpdateHash(p: Params, h: nat, c: nat): nat {
    Low(Xor(Shl(h, p.Shift()), c), p.hashBits)
  }

  function Hash(p: Params, a: nat, b: nat, c: nat): nat {
    UpdateHash(p, UpdateHash(p, a, b), c)
  }

  /** The low `m` bits of the new hash depend on only so much of the old one. */
  lemma {:induction false} LowUpdate(p: Params, h: nat, h': nat, c: nat, m: nat)
    requires m <= p.hashBits && (p.Shift() <= m ==> Low(h, m - p.Shift()) == Low(h', m - p.Shift()))
    ensures Low(UpdateHash(p, h, c), m) == Low(UpdateHash(p, h', c), m)
  {
    hide Low, Shl, Xor;
    var s := p.Shift();
    LowLow(Xor(Shl(h, s), c), m, p.hashBits);
    LowLow(Xor(Shl(h', s), c), m, p.hashBits);
    LowXor(Shl(h, s), c, m);
    LowXor(Shl(h', s), c, m);
    LowShl(h, s, m);
    LowShl(h', s, m);
  }

  /** The low bits of the new hash are those of the byte. */
  lemma {:induction false} LowIsByte(p: Params, h: nat, c: nat, m: nat)
    requires m <= p.Shift() && m <= p.hashBits
    ensures Low(UpdateHash(p, h, c), m) == Low(c, m)
  {
    hide Low, Shl, Xor;
    LowLow(Xor(Shl(h, p.Shift()), c), m, p.hashBits);
    LowXor(Shl(h, p.Shift()), c, m);
    LowShl(h, p.Shift(), m);
    XorZero(Low(c, m));
  }

  /** The byte three back has no influence: the shift is a third of the hash bits, rounded up. */
  lemma HashRolls(p: Params, a: nat, b: nat, c: nat, d: nat)
    requires p.Valid()
    ensures UpdateHash(p, Hash(p, a, b, c), d) == Hash(p, b, c, d)
  {
    hide UpdateHash, Low;
    var n, s, u := p.hashBits, p.Shift(), UpdateHash(p, a, b);
    LowIsByte(p, a, b, n - 2 * s);
    LowUpdate(p, u, b, c, n - s);
    LowUpdate(p, UpdateHash(p, u, c), UpdateHash(p, b, c), d, n);
    WholeHash(p, UpdateHash(p, u, c), d);
    WholeHash(p, UpdateHash(p, b, c), d);
  }

  lemma WholeHash(p: Params, h: nat, c: nat)
    ensures Low(UpdateHash(p, h, c), p.hashBits) == UpdateHash(p, h, c) < Pow2(p.hashBits)
  {
    LowLow(Xor(Shl(h, p.Shift()), c), p.hashBits, p.hashBits);
  }

  /** With the first two bytes equal, equal hashes have equal third bytes. */
  lemma HashThird(p: Params, a: nat, b: nat, c: nat, d: nat)
    requires p.Valid() && c < 256 && d < 256 && Hash(p, a, b, c) == Hash(p, a, b, d)
    ensures c == d
  {
    hide Xor, Shl, Low;
    var x, n := Shl(UpdateHash(p, a, b), p.Shift()), p.hashBits;
    LowXor(x, c, n);
    LowXor(x, d, n);
    XorCancels(Low(x, n), Low(c, n), Low(d, n));
    ByteFits(c, n);
    ByteFits(d, n);
    LowSmall(c, n);
    LowSmall(d, n);
  }

  lemma {:induction false} ByteFits(c: nat, n: nat)
    requires c < 256 && n >= 8
    ensures c < Pow2(n)
  {
    Pow2Small();
    Pow2Mono(8, n);
  }

  // ------------------------------------------------- chains

  /** The hash of the three bytes at `i`. */
  function HashAt(p: Params, window: seq<nat>, i: nat): nat
    requires i + 2 < |window|
  {
    Hash(p, window[i], window[i + 1], window[i + 2])
  }

  /** Position `i` has been inserted, and its string has hash `h`. */
  ghost predicate Hashed(p: Params, window: seq<nat>, ins: set<nat>, h: nat, i: nat) {
    i in ins && i + 2 < |window| && HashAt(p, window, i) == h
  }

  /** `j` is none, or an earlier position with hash `h`. */
  ghost predicate Earlier(p: Params, window: seq<nat>, ins: set<nat>, h: nat, before: nat, j: nat) {
    j == 0 || (j < before && Hashed(p, window, ins, h, j))
  }

  /** `j` is the last position before `before` with hash `h`, or none. */
  ghost predicate OnChain(p: Params, window: seq<nat>, ins: set<nat>, h: nat, before: nat, j: nat) {
    && Earlier(p, window, ins, h, before, j)
    && forall i :: j < i < before ==> !Hashed(p, window, ins, h, i)
  }

  /**
   The chains of the positions in `ins`, all of them below `next`: each head and each
   link that has not been overwritten leads to an earlier position with the same hash.
   Position `i` has its link in `prev[i % wsize]`.
   */
  ghost predicate Chains(p: Params, window: seq<nat>, head: seq<nat>, prev: seq<nat>, ins: set<nat>, next: nat,
                         end: nat) {
    && p.Valid() && |window| == 2 * p.wsize && |prev| == p.wsize && end <= |window|
    && (forall i :: i in ins ==> i < next && i + 3 <= end)
    && |head| == Pow2(p.hashBits) && (forall h :: 0 <= h < |head| ==> OnChain(p, window, ins, h, next, head[h]))
    && (forall i :: i in ins && i + p.wsize >= next ==>
       OnChain(p, window, ins, HashAt(p, window, i), i, prev[i % p.wsize]))
  }

  /** The hash is ready for the string at `str`: it needs only its third byte. */
  ghost predicate Ready(p: Params, window: seq<nat>, insH: nat, str: nat)
    requires str + 2 < |window|
  {
    UpdateHash(p, insH, window[str + 2]) == HashAt(p, window, str)
  }

  lemma ReadyNext(p: Params, window: seq<nat>, str: nat)
    requires p.Valid() && str + 3 < |window|
    ensures Ready(p, window, HashAt(p, window, str), str + 1)
  {
    HashRolls(p, window[str], window[str + 1], window[str + 2], window[str + 3]);
  }

  lemma ReadyFresh(p: Params, window: seq<nat>, str: nat)
    requires str + 2 < |window|
    ensures Ready(p, window, UpdateHash(p, window[str], window[str + 1]), str)
  {
    hide UpdateHash;
  }

  lemma SlotsDiffer(i: nat, str: nat, w: nat)
    requires i < str < i + w
    ensures i % w != str % w
  {
    var q, r, k := i / w, i % w, str - i;
    assert i == q * w + r;
    if r + k < w {
      DivModUnique(str, w, q, r + k);
    } else {
      assert (q + 1) * w == q * w + w;
      DivModUnique(str, w, q + 1, r + k - w);
    }
  }

  /** A chain that ends below `str` is not touched by the insertion of `str`. */
  lemma BelowInserted(p: Params, window: seq<nat>, ins: set<nat>, str: nat, h: nat, before: nat, j: nat)
    requires OnChain(p, window, ins, h, before, j) && before <= str
    ensures OnChain(p, window, ins + {str}, h, before, j)
  {
    hide HashAt;
    forall i | j < i < before ensures !Hashed(p, window, ins + {str}, h, i) {
      assert !Hashed(p, window, ins, h, i);
    }
  }

  /** Nothing has been inserted from `next` on. */
  lemma ChainUpTo(p: Params, window: seq<nat>, ins: set<nat>, h: nat, next: nat, before: nat, j: nat)
    requires OnChain(p, window, ins, h, next, j) && next <= before && forall i :: i in ins ==> i < next
    ensures OnChain(p, window, ins, h, before, j)
  {
    hide HashAt;
  }

  /** The heads of the chains after `str` has been inserted. */
  lemma HeadInserted(p: Params, window: seq<nat>, ins: set<nat>, str: nat, h: nat, j: nat)
    requires str + 2 < |window| && OnChain(p, window, ins, h, str, j)
    ensures OnChain(p, window, ins + {str}, h, str + 1, if h == HashAt(p, window, str) then str else j)
  {
    hide HashAt;
    if h != HashAt(p, window, str) {
      forall i | j < i < str + 1 ensures !Hashed(p, window, ins + {str}, h, i) {
        assert i < str ==> !Hashed(p, window, ins, h, i);
      }
    }
  }

  /** Inserts the string at `str` and returns the one before it on its chain. */
  method InsertString(p: Params, window: seq<nat>, head: seq<nat>, prev: seq<nat>, insH: nat, str: nat,
                      ghost ins: set<nat>, ghost next: nat, ghost end: nat)
    returns (head': seq<nat>, prev': seq<nat>, insH': nat, matchHead: nat)
    requires Chains(p, window, head, prev, ins, next, end) && next <= str && str + 3 <= end
    requires Ready(p, window, insH, str)
    ensures Chains(p, window, head', prev', ins + {str}, str + 1, end)
    ensures insH' == HashAt(p, window, str)
    ensures OnChain(p, window, ins, HashAt(p, window, str), str, matchHead)
  {
    hide HashAt, Hash, UpdateHash, Pow2, OnChain;
    insH' := UpdateHash(p, insH, window[str + 2]);
    assert insH' == HashAt(p, window, str);
    WholeHash(p, insH, window[str + 2]);
    matchHead := head[insH'];
    prev' := prev[str % p.wsize := matchHead];
    head' := head[insH' := str];
    forall h | 0 <= h < |head'| ensures OnChain(p, window, ins + {str}, h, str + 1, head'[h]) {
      ChainUpTo(p, window, ins, h, next, str, head[h]);
      HeadInserted(p, window, ins, str, h, head[h]);
    }
    ChainUpTo(p, window, ins, insH', next, str, matchHead);
    forall i | i in ins + {str} && i + p.wsize >= str + 1
      ensures OnChain(p, window, ins + {str}, HashAt(p, window, i), i, prev'[i % p.wsize])
    {
      if i != str {
        SlotsDiffer(i, str, p.wsize);
        BelowInserted(p, window, ins, str, HashAt(p, window, i), i, prev[i % p.wsize]);
      } else {
        BelowInserted(p, window, ins, str, insH', str, matchHead);
      }
    }
  }

  // ------------------------------------------------- sliding

  /** A position after the window has moved down by its size; what falls out becomes none. */
  function Slid(m: nat, wsize: nat): nat {
    if m >= wsize then m - wsize else 0
  }

  ghost function SlidSet(ins: set<nat>, wsize: nat): set<nat> {
    set i | i in ins && i >= wsize :: i - wsize
  }

  /** The window after its upper half has been moved down, as far as there is data. */
  predicate Moved(window: seq<nat>, window': seq<nat>, wsize: nat, end: nat) {
    |window'| == |window| == 2 * wsize && wsize <= end <= |window| && forall j :: 0 <= j < end - wsize ==>
      window'[j] == window[j + wsize]
  }

  lemma SlidOnChain(p: Params, window: seq<nat>, window': seq<nat>, ins: set<nat>, h: nat,
                    before: nat, j: nat, end: nat)
    requires Moved(window, window', p.wsize, end) && (forall i :: i in ins ==> i + 3 <= end)
    requires OnChain(p, window, ins, h, before, j) && p.wsize <= before
    ensures OnChain(p, window', SlidSet(ins, p.wsize), h, before - p.wsize, Slid(j, p.wsize))
  {
    hide Hash;
    var ins' := SlidSet(ins, p.wsize);
    forall i | Slid(j, p.wsize) < i < before - p.wsize ensures !Hashed(p, window', ins', h, i) {
      if i in ins' {
        assert !Hashed(p, window, ins, h, i + p.wsize);
        SlidHash(p, window, window', i, end);
      }
    }
    if j > p.wsize {
      assert j - p.wsize in ins';
      SlidHash(p, window, window', j - p.wsize, end);
    }
  }

  lemma SlotSame(i: nat, w: nat)
    requires 0 < w <= i
    ensures (i - w) % w == i % w
  {
    var q, r := i / w, i % w;
    assert i == q * w + r;
    assert (q - 1) * w == q * w - w;
    DivModUnique(i - w, w, q - 1, r);
  }

  /** Moves all positions in the tables down by the window size. */
  method SlideHash(p: Params, window: seq<nat>, window': seq<nat>, head: seq<nat>, prev: seq<nat>, ghost ins: set<nat>,
                   ghost next: nat, ghost end: nat)
    returns (head': seq<nat>, prev': seq<nat>)
    requires Chains(p, window, head, prev, ins, next, end) && Moved(window, window', p.wsize, end) && p.wsize <= next
    ensures Chains(p, window', head', prev', SlidSet(ins, p.wsize), next - p.wsize, end - p.wsize)
  {
    hide HashAt, Hash, OnChain, Pow2;
    head', prev' := [], [];
    for n := 0 to |head|
      invariant |head'| == n && forall k :: 0 <= k < n ==> head'[k] == Slid(head[k], p.wsize)
    {
      head' := head' + [Slid(head[n], p.wsize)];
    }
    for n := 0 to p.wsize
      invariant |prev'| == n && forall k :: 0 <= k < n ==> prev'[k] == Slid(prev[k], p.wsize)
    {
      prev' := prev' + [Slid(prev[n], p.wsize)];
    }
    ghost var ins' := SlidSet(ins, p.wsize);
    forall h | 0 <= h < |head'| ensures OnChain(p, window', ins', h, next - p.wsize, head'[h]) {
      SlidOnChain(p, window, window', ins, h, next, head[h], end);
    }
    forall i | i in ins' && i + p.wsize >= next - p.wsize
      ensures OnChain(p, window', ins', HashAt(p, window', i), i, prev'[i % p.wsize])
    {
      var i0 := i + p.wsize;
      SlotSame(i0, p.wsize);
      SlidOnChain(p, window, window', ins, HashAt(p, window, i0), i0, prev[i0 % p.wsize], end);
      assert HashAt(p, window', i) == HashAt(p, window, i0) by { SlidHash(p, window, window', i, end); }
    }
  }

  lemma SlidHash(p: Params, window: seq<nat>, window': seq<nat>, i: nat, end: nat)
    requires Moved(window, window', p.wsize, end) && i + p.wsize + 3 <= end
    ensures HashAt(p, window', i) == HashAt(p, window, i + p.wsize)
  {
    hide Hash;
  }
}
