/**
 src/zlib/inftrees.c: turning code lengths into a two-level decoding table, by a
 counting sort, a backwards increment of the bit-reversed code, and a look-ahead
 that sizes each sub-table.
 */
module InflateTable {
  import opened Bits
  import opened Canonical
  import opened DecodeTable
  import opened TableFill

  // ------------------------------------------------ counting and sorting

  /** The number of codes shorter than `b`. */
  function Offs(lens: seq<nat>, b: nat): nat {
    if b <= 1 then 0 else Offs(lens, b - 1) + Count(lens, b - 1)
  }

  function Rank(lens: seq<nat>, s: nat): nat
    requires s < |lens|
  {
    Count(lens[..s], lens[s])
  }

  /** `work` lists the coded symbols by length, and by number within a length. */
  ghost predicate Sorted(lens: seq<nat>, n: nat, work: seq<nat>)
    requires n <= |lens|
  {
    forall s :: 0 <= s < n && lens[s] > 0 ==>
      Offs(lens, lens[s]) + Rank(lens, s) < |work| && work[Offs(lens, lens[s]) + Rank(lens, s)] == s
  }

  lemma {:induction false} OffsMono(lens: seq<nat>, b: nat, b': nat)
    requires 1 <= b < b'
    ensures Offs(lens, b) + Count(lens, b) <= Offs(lens, b')
    ensures (forall l :: b < l < b' ==> Count(lens, l) == 0) ==> Offs(lens, b) + Count(lens, b) == Offs(lens, b')
    decreases b'
  {
    if b + 1 < b' {
      OffsMono(lens, b, b' - 1);
    }
  }

  lemma {:induction false} OffsSnoc(lens: seq<nat>, x: nat, b: nat)
    ensures Offs(lens + [x], b) == Offs(lens, b) + (if 1 <= x < b then 1 else 0)
  {
    if b > 1 {
      OffsSnoc(lens, x, b - 1);
      assert (lens + [x])[..|lens|] == lens;
    }
  }

  lemma {:induction false} OffsBound(lens: seq<nat>, b: nat)
    ensures Offs(lens, b) <= |lens|
  {
    if lens == [] {
      OffsEmpty(b);
    } else {
      OffsBound(lens[..|lens| - 1], b);
      OffsSnoc(lens[..|lens| - 1], lens[|lens| - 1], b);
      assert lens[..|lens| - 1] + [lens[|lens| - 1]] == lens;
    }
  }

  lemma {:induction false} OffsEmpty(b: nat)
    ensures Offs([], b) == 0
  {
    if b > 1 {
      OffsEmpty(b - 1);
    }
  }

  /** Where the `i`-th symbol of length `b` goes, no other symbol goes. */
  lemma {:induction false} SlotUnique(lens: seq<nat>, s: nat, t: nat)
    requires s < |lens| && t < |lens| && lens[s] > 0 && lens[t] > 0 && s != t
    ensures Offs(lens, lens[s]) + Rank(lens, s) != Offs(lens, lens[t]) + Rank(lens, t)
  {
    CodeInRange(lens, s);
    CodeInRange(lens, t);
    if lens[s] < lens[t] {
      OffsMono(lens, lens[s], lens[t]);
    } else if lens[t] < lens[s] {
      OffsMono(lens, lens[t], lens[s]);
    } else if s < t {
      CountMono(lens, lens[s], s, t);
    } else {
      CountMono(lens, lens[s], t, s);
    }
  }

  method CountLengths(lens: seq<nat>) returns (count: seq<nat>)
    requires ValidLens(lens)
    ensures |count| == MAX_BITS + 1
    ensures forall b :: 0 <= b <= MAX_BITS ==> count[b] == Count(lens, b)
  {
    count := seq(MAX_BITS + 1, _ => 0);
    for sym := 0 to |lens|
      invariant |count| == MAX_BITS + 1
      invariant forall b :: 0 <= b <= MAX_BITS ==> count[b] == Count(lens[..sym], b)
    {
      count := count[lens[sym] := count[lens[sym]] + 1];
      forall b | 0 <= b <= MAX_BITS ensures count[b] == Count(lens[..sym + 1], b) {
        CountPrefix(lens, b, sym);
      }
    }
    assert lens[..|lens|] == lens;
  }

  method Offsets(lens: seq<nat>, count: seq<nat>) returns (offs: seq<nat>)
    requires |count| == MAX_BITS + 1
    requires forall b :: 0 <= b <= MAX_BITS ==> count[b] == Count(lens, b)
    ensures |offs| == MAX_BITS + 1
    ensures forall b :: 1 <= b <= MAX_BITS ==> offs[b] == Offs(lens, b)
  {
    offs := seq(MAX_BITS + 1, _ => 0);
    for len := 1 to MAX_BITS
      invariant |offs| == MAX_BITS + 1
      invariant forall b :: 1 <= b <= len ==> offs[b] == Offs(lens, b)
    {
      offs := offs[len + 1 := offs[len] + count[len]];
    }
  }

  method SortSymbols(lens: seq<nat>, count: seq<nat>, work: array<nat>)
    requires ValidLens(lens) && |lens| <= work.Length && |count| == MAX_BITS + 1
    requires forall b :: 0 <= b <= MAX_BITS ==> count[b] == Count(lens, b)
    modifies work
    ensures Sorted(lens, |lens|, work[..])
  {
    hide Count, Offs;
    var offs := Offsets(lens, count);
    for sym := 0 to |lens|
      invariant |offs| == MAX_BITS + 1
      invariant forall b :: 1 <= b <= MAX_BITS ==> offs[b] == Offs(lens, b) + Count(lens[..sym], b)
      invariant Sorted(lens, sym, work[..])
    {
      ghost var before, was := work[..], offs;
      if lens[sym] != 0 {
        SlotInRange(lens, sym);
        work[offs[lens[sym]]] := sym;
        offs := offs[lens[sym] := offs[lens[sym]] + 1];
        SortedGrows(lens, sym, before);
        assert work[..] == before[was[lens[sym]] := sym];
      }
      forall b | 1 <= b <= MAX_BITS ensures offs[b] == Offs(lens, b) + Count(lens[..sym + 1], b) {
        CountPrefix(lens, b, sym);
      }
    }
  }

  lemma {:induction false} SortedGrows(lens: seq<nat>, sym: nat, work: seq<nat>)
    requires sym < |lens| <= |work| && lens[sym] > 0 && Sorted(lens, sym, work)
    ensures Offs(lens, lens[sym]) + Rank(lens, sym) < |work|
    ensures Sorted(lens, sym + 1, work[Offs(lens, lens[sym]) + Rank(lens, sym) := sym])
  {
    SlotInRange(lens, sym);
    forall s | 0 <= s < sym && lens[s] > 0
      ensures Offs(lens, lens[s]) + Rank(lens, s) != Offs(lens, lens[sym]) + Rank(lens, sym)
    {
      SlotUnique(lens, s, sym);
    }
  }

  lemma {:induction false} SlotInRange(lens: seq<nat>, s: nat)
    requires s < |lens| && lens[s] > 0
    ensures Offs(lens, lens[s]) + Rank(lens, s) < |lens|
  {
    CodeInRange(lens, s);
    OffsMono(lens, lens[s], lens[s] + 1);
    OffsBound(lens, lens[s] + 1);
  }

  // ------------------------------------------------ backwards increment

  /** `incr` of the source is `1 << (b - 1)`, or zero when `b` is zero. */
  method BackwardIncrement(huff: nat, len: nat, ghost c: nat) returns (r: nat)
    requires huff == Rev(c, len)
    ensures r == Rev(c + 1, len)
  {
    hide Low, Shr, Rev, Pow2, Shl;
    var b: nat := len;
    ghost var d: nat := c;
    RevLow(c, len);
    RevBound(c, len);
    LowSmall(huff, len);
    while b > 0 && Shr(huff, b - 1) % 2 == 1
      invariant b <= len
      invariant Low(huff, b) == Rev(d, b)
      invariant Rev(d + 1, b) == Rev(c + 1, len)
    {
      TopBit(huff, b, d);
      CarryOver(d, b);
      d := d / 2;
      b := b - 1;
    }
    if b != 0 {
      TopBit(huff, b, d);
      NoCarry(d, b);
      r := Low(huff, b - 1) + Pow2(b - 1);
    } else {
      r := 0;
      assert Rev(d + 1, 0) == 0 by { RevNone(d + 1); }
    }
  }

  lemma {:induction false} RevNone(v: nat)
    ensures Rev(v, 0) == 0
  {
  }

  /** A one at the end of the code is cleared and carried. */
  lemma CarryOver(d: nat, b: nat)
    requires b > 0 && d % 2 == 1
    ensures Rev(d + 1, b) == Rev(d / 2 + 1, b - 1)
  {
    ShlZero(b - 1);
  }

  /** A zero at the end of the code is set. */
  lemma NoCarry(d: nat, b: nat)
    requires b > 0 && d % 2 == 0
    ensures Rev(d + 1, b) == Rev(d / 2, b - 1) + Pow2(b - 1)
  {
    Pow2Shl(0, b - 1);
    assert 0 + (b - 1) == b - 1;
  }

  lemma TopBit(h: nat, b: nat, d: nat)
    requires b > 0 && Low(h, b) == Rev(d, b)
    ensures Shr(h, b - 1) % 2 == d % 2
    ensures Low(h, b - 1) == Rev(d / 2, b - 1)
  {
    SplitBits(h, b - 1, 1);
    RevBound(d / 2, b - 1);
    JoinBits(Rev(d / 2, b - 1), b - 1, d % 2);
    assert Low(Shr(h, b - 1), 1) == Shr(h, b - 1) % 2;
  }

  // ------------------------------------------------ replicating an entry

  method Replicate(table: array<Code>, at: nat, curr: nat, l: nat, h: nat, here: Code)
    requires l <= curr && h < Pow2(l) && at + Pow2(curr) <= table.Length
    modifies table
    ensures forall k :: 0 <= k < Pow2(curr) ==> table[at + k] == if Low(k, l) == h then here else old(table[at + k])
    ensures forall j :: 0 <= j < table.Length && !(at <= j < at + Pow2(curr)) ==> table[j] == old(table[j])
  {
    hide Low, Shr, Shl, Pow2;
    var incr: nat, fill: nat := Pow2(l), Pow2(curr);
    ghost var f: nat := Pow2(curr - l);
    Pow2Shl(curr - l, l);
    forall k: nat | k < Pow2(curr) ensures Shr(k, l) < f {
      ShrBound(k, l, curr - l);
    }
    while fill != 0
      invariant fill == Shl(f, l) && fill <= Pow2(curr)
      invariant forall k :: 0 <= k < Pow2(curr) ==>
        table[at + k] == if Low(k, l) == h && Shr(k, l) >= f then here else old(table[at + k])
      invariant forall j :: 0 <= j < table.Length && !(at <= j < at + Pow2(curr)) ==> table[j] == old(table[j])
      decreases f
    {
      if f == 0 { ShlZero(l); }
      FillStep(f, l);
      f := f - 1;
      fill := fill - incr;
      JoinBits(h, l, f);
      forall k: nat | k < Pow2(curr) && Low(k, l) == h && Shr(k, l) == f ensures k == h + fill {
        CutBits(k, l);
      }
      table[h + at + fill] := here;
    }
    if f > 0 { FillStep(f, l); }
  }

  lemma FillStep(f: nat, l: nat)
    requires f > 0
    ensures Shl(f, l) == Shl(f - 1, l) + Pow2(l)
  {
    ShlAdd(f - 1, 1, l);
    Pow2Shl(0, l);
  }

  // ------------------------------------------------ sizing a sub-table

  method LookAhead(lens: seq<nat>, count: seq<nat>, len: nat, root: nat, max: nat, ghost i: nat,
                   ghost q: nat) returns (curr: nat)
    requires 0 < root < len <= max <= MAX_BITS && |count| == MAX_BITS + 1
    requires count[len] + i == Count(lens, len) && forall l :: len < l <= MAX_BITS ==> count[l] == Count(lens, l)
    requires FirstCode(lens, len) + i == Shl(q, len - root)
    ensures root + curr == SubLen(lens, root, max, q, len)
  {
    hide Count, Pow2, SubLen, FirstCode, Shl;
    curr := len - root;
    var left: int := Pow2(curr);
    OneMore(q, len - root);
    while curr + root < max
      invariant len <= curr + root <= max
      invariant left
           == Shl(q + 1, curr) - (if curr + root == len then FirstCode(lens, len) + i else FirstCode(lens, curr + root))
      invariant SubLen(lens, root, max, q, len) == SubLen(lens, root, max, q, curr + root)
    {
      LookStep(lens, root, max, q, curr + root);
      left := left - count[curr + root];
      if left <= 0 {
        break;
      }
      curr := curr + 1;
      left := left * 2;
    }
    LookStep(lens, root, max, q, curr + root);
  }

  lemma OneMore(q: nat, n: nat)
    ensures Shl(q + 1, n) == Shl(q, n) + Pow2(n)
  {
    ShlAdd(q, 1, n);
    Pow2Shl(0, n);
    assert 0 + n == n;
  }

  lemma LookStep(lens: seq<nat>, root: nat, max: nat, q: nat, l: nat)
    requires 0 < root < l <= max
    ensures l == max || FirstCode(lens, l) + Count(lens, l) >= Shl(q + 1, l - root) ==>
      SubLen(lens, root, max, q, l) == l
    ensures l < max && FirstCode(lens, l) + Count(lens, l) < Shl(q + 1, l - root) ==>
      SubLen(lens, root, max, q, l) == SubLen(lens, root, max, q, l + 1)
    ensures FirstCode(lens, l + 1) == 2 * (FirstCode(lens, l) + Count(lens, l))
    ensures Shl(q + 1, l + 1 - root) == 2 * Shl(q + 1, l - root)
  {
    hide Count;
  }

  // ------------------------------------------------ walking the sorted symbols

  lemma NextInOrder(lens: seq<nat>, work: seq<nat>, max: nat, w: nat) returns (w': nat)
    requires w < |lens| && 1 <= lens[w] <= max && Sorted(lens, |lens|, work) && Count(lens, max) > 0
    requires Rank(lens, w) + 1 < Count(lens, lens[w]) || lens[w] < max
    ensures Follows(lens, w, w') && lens[w'] <= max
    ensures Offs(lens, lens[w]) + Rank(lens, w) + 1 == Offs(lens, lens[w']) + Rank(lens, w') < |work|
    ensures work[Offs(lens, lens[w]) + Rank(lens, w) + 1] == w'
    ensures Rank(lens, w) + 1 < Count(lens, lens[w]) <==> lens[w'] == lens[w]
  {
    CodeInRange(lens, w);
    if Rank(lens, w) + 1 < Count(lens, lens[w]) {
      w' := SymbolAt(lens, lens[w], Rank(lens, w) + 1);
    } else {
      var len' := MinLen(lens, max, lens[w] + 1);
      w' := SymbolAt(lens, len', 0);
      OffsMono(lens, lens[w], len');
    }
  }

  /** The entry for a symbol, from the base and extra tables of its kind. */
  method TableEntry(ty: CodeType, sym: nat, bits: nat) returns (here: Code)
    requires sym < Symbols(ty)
    ensures here == Entry(ty, sym, bits)
  {
    var match_ := match ty case CODES => 20 case LENS => 257 case DISTS => 0;
    if sym + 1 < match_ {
      here := Code(0, bits, sym);
    } else if sym >= match_ {
      here := if ty == LENS then Code(LExt(sym - match_), bits, LBase(sym - match_))
              else Code(DExt(sym - match_), bits, DBase(sym - match_));
    } else {
      here := Code(32 + 64, bits, 0);
    }
  }

  // ------------------------------------------------ filling

  predicate OverLimit(ty: CodeType, used: nat) {
    (ty == LENS && used > ENOUGH_LENS) || (ty == DISTS && used > ENOUGH_DISTS)
  }

  function Room(ty: CodeType): nat {
    if ty == LENS then ENOUGH_LENS else ENOUGH_DISTS
  }

  method PlaceEntry(table: array<Code>, start: nat, used: nat, next: nat, curr: nat, l: nat, h: nat, here: Code)
    requires start + used <= table.Length && next + Pow2(curr) <= used && l <= curr && h < Pow2(l)
    modifies table
    ensures Wrote(old(table[start..start + used]), table[start..start + used], next, curr, l, h, here)
    ensures forall j :: 0 <= j < table.Length && !(start <= j < start + used) ==> table[j] == old(table[j])
  {
    ghost var t := table[start..start + used];
    Replicate(table, start + next, curr, l, h, here);
    ghost var t' := table[start..start + used];
    forall k | 0 <= k < Pow2(curr) ensures t'[next + k] == if Low(k, l) == h then here else t[next + k] {
      assert t'[next + k] == table[start + next + k];
    }
  }

  /** Opens the sub-table of the root entry of symbol `w`, unless the table space is used up. */
  method OpenSubTable(ty: CodeType, lens: seq<nat>, table: array<Code>, start: nat, root: nat, used: nat, max: nat,
                      count: seq<nat>,
                      len: nat, huff: nat, w: nat, ghost i: nat, ghost q: int, ghost curr: nat, ghost next: nat)
    returns (enough: bool, curr': nat, used': nat)
    requires start + used <= table.Length && ty != CODES && start + Room(ty) <= table.Length
    requires Filling(ty, lens, table[start..start + used], root, len, i, q, curr, next) && At(lens, w, len, i)
    requires 0 < root < len <= max <= MAX_BITS && |count| == MAX_BITS + 1
    requires count[len] + i == Count(lens, len) && forall l :: len < l <= MAX_BITS ==> count[l] == Count(lens, l)
    requires huff == Huff(lens, w) && q < RootOf(lens, w, root)
    requires CodeOf(lens, w) == Shl(RootOf(lens, w, root), len - root)
    modifies table
    ensures 0 <= curr' && root + curr' == SubLen(lens, root, max, RootOf(lens, w, root), root + 1)
    ensures used' == used + Pow2(curr') && enough == !OverLimit(ty, used')
    ensures enough ==> start + used' <= table.Length
    ensures enough ==> Filling(ty, lens, table[start..start + used'], root, len, i, RootOf(lens, w, root), curr', used)
    ensures enough ==> Ready(lens, table[start..start + used'], root, RootOf(lens, w, root), curr', used, w)
    ensures forall j :: 0 <= j < table.Length && !(start <= j < start + used) ==> table[j] == old(table[j])
  {
    ghost var q' := RootOf(lens, w, root);
    curr' := SubTableBits(lens, count, len, root, max, w, i);
    used' := used + Pow2(curr');
    enough := !OverLimit(ty, used');
    if enough {
      ghost var t := table[start..start + used];
      var low := Low(huff, root);
      table[start + low] := Code(curr', root, used);
      ghost var t' := table[start..start + used'];
      assert t'[low] == Code(curr', root, |t|);
      LinkStep(ty, lens, t, t', root, len, i, q, curr, next, curr', w);
    }
  }

  method SubTableBits(lens: seq<nat>, count: seq<nat>, len: nat, root: nat, max: nat, ghost w: nat,
                      ghost i: nat) returns (curr: nat)
    requires 0 < root < len <= max <= MAX_BITS && |count| == MAX_BITS + 1 && At(lens, w, len, i)
    requires count[len] + i == Count(lens, len) && forall l :: len < l <= MAX_BITS ==> count[l] == Count(lens, l)
    requires CodeOf(lens, w) == Shl(RootOf(lens, w, root), len - root)
    ensures root + curr == SubLen(lens, root, max, RootOf(lens, w, root), root + 1)
    ensures len - root <= curr <= MAX_BITS
  {
    CodeInRange(lens, w);
    curr := LookAhead(lens, count, len, root, max, i, RootOf(lens, w, root));
    SubLenSkip(lens, root, max, RootOf(lens, w, root), root + 1, len);
  }

  ghost predicate CountsLeft(lens: seq<nat>, count: seq<nat>, len: nat, i: nat) {
    && |count| == MAX_BITS + 1 && 0 < len <= MAX_BITS
    && count[len] + i == Count(lens, len)
    && forall l :: len < l <= MAX_BITS ==> count[l] == Count(lens, l)
  }

  /** The room taken when the sub-tables up to that of root entry `q` are open. */
  ghost predicate Accounted(lens: seq<nat>, root: nat, max: nat, q: int, curr: nat, used: nat) {
    if q < 0 then used == Pow2(root)
    else
      && root < max && EndCode(lens, root) <= q
      && root + curr == SubLen(lens, root, max, q, root + 1)
      && used + SubSpace(lens, root, max, q + 1) == Pow2(root) + SubSpace(lens, root, max, EndCode(lens, root))
  }

  /** The walk over the sorted symbols stands at symbol `w`. */
  ghost predicate Walking(lens: seq<nat>, work: seq<nat>, max: nat, count: seq<nat>, sym: nat, huff: nat, w: nat) {
    && w < |lens| && sym < |work| && sym < |lens| && work[sym] == w
    && 1 <= lens[w] <= max && sym == Offs(lens, lens[w]) + Rank(lens, w)
    && huff == Huff(lens, w)
    && CountsLeft(lens, count, lens[w], Rank(lens, w))
  }

  lemma FirstSymbol(lens: seq<nat>, work: seq<nat>, max: nat, count: seq<nat>) returns (w: nat)
    requires Sorted(lens, |lens|, work) && 0 < max == Longest(lens) && |count| == MAX_BITS + 1
    requires forall b :: 0 <= b <= MAX_BITS ==> count[b] == Count(lens, b)
    ensures Walking(lens, work, max, count, 0, 0, w)
    ensures lens[w] == MinLen(lens, max, 1) && Rank(lens, w) == 0
    ensures forall s: nat :: !Earlier(lens, s, lens[w], 0)
  {
    var min := MinLen(lens, max, 1);
    w := SymbolAt(lens, min, 0);
    SlotInRange(lens, w);
    forall s: nat ensures !Earlier(lens, s, min, 0) {
      if Earlier(lens, s, min, 0) {
        CodeInRange(lens, s);
      }
    }
    assert FirstCode(lens, 1) == 0;
    if min > 1 {
      OffsMono(lens, 1, min);
      assert EndCode(lens, 1) == 0;
      EndCodeGap(lens, 1, min - 1);
      ShlZero(min - 2);
    }
    assert FirstCode(lens, min) == 0;
    RevZero(min);
  }

  lemma NextSymbol(lens: seq<nat>, work: seq<nat>, max: nat, count: seq<nat>, sym: nat, huff: nat,
                   w: nat) returns (w': nat)
    requires Walking(lens, work, max, count, sym, huff, w) && Sorted(lens, |lens|, work) && max == Longest(lens)
    requires count[lens[w]] > 1 || (count[lens[w]] == 1 && lens[w] < max)
    ensures Follows(lens, w, w') && (count[lens[w]] > 1 <==> lens[w'] == lens[w])
    ensures Walking(lens, work, max, count[lens[w] := count[lens[w]] - 1], sym + 1, Rev(CodeOf(lens, w) + 1, lens[w]),
      w')
  {
    w' := NextInOrder(lens, work, max, w);
    NextCode(lens, w, w');
    SlotInRange(lens, w');
  }

  /** Which table is being filled, as the source's `drop` and `low` record it. */
  ghost predicate TableKnown(root: nat, q: int, drop: nat, low: int) {
    if q < 0 then drop == 0 && low == -1 else drop == root && low == Rev(q, root)
  }

  /** The table is ready to take symbol `w`, and its bookkeeping is right. */
  ghost predicate Good(ty: CodeType, lens: seq<nat>, t: seq<Code>, root: nat, max: nat, q: int, curr: nat, next: nat,
                       drop: nat, low: int, w: nat) {
    && w < |lens|
    && Filling(ty, lens, t, root, lens[w], Rank(lens, w), q, curr, next)
    && Ready(lens, t, root, q, curr, next, w)
    && TableKnown(root, q, drop, low)
    && Accounted(lens, root, max, q, curr, |t|)
  }

  /** The same after symbol `w` has been put in. */
  ghost predicate Done(ty: CodeType, lens: seq<nat>, t: seq<Code>, root: nat, max: nat, q: int, curr: nat, next: nat,
                       drop: nat, low: int, w: nat) {
    && w < |lens|
    && Filling(ty, lens, t, root, lens[w], Rank(lens, w) + 1, q, curr, next)
    && (if lens[w] <= root then q < 0 else q == RootOf(lens, w, root))
    && TableKnown(root, q, drop, low)
    && Accounted(lens, root, max, q, curr, |t|)
  }

  lemma {:induction false} ShrNothing(v: nat)
    ensures Shr(v, 0) == v
  {
  }

  lemma {:induction false} GoodFacts(ty: CodeType, lens: seq<nat>, t: seq<Code>, root: nat, max: nat, q: int,
                                     curr: nat, next: nat,
                                     drop: nat, low: int, w: nat)
    requires Good(ty, lens, t, root, max, q, curr, next, drop, low, w) && lens[w] > 0
    ensures ValidLens(lens) && NotOver(lens) && w < |lens| <= Symbols(ty) && |t| == next + Pow2(curr)
    ensures drop <= lens[w] && lens[w] - drop <= curr && drop == (if q < 0 then 0 else root)
  {
    hide NotOver, Placed, LinkOk, Accounted, Earlier, Rev;
  }

  lemma {:induction false} GoodDone(ty: CodeType, lens: seq<nat>, t: seq<Code>, t': seq<Code>, root: nat, max: nat,
                                    q: int, curr: nat, next: nat,
                                    drop: nat, low: int, w: nat)
    requires Good(ty, lens, t, root, max, q, curr, next, drop, low, w) && lens[w] > 0 && |lens| <= Symbols(ty)
    requires drop <= lens[w]
    requires Wrote(t, t', next, curr, lens[w] - drop, Shr(Huff(lens, w), drop), Entry(ty, w, lens[w] - drop))
    ensures Done(ty, lens, t', root, max, q, curr, next, drop, low, w)
  {
    hide NotOver, Accounted, Placed, LinkOk, Rev, Count, Huff, Entry, Wrote, Shr, Low;
    ShrNothing(Huff(lens, w));
    WroteSize(t, t', next, curr, lens[w] - drop, Shr(Huff(lens, w), drop), Entry(ty, w, lens[w] - drop));
    if q < 0 {
      FillingAny(ty, lens, t, root, lens[w], Rank(lens, w), q, curr, next);
      PlaceShort(ty, lens, t, t', root, lens[w], Rank(lens, w), w);
      FillingBack(ty, lens, t', root, lens[w], Rank(lens, w) + 1, q);
    } else {
      PlaceLong(ty, lens, t, t', root, lens[w], Rank(lens, w), q, curr, next, w);
    }
  }

  lemma WroteSize(t: seq<Code>, t': seq<Code>, at: nat, n: nat, l: nat, h: nat, e: Code)
    requires Wrote(t, t', at, n, l, h, e)
    ensures |t'| == |t|
  {
  }

  lemma FillingAny(ty: CodeType, lens: seq<nat>, t: seq<Code>, root: nat, len: nat, i: nat, q: int,
                   curr: nat, next: nat)
    requires q < 0 && Filling(ty, lens, t, root, len, i, q, curr, next)
    ensures Filling(ty, lens, t, root, len, i, -1, root, 0)
  {
    hide Placed, NotOver;
  }

  lemma FillingBack(ty: CodeType, lens: seq<nat>, t: seq<Code>, root: nat, len: nat, i: nat, q: int)
    requires q < 0 && Filling(ty, lens, t, root, len, i, -1, root, 0)
    ensures Filling(ty, lens, t, root, len, i, q, root, 0)
  {
    hide Placed, NotOver;
  }

  method PlaceSymbol(ty: CodeType, lens: seq<nat>, table: array<Code>, start: nat, root: nat, used: nat, ghost max: nat,
                     curr: nat, next: nat, drop: nat, ghost low: int, len: nat, huff: nat, w: nat, ghost q: int)
    requires start + used <= table.Length && w < |lens| && 0 < len == lens[w] && huff == Huff(lens, w)
    requires Good(ty, lens, table[start..start + used], root, max, q, curr, next, drop, low, w)
    modifies table
    ensures Done(ty, lens, table[start..start + used], root, max, q, curr, next, drop, low, w)
    ensures forall j :: 0 <= j < table.Length && !(start <= j < start + used) ==> table[j] == old(table[j])
  {
    hide Good, Done, Huff, Low, Shr, Entry, Wrote, NotOver, Pow2;
    ghost var t := table[start..start + used];
    GoodFacts(ty, lens, t, root, max, q, curr, next, drop, low, w);
    CodeFits(lens, w);
    ShrBound(huff, drop, len - drop);
    var here := TableEntry(ty, w, len - drop);
    PlaceEntry(table, start, used, next, curr, len - drop, Shr(huff, drop), here);
    GoodDone(ty, lens, t, table[start..start + used], root, max, q, curr, next, drop, low, w);
  }

  method SwitchTable(ty: CodeType, lens: seq<nat>, table: array<Code>, start: nat, root: nat, used: nat, max: nat,
                     count: seq<nat>,
                     huff: nat, low: int, drop: nat, next: nat, curr: nat, ghost w: nat, w': nat, ghost q: int)
    returns (enough: bool, low': int, drop': nat, next': nat, curr': nat, used': nat, ghost q': int)
    requires start + used <= table.Length && !OverLimit(ty, used)
    requires if ty == CODES then root == max else start + Room(ty) <= table.Length
    requires Follows(lens, w, w') && lens[w'] <= max <= MAX_BITS && CountsLeft(lens, count, lens[w'], Rank(lens, w'))
    requires Done(ty, lens, table[start..start + used], root, max, q, curr, next, drop, low, w)
    requires huff == Huff(lens, w')
    modifies table
    ensures enough == !OverLimit(ty, used') && used <= used'
    ensures enough ==>
      start + used' <= table.Length
      && Good(ty, lens, table[start..start + used'], root, max, q', curr', next', drop', low', w')
    ensures !enough ==> Accounted(lens, root, max, q', curr', used')
    ensures forall j :: 0 <= j < table.Length && !(start <= j < start + used) ==> table[j] == old(table[j])
  {
    hide Good, Done, Accounted;
    if lens[w'] > root && Low(huff, root) != low {
      enough, low', drop', next', curr', used', q' := NewTable(ty, lens, table, start, root, used, max, count, huff,
                                                               low, drop, next, curr, w, w', q);
    } else {
      SameTable(ty, lens, table[start..start + used], root, max, q, curr, next, drop, low, w, w');
      enough, low', drop', next', curr', used', q' := true, low, drop, next, curr, used, q;
    }
  }

  lemma {:induction false} SameTable(ty: CodeType, lens: seq<nat>, t: seq<Code>, root: nat, max: nat, q: int,
                                     curr: nat, next: nat,
                                     drop: nat, low: int, w: nat, w': nat)
    requires Follows(lens, w, w') && lens[w'] <= max
    requires Done(ty, lens, t, root, max, q, curr, next, drop, low, w)
    requires lens[w'] <= root || Low(Huff(lens, w'), root) == low
    ensures Good(ty, lens, t, root, max, q, curr, next, drop, low, w')
  {
    FillingJump(ty, lens, t, root, q, curr, next, w, w');
    if lens[w'] > root {
      ReadyStays(ty, lens, t, root, max, q, curr, next, w, w');
    }
  }

  method NewTable(ty: CodeType, lens: seq<nat>, table: array<Code>, start: nat, root: nat, used: nat, max: nat,
                  count: seq<nat>,
                  huff: nat, ghost low: int, ghost drop: nat, next: nat, curr: nat, ghost w: nat, w': nat, ghost q: int)
    returns (enough: bool, low': int, drop': nat, next': nat, curr': nat, used': nat, ghost q': int)
    requires start + used <= table.Length && ty != CODES && start + Room(ty) <= table.Length
    requires Follows(lens, w, w') && lens[w'] <= max <= MAX_BITS && CountsLeft(lens, count, lens[w'], Rank(lens, w'))
    requires Done(ty, lens, table[start..start + used], root, max, q, curr, next, drop, low, w)
    requires huff == Huff(lens, w') && lens[w'] > root && Low(huff, root) != low
    modifies table
    ensures enough == !OverLimit(ty, used') && used <= used'
    ensures enough ==>
      start + used' <= table.Length
      && Good(ty, lens, table[start..start + used'], root, max, q', curr', next', drop', low', w')
    ensures !enough ==> Accounted(lens, root, max, q', curr', used')
    ensures forall j :: 0 <= j < table.Length && !(start <= j < start + used) ==> table[j] == old(table[j])
  {
    hide Placed, LinkOk, SubSpace, SubLen, Huff, CodeOf;
    NewTableFacts(ty, lens, table[start..start + used], root, max, q, curr, next, drop, low, w, w');
    q' := RootOf(lens, w', root);
    drop', low' := root, Low(huff, root);
    next' := next + Pow2(curr);
    enough, curr', used' := OpenSubTable(ty, lens, table, start, root, used, max, count, lens[w'], huff, w',
                                         Rank(lens, w'), q, curr, next);
    AccountedNext(lens, root, max, q, curr, used, q', curr', used');
  }

  lemma {:induction false} NewTableFacts(ty: CodeType, lens: seq<nat>, t: seq<Code>, root: nat, max: nat, q: int,
                                         curr: nat, next: nat,
                                         drop: nat, low: int, w: nat, w': nat)
    requires Follows(lens, w, w') && Done(ty, lens, t, root, max, q, curr, next, drop, low, w)
    requires lens[w'] > root && Low(Huff(lens, w'), root) != low
    ensures Filling(ty, lens, t, root, lens[w'], Rank(lens, w'), q, curr, next)
    ensures q < RootOf(lens, w', root) == (if q < 0 then EndCode(lens, root) else q + 1) < Pow2(root)
    ensures CodeOf(lens, w') == Shl(RootOf(lens, w', root), lens[w'] - root)
    ensures Low(Huff(lens, w'), root) == Rev(RootOf(lens, w', root), root)
  {
    FillingJump(ty, lens, t, root, q, curr, next, w, w');
    NewRoot(lens, root, w, w', q);
    RootIndex(lens, w', root);
  }

  lemma {:induction false} NewRoot(lens: seq<nat>, root: nat, w: nat, w': nat, q: int)
    requires ValidLens(lens) && NotOver(lens) && Follows(lens, w, w') && 0 < root < lens[w']
    requires if lens[w] <= root then q < 0 else q == RootOf(lens, w, root)
    requires q < 0 || Low(Huff(lens, w'), root) != Rev(q, root)
    ensures q < RootOf(lens, w', root) == (if q < 0 then EndCode(lens, root) else q + 1)
    ensures CodeOf(lens, w') == Shl(RootOf(lens, w', root), lens[w'] - root)
    ensures RootOf(lens, w', root) < Pow2(root)
  {
    RootIndex(lens, w', root);
    if lens[w] <= root {
      FirstRoot(lens, w, w', root);
    } else {
      NextRoot(lens, w, w', root);
    }
  }

  lemma {:induction false} AccountedNext(lens: seq<nat>, root: nat, max: nat, q: int, curr: nat, used: nat, q': nat,
                                         curr': nat, used': nat)
    requires root < max && Accounted(lens, root, max, q, curr, used)
    requires q' == (if q < 0 then EndCode(lens, root) else q + 1) < Pow2(root)
    requires root + curr' == SubLen(lens, root, max, q', root + 1) && used' == used + Pow2(curr')
    ensures Accounted(lens, root, max, q', curr', used')
  {
  }

  /** All codes are in, and `huff` has gone one past the last one. */
  ghost predicate AllPlaced(ty: CodeType, lens: seq<nat>, t: seq<Code>, root: nat)
    requires |lens| <= Symbols(ty)
  {
    Pow2(root) <= |t| && forall s :: 0 <= s < |lens| && lens[s] > 0 ==> Placed(ty, lens, t, root, s)
  }

  lemma {:induction false} GoodAtStart(ty: CodeType, lens: seq<nat>, t: seq<Code>, root: nat, max: nat, w: nat)
    requires ValidLens(lens) && NotOver(lens) && |lens| <= Symbols(ty) && 0 < root <= MAX_BITS && |t| == Pow2(root)
    requires w < |lens| && 1 <= lens[w] <= root && Rank(lens, w) == 0 && forall s: nat :: !Earlier(lens, s, lens[w], 0)
    ensures Good(ty, lens, t, root, max, -1, root, 0, 0, -1, w)
  {
  }

  lemma {:induction false} LastSymbol(ty: CodeType, lens: seq<nat>, t: seq<Code>, root: nat, max: nat, q: int,
                                      curr: nat, next: nat,
                                      drop: nat, low: int, w: nat)
    requires Done(ty, lens, t, root, max, q, curr, next, drop, low, w) && max == Longest(lens) == lens[w] && root <= max
    requires Rank(lens, w) + 1 == Count(lens, max) && (root == max || Complete(lens))
    ensures AllPlaced(ty, lens, t, root)
    ensures |t| == Space(lens, root)
    ensures CodeOf(lens, w) + 1 == EndCode(lens, max)
  {
    forall s: nat | s < |lens| && lens[s] > 0 ensures Placed(ty, lens, t, root, s) {
      CodeInRange(lens, s);
      assert Earlier(lens, s, max, Count(lens, max));
    }
    if root < max {
      LastRoot(lens, w, root);
    }
  }

  lemma OverIsOver(ty: CodeType, lens: seq<nat>, root: nat, q: int, curr: nat, used: nat)
    requires OverLimit(ty, used) && Accounted(lens, root, Longest(lens), q, curr, used)
    ensures OverLimit(ty, Space(lens, root))
  {
  }

  /** The main loop: fills the table, or reports that the table space is not enough. */
  method FillTable(ty: CodeType, lens: seq<nat>, table: array<Code>, start: nat, root: nat, min: nat, max: nat,
                   counts: seq<nat>, work: array<nat>)
    returns (enough: bool, used: nat, huff: nat)
    requires ValidLens(lens) && NotOver(lens) && |lens| <= Symbols(ty)
    requires 0 < max == Longest(lens) && min == MinLen(lens, max, 1) && min <= root <= max
    requires (root == max || Complete(lens))
    requires |counts| == MAX_BITS + 1 && forall b :: 0 <= b <= MAX_BITS ==> counts[b] == Count(lens, b)
    requires Sorted(lens, |lens|, work[..])
    requires if ty == CODES then root == max && start + Pow2(root) <= table.Length else start + Room(ty) <= table.Length
    modifies table
    ensures enough == !OverLimit(ty, Space(lens, root))
    ensures enough ==>
      used == Space(lens, root) && start + used <= table.Length
      && AllPlaced(ty, lens, table[start..start + used], root)
    ensures enough ==> huff == Rev(EndCode(lens, max), max)
    ensures forall j :: 0 <= j < table.Length && !(start <= j < start + Space(lens, root)) ==> table[j] == old(table[j])
  {
    hide Good, Done, AllPlaced, Sorted, Space, NotOver, Complete, Follows, FirstCode, Count, Offs, Rev, Pow2, MinLen,
         MaxLen;
    huff := 0;
    used := Pow2(root);
    enough := !OverLimit(ty, used);
    if !enough {
      OverIsOver(ty, lens, root, -1, root, used);
      return;
    }
    var sym: nat, len: nat := 0, min;
    var next: nat, curr: nat, drop: nat, low: int := 0, root, 0, -1;
    var count := counts;
    ghost var q: int := -1;
    ghost var w := FirstSymbol(lens, work[..], max, count);
    GoodAtStart(ty, lens, table[start..start + used], root, max, w);
    while true
      invariant Walking(lens, work[..], max, count, sym, huff, w) && len == lens[w]
      invariant start + used <= table.Length && !OverLimit(ty, used) && enough
      invariant Good(ty, lens, table[start..start + used], root, max, q, curr, next, drop, low, w)
      invariant forall j :: 0 <= j < table.Length && !(start <= j < start + used) ==> table[j] == old(table[j])
      decreases |lens| - sym
    {
      CodeInRange(lens, w);
      PlaceSymbol(ty, lens, table, start, root, used, max, curr, next, drop, low, len, huff, work[sym], q);
      huff := BackwardIncrement(huff, len, CodeOf(lens, w));
      if count[len] == 1 && len == max {
        LastSymbol(ty, lens, table[start..start + used], root, max, q, curr, next, drop, low, w);
        return;
      }
      ghost var w' := NextSymbol(lens, work[..], max, count, sym, Huff(lens, w), w);
      sym := sym + 1;
      count := count[len := count[len] - 1];
      if count[len] == 0 {
        len := lens[work[sym]];
      }
      enough, low, drop, next, curr, used, q :=
        SwitchTable(ty, lens, table, start, root, used, max, count, huff, low, drop, next, curr, w, work[sym], q);
      w := w';
      if !enough {
        OverIsOver(ty, lens, root, q, curr, used);
        return;
      }
    }
  }

  // ------------------------------------------------ the whole function

  method BoundLengths(lens: seq<nat>, count: seq<nat>) returns (max: nat, min: nat)
    requires |count| == MAX_BITS + 1 && forall b :: 0 <= b <= MAX_BITS ==> count[b] == Count(lens, b)
    ensures max == Longest(lens)
    ensures max > 0 ==> min == MinLen(lens, max, 1)
  {
    max, min := MAX_BITS, 0;
    while max >= 1 && count[max] == 0
      invariant max <= MAX_BITS && MaxLen(lens, MAX_BITS) == MaxLen(lens, max)
    {
      max := max - 1;
    }
    if max > 0 {
      min := 1;
      while min < max && count[min] == 0
        invariant 1 <= min <= max && MinLen(lens, max, 1) == MinLen(lens, max, min)
      {
        min := min + 1;
      }
    }
  }

  /** `left` codes of the longest length remain free; negative when over-subscribed. */
  method CheckLengths(lens: seq<nat>, count: seq<nat>) returns (left: int)
    requires |count| == MAX_BITS + 1 && forall b :: 0 <= b <= MAX_BITS ==> count[b] == Count(lens, b)
    ensures left >= 0 <==> NotOver(lens)
    ensures left == 0 <==> Complete(lens)
  {
    hide EndCode, Count;
    left := 1;
    for len := 1 to MAX_BITS + 1
      invariant left == Pow2(len - 1) - (if len == 1 then 0 else EndCode(lens, len - 1))
      invariant left >= 0
      invariant forall b {:trigger EndCode(lens, b)} :: 1 <= b < len ==> EndCode(lens, b) <= Pow2(b)
    {
      EndCodeStep(lens, len);
      left := left * 2 - count[len];
      if left < 0 {
        assert EndCode(lens, len) > Pow2(len);
        return;
      }
    }
  }

  lemma EndCodeStep(lens: seq<nat>, len: nat)
    requires len >= 1
    ensures EndCode(lens, len) == (if len == 1 then 0 else 2 * EndCode(lens, len - 1)) + Count(lens, len)
  {
    assert FirstCode(lens, 0) == 0;
  }

  /** The sets taken with codes left over are the empty one and a lone one-bit code. */
  lemma LeftOver(lens: seq<nat>)
    requires ValidLens(lens)
    ensures Empty(lens) <==> Longest(lens) == 0
    ensures Lone(lens) <==> NotOver(lens) && !Complete(lens) && Longest(lens) == 1
  {
    if Longest(lens) == 0 {
      forall s: nat | s < |lens| ensures lens[s] == 0 { CodeInRange(lens, s); }
    } else {
      var s := SymbolAt(lens, Longest(lens), 0);
    }
    if s: nat :| LoneAt(lens, s) {
      LoneIsLeft(lens, s);
    }
    if NotOver(lens) && !Complete(lens) && Longest(lens) == 1 {
      LeftIsLone(lens);
    }
  }

  lemma LoneIsLeft(lens: seq<nat>, s: nat)
    requires LoneAt(lens, s)
    ensures NotOver(lens) && !Complete(lens) && Longest(lens) == 1
  {
    hide EndCode, Count, Pow2;
    CodeInRange(lens, s);
    CountLone(lens, s);
    Pow2Small();
    EndCodeStep(lens, 1);
    forall b | 2 <= b <= MAX_BITS ensures Count(lens, b) == 0 { CountAbsent(lens, b); }
    forall b | 1 <= b <= MAX_BITS ensures EndCode(lens, b) == Pow2(b - 1) < Pow2(b) {
      EndCodeGap(lens, 1, b);
      Pow2Shl(0, b - 1);
      assert 0 + (b - 1) == b - 1;
      Pow2Mono(b - 1, b);
    }
  }

  lemma {:induction false} CountLone(lens: seq<nat>, s: nat)
    requires LoneAt(lens, s)
    ensures Count(lens, 1) == 1
  {
    var last := |lens| - 1;
    if s == last {
      CountAbsent(lens[..last], 1);
    } else {
      CountLone(lens[..last], s);
    }
  }

  lemma LeftIsLone(lens: seq<nat>)
    requires ValidLens(lens) && NotOver(lens) && !Complete(lens) && Longest(lens) == 1
    ensures Lone(lens)
  {
    hide EndCode, Count, Pow2, Shl;
    OneIsLeft(lens);
    var s := SymbolAt(lens, 1, 0);
    forall r: nat | r < |lens| && r != s ensures lens[r] == 0 {
      LenCounted(lens, r);
      TwoOnes(lens, s, r);
    }
    assert LoneAt(lens, s);
  }

  lemma {:induction false} LenCounted(lens: seq<nat>, r: nat)
    requires r < |lens|
    ensures Count(lens, lens[r]) > 0
  {
    hide FirstCode, Count;
    CodeInRange(lens, r);
  }

  lemma {:induction false} TwoOnes(lens: seq<nat>, s: nat, r: nat)
    requires s < |lens| && r < |lens| && r != s && lens[s] == 1
    ensures lens[r] == 1 ==> Count(lens, 1) >= 2
  {
    hide Count;
    if lens[r] == 1 {
      var a, b := if r < s then r else s, if r < s then s else r;
      CountMono(lens, 1, a, b);
      CountMono(lens, 1, b, |lens|);
      assert lens[..|lens|] == lens;
    }
  }

  lemma {:induction false} OneIsLeft(lens: seq<nat>)
    requires NotOver(lens) && !Complete(lens) && Longest(lens) == 1
    ensures Count(lens, 1) == 1
  {
    hide EndCode, Count;
    EndCodeGap(lens, 1, MAX_BITS);
    EndCodeStep(lens, 1);
    assert EndCode(lens, 1) <= Pow2(1) == 2;
    Pow2Shl(1, MAX_BITS - 1);
    assert 1 + (MAX_BITS - 1) == MAX_BITS;
  }

  lemma FinishComplete(ty: CodeType, lens: seq<nat>, t: seq<Code>, root: nat)
    requires ValidLens(lens) && |lens| <= Symbols(ty) && Complete(lens) && 0 < root <= MAX_BITS
    requires AllPlaced(ty, lens, t, root)
    ensures Longest(lens) > 0 ==> Rev(EndCode(lens, Longest(lens)), Longest(lens)) == 0
    ensures Longest(lens) > 0 ==> TableFor(ty, lens, t, root)
  {
    hide EndCode, Complete, NotOver, Low, Placed, Lone, Empty, Longest, Rev, Shl;
    var max := Longest(lens);
    LeftOver(lens);
    if max > 0 {
      CompleteAtLongest(lens);
      JoinBits(0, max, 1);
      Pow2Shl(0, max);
      RevLow(Pow2(max), max);
      RevZero(max);
    }
  }

  lemma FinishLone(ty: CodeType, lens: seq<nat>, t: seq<Code>, s: nat)
    requires ValidLens(lens) && |lens| <= Symbols(ty) && ty != CODES && LoneAt(lens, s)
    requires AllPlaced(ty, lens, t, 1)
    ensures Rev(EndCode(lens, 1), 1) == 1
    ensures TableFor(ty, lens, t[1 := INVALID], 1)
  {
    CountLone(lens, s);
    assert FirstCode(lens, 1) == 0;
    LoneMatches(lens, s, 0);
    var t' := t[1 := INVALID];
    assert Placed(ty, lens, t, 1, s);
    assert Placed(ty, lens, t', 1, s) by {
      forall k | 0 <= k < Pow2(1) && Low(k, 1) == Huff(lens, s) ensures t'[0 + k] == Entry(ty, s, 1) {
        assert t[0 + k] == Entry(ty, s, 1);
      }
    }
    LeftOver(lens);
    assert !Empty(lens);
    assert Lone(lens);
  }

  /** The room that the caller provides at `table[start..]`. */
  ghost predicate RoomGiven(ty: CodeType, lens: seq<nat>, bits: nat, start: nat, table: array<Code>) {
    if ty == CODES then 0 < bits && start + Pow2(bits) <= table.Length && forall s :: 0 <= s < |lens| ==>
      lens[s] <= bits
    else start + Room(ty) <= table.Length
  }

  lemma {:induction false} RootFits(ty: CodeType, lens: seq<nat>, bits: nat, start: nat, table: array<Code>, root: nat)
    requires RoomGiven(ty, lens, bits, start, table) && Longest(lens) > 0 && root == RootBits(lens, bits)
    ensures ty == CODES ==> root == Longest(lens) && start + Pow2(root) <= table.Length
  {
    if ty == CODES {
      var s := SymbolAt(lens, Longest(lens), 0);
      Pow2Mono(root, bits);
    }
  }

  /**
   Builds the table for `lens` at `table[start..]`.  The result is 0 and a table,
   -1 for a set of lengths that is not taken, or 1 when it needs too much room.
   */
  method Build(ty: CodeType, lens: seq<nat>, table: array<Code>, start: nat, bits: nat, work: array<nat>)
    returns (ret: int, root: nat, used: nat)
    requires ValidLens(lens) && |lens| <= Symbols(ty) && |lens| <= work.Length
    requires RoomGiven(ty, lens, bits, start, table)
    modifies table, work
    ensures ret == if !Accepted(ty, lens) then -1 else if !Fits(ty, lens, bits) then 1 else 0
    ensures ret == 0 ==> start + used <= table.Length && TableFor(ty, lens, table[start..start + used], root)
    ensures ret == 0 ==> root == RootBits(lens, bits) && used == if Empty(lens) then 2 else Space(lens, root)
    ensures forall j :: 0 <= j < start ==> table[j] == old(table[j])
  {
    hide Complete, NotOver, Lone, Placed, MaxLen, MinLen, Space;
    var count := CountLengths(lens);
    root, used := bits, 0;
    var max, min := BoundLengths(lens, count);
    LeftOver(lens);
    if root > max {
      root := max;
    }
    if max == 0 {
      root := EmptyTable(ty, lens, table, start, bits);
      return 0, root, 2;
    }
    if root < min {
      root := min;
    }
    var left := CheckLengths(lens, count);
    if left < 0 || (left > 0 && (ty == CODES || max != 1)) {
      return -1, root, 0;
    }
    SortSymbols(lens, count, work);
    RootFits(ty, lens, bits, start, table, root);
    ret, used := BuildCodes(ty, lens, table, start, root, min, max, count, work);
  }

  method EmptyTable(ty: CodeType, lens: seq<nat>, table: array<Code>, start: nat, ghost bits: nat) returns (root: nat)
    requires ValidLens(lens) && |lens| <= Symbols(ty) && RoomGiven(ty, lens, bits, start, table) && Empty(lens)
    modifies table
    ensures root == 1 && start + 2 <= table.Length && TableFor(ty, lens, table[start..start + 2], root)
    ensures forall j :: 0 <= j < start ==> table[j] == old(table[j])
  {
    if ty == CODES {
      Pow2Mono(1, bits);
    }
    table[start] := INVALID;
    table[start + 1] := INVALID;
    root := 1;
  }

  /** The part after the set of lengths has been found good and not empty. */
  method BuildCodes(ty: CodeType, lens: seq<nat>, table: array<Code>, start: nat, root: nat, min: nat, max: nat,
                    count: seq<nat>, work: array<nat>)
    returns (ret: int, used: nat)
    requires ValidLens(lens) && NotOver(lens) && |lens| <= Symbols(ty)
    requires 0 < max == Longest(lens) && min == MinLen(lens, max, 1) && min <= root <= max
    requires Complete(lens) || (ty != CODES && max == 1)
    requires |count| == MAX_BITS + 1 && forall b :: 0 <= b <= MAX_BITS ==> count[b] == Count(lens, b)
    requires Sorted(lens, |lens|, work[..])
    requires if ty == CODES then root == max && start + Pow2(root) <= table.Length else start + Room(ty) <= table.Length
    modifies table
    ensures ret == if OverLimit(ty, Space(lens, root)) then 1 else 0
    ensures ret == 0 ==>
      used == Space(lens, root) && start + used <= table.Length
      && TableFor(ty, lens, table[start..start + used], root)
    ensures forall j :: 0 <= j < start ==> table[j] == old(table[j])
  {
    hide Placed, Space, MaxLen, MinLen, Sorted;
    var enough, space, huff := FillTable(ty, lens, table, start, root, min, max, count, work);
    if !enough {
      return 1, 0;
    }
    ghost var t := table[start..start + space];
    if Complete(lens) {
      FinishComplete(ty, lens, t, root);
    } else {
      LeftOver(lens);
      ghost var s: nat :| LoneAt(lens, s);
      FinishLone(ty, lens, t, s);
    }
    if huff != 0 {
      table[start + huff] := INVALID;
      assert table[start..start + space] == t[1 := INVALID];
    }
    return 0, space;
  }
}
