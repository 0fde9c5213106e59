/**
 The facts about canonical codes that make the table filling of
 src/zlib/inftrees.c work: codes taken in canonical order never collide in the
 root table or in a sub-table, all codes below one root entry follow each other,
 and the look-ahead gives them a sub-table that is large enough.
 */
module TableFill {
  import opened Bits
  import opened Canonical
  import opened DecodeTable

  /** Symbol `s` comes before the `i`-th code of length `len`. */
  ghost predicate Earlier(lens: seq<nat>, s: nat, len: nat, i: nat) {
    s < |lens| && lens[s] > 0 && (lens[s] < len || (lens[s] == len && Count(lens[..s], len) < i))
  }

  /** `s` holds the `i`-th code of length `len`. */
  ghost predicate At(lens: seq<nat>, s: nat, len: nat, i: nat) {
    s < |lens| && len > 0 && lens[s] == len && Count(lens[..s], len) == i
  }

  /** The first `root` bits of the code of `s`, as a number: its root entry, not reversed. */
  function RootOf(lens: seq<nat>, s: nat, root: nat): nat
    requires s < |lens| && root <= lens[s]
  {
    Shr(CodeOf(lens, s), lens[s] - root)
  }

  lemma EarlierOrdered(lens: seq<nat>, s: nat, w: nat, len: nat, i: nat)
    requires Earlier(lens, s, len, i) && At(lens, w, len, i)
    ensures lens[s] < len || (lens[s] == len && s < w)
  {
    if lens[s] == len && w <= s {
      CountMono(lens, len, w, s);
    }
  }

  lemma EarlierNext(lens: seq<nat>, s: nat, w: nat, len: nat, i: nat)
    requires At(lens, w, len, i) && Earlier(lens, s, len, i + 1)
    ensures s == w || Earlier(lens, s, len, i)
  {
    if lens[s] == len && Count(lens[..s], len) == i && s != w {
      if s < w {
        CountMono(lens, len, s, w);
      } else {
        CountMono(lens, len, w, s);
      }
    }
  }

  lemma {:induction false} RootIndex(lens: seq<nat>, s: nat, root: nat)
    requires ValidLens(lens) && NotOver(lens) && s < |lens| && 0 < root <= lens[s]
    ensures Low(Huff(lens, s), root) == Rev(RootOf(lens, s, root), root)
    ensures RootOf(lens, s, root) < Pow2(root)
  {
    CodeFits(lens, s);
    RevPrefix(CodeOf(lens, s), lens[s], root);
    ShrBound(CodeOf(lens, s), lens[s] - root, root);
  }

  // ------------------------------------------------- from one code to the next

  lemma RevShl(c: nat, n: nat, d: nat)
    ensures Rev(Shl(c, d), n + d) == Rev(c, n)
  {
    RevSplit(Shl(c, d), d, n);
    ShrShl(c, d);
    RevLow(Shl(c, d), d);
    RevZero(d);
    ShlZero(n);
  }

  lemma {:induction false} RevZero(n: nat)
    ensures Rev(0, n) == 0
  {
    if n > 0 {
      RevZero(n - 1);
      ShlZero(n - 1);
    }
  }

  lemma {:induction false} ShrInc(c: nat, n: nat)
    ensures Shr(c + 1, n) == Shr(c, n) || (Shr(c + 1, n) == Shr(c, n) + 1 && c + 1 == Shl(Shr(c, n) + 1, n))
  {
    if n > 0 {
      if c % 2 == 1 {
        ShrInc(c / 2, n - 1);
      }
    }
  }

  /** `w'` is the symbol after `w` in canonical order. */
  ghost predicate Follows(lens: seq<nat>, w: nat, w': nat) {
    && w < |lens| && w' < |lens| && 1 <= lens[w] <= lens[w']
    && (lens[w] == lens[w'] ==> Count(lens[..w'], lens[w]) == Count(lens[..w], lens[w]) + 1)
    && (lens[w] < lens[w'] ==>
          && Count(lens[..w], lens[w]) + 1 == Count(lens, lens[w])
          && Count(lens[..w'], lens[w']) == 0
          && forall l :: lens[w] < l < lens[w'] ==> Count(lens, l) == 0)
  }

  lemma NextCode(lens: seq<nat>, w: nat, w': nat)
    requires Follows(lens, w, w')
    ensures CodeOf(lens, w') == Shl(CodeOf(lens, w) + 1, lens[w'] - lens[w])
    ensures Huff(lens, w') == Rev(CodeOf(lens, w) + 1, lens[w])
  {
    var d := lens[w'] - lens[w];
    if d > 0 {
      EndCodeGap(lens, lens[w], lens[w'] - 1);
    }
    RevShl(CodeOf(lens, w) + 1, lens[w], d);
  }

  /** Below the root the codes stay at one root entry or move, aligned, to the next one. */
  lemma {:induction false} NextRoot(lens: seq<nat>, w: nat, w': nat, root: nat)
    requires Follows(lens, w, w') && root < lens[w]
    ensures RootOf(lens, w', root) == RootOf(lens, w, root)
         || (RootOf(lens, w', root) == RootOf(lens, w, root) + 1
             && CodeOf(lens, w') == Shl(RootOf(lens, w', root), lens[w'] - root))
  {
    var c, d, n := CodeOf(lens, w), lens[w'] - lens[w], lens[w] - root;
    NextCode(lens, w, w');
    assert RootOf(lens, w', root) == Shr(c + 1, n) by {
      SplitBits(Shl(c + 1, d), d, n);
      ShrShl(c + 1, d);
    }
    ShrInc(c, n);
    if Shr(c + 1, n) == Shr(c, n) + 1 {
      ShlShl(Shr(c, n) + 1, n, d);
    }
  }

  /** The first code longer than the root starts, aligned, at the first free root entry. */
  lemma {:induction false} FirstRoot(lens: seq<nat>, w: nat, w': nat, root: nat)
    requires Follows(lens, w, w') && lens[w] <= root < lens[w']
    ensures RootOf(lens, w', root) == EndCode(lens, root)
    ensures CodeOf(lens, w') == Shl(RootOf(lens, w', root), lens[w'] - root)
  {
    NextCode(lens, w, w');
    EndCodeGap(lens, lens[w], root);
    ShlShl(EndCode(lens, lens[w]), root - lens[w], lens[w'] - root);
    ShrShl(EndCode(lens, root), lens[w'] - root);
  }

  // ------------------------------------------------- size of a sub-table

  /** Every code below root entry `q` is at most as long as the look-ahead finds. */
  lemma {:induction false} SubTableHolds(lens: seq<nat>, root: nat, max: nat, q: nat, l: nat, t: nat)
    requires 0 < root < l <= max && t < |lens| && root < lens[t] <= max && RootOf(lens, t, root) == q
    ensures lens[t] <= SubLen(lens, root, max, q, l)
  {
    var r := SubLen(lens, root, max, q, l);
    if r < lens[t] {
      CodeInRange(lens, t);
      FirstCodeGrows(lens, r, lens[t]);
      ShlMono(Shl(q + 1, r - root), EndCode(lens, r), lens[t] - r);
      ShlShl(q + 1, r - root, lens[t] - r);
      ShrMono(Shl(q + 1, lens[t] - root), CodeOf(lens, t), lens[t] - root);
      ShrShl(q + 1, lens[t] - root);
    }
  }

  /** The look-ahead may start at the first code of root entry `q`. */
  lemma {:induction false} SubLenSkip(lens: seq<nat>, root: nat, max: nat, q: nat, l: nat, len: nat)
    requires 0 < root < l <= len <= max && FirstCode(lens, len) <= Shl(q, len - root)
    ensures SubLen(lens, root, max, q, l) == SubLen(lens, root, max, q, len)
    decreases len - l
  {
    if l < len {
      FirstCodeGrows(lens, l, len);
      ShlShl(q, l - root, len - l);
      ShrMono(Shl(EndCode(lens, l), len - l), Shl(q, len - root), len - l);
      ShrShl(EndCode(lens, l), len - l);
      ShrShl(Shl(q, l - root), len - l);
      ShlAdd(q, 1, l - root);
      Pow2Shl(0, l - root);
      SubLenSkip(lens, root, max, q, l + 1, len);
    }
  }

  // ------------------------------------------------- writes do not collide

  /** The link of a long code: shared with the current sub-table, or to an earlier one. */
  ghost predicate LinkOk(lens: seq<nat>, t: seq<Code>, root: nat, q: int, curr: nat, next: nat, s: nat)
    requires s < |lens| && Pow2(root) <= |t|
  {
    lens[s] > root ==>
      var link := t[Low(Huff(lens, s), root)];
      && RootOf(lens, s, root) <= q
      && link.val >= Pow2(root)
      && (RootOf(lens, s, root) == q ==> link == Code(curr, root, next))
      && (RootOf(lens, s, root) < q ==> link.val + Pow2(link.op) <= next)
  }

  /** `t'` is `t` with `e` written at the indices from `at` that end in the `l` bits `h`. */
  ghost predicate Wrote(t: seq<Code>, t': seq<Code>, at: nat, n: nat, l: nat, h: nat, e: Code) {
    && |t'| == |t| && at + Pow2(n) <= |t|
    && (forall k :: 0 <= k < Pow2(n) ==> t'[at + k] == if Low(k, l) == h then e else t[at + k])
    && (forall j :: 0 <= j < |t| && !(at <= j < at + Pow2(n)) ==> t'[j] == t[j])
  }

  lemma FilledByWrite(t: seq<Code>, t': seq<Code>, at: nat, n: nat, l: nat, h: nat, e: Code)
    requires Wrote(t, t', at, n, l, h, e)
    ensures Filled(t', at, n, l, h, e)
  {
  }

  lemma {:induction false} FilledApart(t: seq<Code>, t': seq<Code>, at: nat, n: nat, l: nat, h: nat, e: Code, l': nat,
                                       h': nat, e': Code)
    requires Wrote(t, t', at, n, l, h, e) && Filled(t, at, n, l', h', e')
    requires l' <= l && Low(h, l') != h'
    ensures Filled(t', at, n, l', h', e')
  {
    forall k | 0 <= k < Pow2(n) && Low(k, l') == h' ensures t'[at + k] == e' {
      SplitBits(k, l', l - l');
    }
  }

  lemma {:induction false} FilledSame(t: seq<Code>, t': seq<Code>, at: nat, n: nat, l: nat, h: nat, e: Code)
    requires at + Pow2(n) <= |t| && at + Pow2(n) <= |t'| && Filled(t, at, n, l, h, e)
    requires forall k :: at <= k < at + Pow2(n) && Low(k - at, l) == h ==> t'[k] == t[k]
    ensures Filled(t', at, n, l, h, e)
  {
    forall k | 0 <= k < Pow2(n) && Low(k, l) == h ensures t'[at + k] == e {
      assert t[at + k] == e;
      assert Low(at + k - at, l) == h;
    }
  }

  lemma KeepRoot(ty: CodeType, lens: seq<nat>, t: seq<Code>, t': seq<Code>, root: nat, w: nat, e: Code, s: nat)
    requires ValidLens(lens) && NotOver(lens) && |lens| <= Symbols(ty) && w < |lens| && s < |lens|
    requires 1 <= lens[s] <= lens[w] <= root && (lens[s] == lens[w] ==> s < w)
    requires Wrote(t, t', 0, root, lens[w], Huff(lens, w), e)
    requires Placed(ty, lens, t, root, s)
    ensures Placed(ty, lens, t', root, s)
  {
    PrefixFreeOrdered(lens, s, w);
    FilledApart(t, t', 0, root, lens[w], Huff(lens, w), e, lens[s], Huff(lens, s), Entry(ty, s, lens[s]));
  }

  /** The codes of two symbols with the same root entry differ below the root. */
  lemma {:induction false} DifferBelowRoot(lens: seq<nat>, root: nat, w: nat, s: nat)
    requires ValidLens(lens) && NotOver(lens) && w < |lens| && s < |lens|
    requires 0 < root < lens[s] <= lens[w] && (lens[s] == lens[w] ==> s < w)
    requires RootOf(lens, s, root) == RootOf(lens, w, root)
    ensures Low(Shr(Huff(lens, w), root), lens[s] - root) != Shr(Huff(lens, s), root)
  {
    RootIndex(lens, s, root);
    RootIndex(lens, w, root);
    PrefixFreeOrdered(lens, s, w);
    SplitBits(Huff(lens, w), root, lens[s] - root);
    CutBits(Huff(lens, s), root);
  }

  lemma {:induction false} KeepSub(ty: CodeType, lens: seq<nat>, t: seq<Code>, t': seq<Code>, root: nat,
                                   curr: nat, next: nat, w: nat, e: Code, s: nat)
    requires ValidLens(lens) && NotOver(lens) && |lens| <= Symbols(ty) && w < |lens| && s < |lens|
    requires 1 <= lens[s] <= lens[w] && (lens[s] == lens[w] ==> s < w) && 0 < root < lens[w]
    requires Pow2(root) <= next && Wrote(t, t', next, curr, lens[w] - root, Shr(Huff(lens, w), root), e)
    requires Placed(ty, lens, t, root, s) && LinkOk(lens, t, root, RootOf(lens, w, root), curr, next, s)
    ensures Placed(ty, lens, t', root, s) && LinkOk(lens, t', root, RootOf(lens, w, root), curr, next, s)
  {
    hide Huff, Entry, NotOver, Low, Shr;
    if lens[s] <= root {
      FilledSame(t, t', 0, root, lens[s], Huff(lens, s), Entry(ty, s, lens[s]));
    } else {
      var link := t[Low(Huff(lens, s), root)];
      var l, h, e' := lens[s] - root, Shr(Huff(lens, s), root), Entry(ty, s, lens[s] - root);
      if RootOf(lens, s, root) < RootOf(lens, w, root) {
        FilledSame(t, t', link.val, link.op, l, h, e');
      } else {
        DifferBelowRoot(lens, root, w, s);
        FilledApart(t, t', next, curr, lens[w] - root, Shr(Huff(lens, w), root), e, l, h, e');
      }
    }
  }

  lemma {:induction false} KeepLink(ty: CodeType, lens: seq<nat>, t: seq<Code>, t': seq<Code>, root: nat,
                                    q: int, curr: nat, next: nat, curr': nat, w: nat, s: nat)
    requires ValidLens(lens) && NotOver(lens) && |lens| <= Symbols(ty) && w < |lens| && s < |lens|
    requires 1 <= lens[s] <= lens[w] && (lens[s] == lens[w] ==> s < w) && 0 < root < lens[w]
    requires Pow2(root) <= next + Pow2(curr) == |t| <= |t'| && q < RootOf(lens, w, root)
    requires forall j :: 0 <= j < |t| && j != Low(Huff(lens, w), root) ==> t'[j] == t[j]
    requires Placed(ty, lens, t, root, s) && LinkOk(lens, t, root, q, curr, next, s)
    ensures Placed(ty, lens, t', root, s) && LinkOk(lens, t', root, RootOf(lens, w, root), curr', |t|, s)
  {
    if lens[s] <= root {
      NotTheRootEntryShort(lens, root, w, s);
      FilledSame(t, t', 0, root, lens[s], Huff(lens, s), Entry(ty, s, lens[s]));
    } else {
      NotTheRootEntryLong(lens, root, w, s);
      var link := t[Low(Huff(lens, s), root)];
      FilledSame(t, t', link.val, link.op, lens[s] - root, Shr(Huff(lens, s), root), Entry(ty, s, lens[s] - root));
    }
  }

  /** A code that fits in the root does not match the root entry of a later, longer code. */
  lemma {:induction false} NotTheRootEntryShort(lens: seq<nat>, root: nat, w: nat, s: nat)
    requires ValidLens(lens) && NotOver(lens) && w < |lens| && s < |lens|
    requires 1 <= lens[s] <= root < lens[w]
    ensures Low(Low(Huff(lens, w), root), lens[s]) != Huff(lens, s)
    ensures Low(Huff(lens, w), root) < Pow2(root)
  {
    PrefixFreeOrdered(lens, s, w);
    SplitBits(Huff(lens, w), lens[s], root - lens[s]);
  }

  lemma {:induction false} NotTheRootEntryLong(lens: seq<nat>, root: nat, w: nat, s: nat)
    requires ValidLens(lens) && NotOver(lens) && w < |lens| && s < |lens|
    requires 0 < root < lens[s] && root < lens[w] && RootOf(lens, s, root) < RootOf(lens, w, root)
    ensures Low(Huff(lens, s), root) != Low(Huff(lens, w), root)
    ensures Low(Huff(lens, w), root) < Pow2(root)
  {
    RootIndex(lens, w, root);
    RootIndex(lens, s, root);
    if Low(Huff(lens, s), root) == Low(Huff(lens, w), root) {
      RevInjective(RootOf(lens, s, root), RootOf(lens, w, root), root);
    }
  }

  // ------------------------------------------------- one code after another

  /**
   The table when the codes before the `i`-th one of length `len` are in: a root
   table alone (`q < 0`), or the sub-table of root entry `q` being filled, `curr`
   index bits wide, at offset `next`.
   */
  ghost predicate Filling(ty: CodeType, lens: seq<nat>, t: seq<Code>, root: nat, len: nat, i: nat, q: int, curr: nat,
                          next: nat) {
    && ValidLens(lens) && NotOver(lens) && |lens| <= Symbols(ty) && 0 < root <= MAX_BITS && curr <= MAX_BITS
    && |t| == next + Pow2(curr) && Pow2(root) <= |t|
    && (q < 0 ==> next == 0 && curr == root)
    && (q >= 0 ==> next >= Pow2(root))
    && forall s: nat {:trigger Earlier(lens, s, len, i)} :: Earlier(lens, s, len, i) ==>
         Placed(ty, lens, t, root, s) && LinkOk(lens, t, root, q, curr, next, s)
  }

  /** The table being filled is the one that symbol `w` belongs in. */
  ghost predicate Ready(lens: seq<nat>, t: seq<Code>, root: nat, q: int, curr: nat, next: nat, w: nat)
    requires |t| >= Pow2(root)
  {
    && w < |lens| && lens[w] > 0
    && if lens[w] <= root then q < 0
       else q == RootOf(lens, w, root) && 1 <= lens[w] - root <= curr
            && t[Low(Huff(lens, w), root)] == Code(curr, root, next)
  }

  lemma PlaceShort(ty: CodeType, lens: seq<nat>, t: seq<Code>, t': seq<Code>, root: nat, len: nat, i: nat, w: nat)
    requires Filling(ty, lens, t, root, len, i, -1, root, 0) && At(lens, w, len, i) && len <= root
    requires Wrote(t, t', 0, root, len, Huff(lens, w), Entry(ty, w, len))
    ensures Filling(ty, lens, t', root, len, i + 1, -1, root, 0)
  {
    forall s: nat | Earlier(lens, s, len, i + 1)
      ensures Placed(ty, lens, t', root, s) && LinkOk(lens, t', root, -1, root, 0, s)
    {
      EarlierNext(lens, s, w, len, i);
      if s == w {
        FilledByWrite(t, t', 0, root, len, Huff(lens, w), Entry(ty, w, len));
      } else {
        EarlierOrdered(lens, s, w, len, i);
        KeepRoot(ty, lens, t, t', root, w, Entry(ty, w, len), s);
      }
    }
  }

  lemma {:induction false} PlaceLong(ty: CodeType, lens: seq<nat>, t: seq<Code>, t': seq<Code>, root: nat, len: nat,
                                     i: nat,
                                     q: int, curr: nat, next: nat, w: nat)
    requires Filling(ty, lens, t, root, len, i, q, curr, next) && At(lens, w, len, i) && root < len
    requires Ready(lens, t, root, q, curr, next, w)
    requires Wrote(t, t', next, curr, len - root, Shr(Huff(lens, w), root), Entry(ty, w, len - root))
    ensures Filling(ty, lens, t', root, len, i + 1, q, curr, next)
  {
    hide Huff, NotOver, Complete, Entry, RootOf, ValidLens;
    forall s: nat | Earlier(lens, s, len, i + 1)
      ensures Placed(ty, lens, t', root, s) && LinkOk(lens, t', root, q, curr, next, s)
    {
      EarlierNext(lens, s, w, len, i);
      if s == w {
        FilledByWrite(t, t', next, curr, len - root, Shr(Huff(lens, w), root), Entry(ty, w, len - root));
      } else {
        EarlierOrdered(lens, s, w, len, i);
        KeepSub(ty, lens, t, t', root, curr, next, w, Entry(ty, w, len - root), s);
      }
    }
  }

  lemma {:induction false} LinkStep(ty: CodeType, lens: seq<nat>, t: seq<Code>, t': seq<Code>, root: nat, len: nat,
                                    i: nat,
                                    q: int, curr: nat, next: nat, curr': nat, w: nat)
    requires Filling(ty, lens, t, root, len, i, q, curr, next) && At(lens, w, len, i) && root < len
    requires q < RootOf(lens, w, root) && 1 <= len - root <= curr' <= MAX_BITS && |t'| == |t| + Pow2(curr')
    requires forall j :: 0 <= j < |t| && j != Low(Huff(lens, w), root) ==> t'[j] == t[j]
    requires t'[Low(Huff(lens, w), root)] == Code(curr', root, |t|)
    ensures Filling(ty, lens, t', root, len, i, RootOf(lens, w, root), curr', |t|)
    ensures Ready(lens, t', root, RootOf(lens, w, root), curr', |t|, w)
  {
    forall s: nat | Earlier(lens, s, len, i)
      ensures Placed(ty, lens, t', root, s) && LinkOk(lens, t', root, RootOf(lens, w, root), curr', |t|, s)
    {
      EarlierOrdered(lens, s, w, len, i);
      KeepLink(ty, lens, t, t', root, q, curr, next, curr', w, s);
    }
  }

  lemma FillingJump(ty: CodeType, lens: seq<nat>, t: seq<Code>, root: nat, q: int, curr: nat,
                    next: nat, w: nat, w': nat)
    requires Follows(lens, w, w') && Filling(ty, lens, t, root, lens[w], Count(lens[..w], lens[w]) + 1, q, curr, next)
    ensures Filling(ty, lens, t, root, lens[w'], Count(lens[..w'], lens[w']), q, curr, next)
  {
    forall s: nat | Earlier(lens, s, lens[w'], Count(lens[..w'], lens[w']))
      ensures Earlier(lens, s, lens[w], Count(lens[..w], lens[w]) + 1)
    {
      CodeInRange(lens, s);
    }
  }

  /** When the next code has the same root entry, its sub-table is already open and wide enough. */
  lemma ReadyStays(ty: CodeType, lens: seq<nat>, t: seq<Code>, root: nat, max: nat, q: int,
                   curr: nat, next: nat, w: nat, w': nat)
    requires Follows(lens, w, w') && Filling(ty, lens, t, root, lens[w], Count(lens[..w], lens[w]) + 1, q, curr, next)
    requires root < lens[w] && lens[w'] <= max && root < max
    requires 0 <= q == RootOf(lens, w, root) && root + curr == SubLen(lens, root, max, q, root + 1)
    requires Low(Huff(lens, w'), root) == Rev(q, root)
    ensures Ready(lens, t, root, q, curr, next, w')
  {
    RootIndex(lens, w, root);
    RootIndex(lens, w', root);
    RevInjective(RootOf(lens, w', root), q, root);
    SubTableHolds(lens, root, max, q, root + 1, w');
    assert Earlier(lens, w, lens[w], Count(lens[..w], lens[w]) + 1);
  }

  lemma {:induction false} ShrOnes(n: nat, r: nat)
    ensures Shr(Pow2(n + r) - 1, n) == Pow2(r) - 1
  {
    if n > 0 {
      ShrOnes(n - 1, r);
    }
  }

  lemma CompleteAtLongest(lens: seq<nat>)
    requires Complete(lens) && Longest(lens) > 0
    ensures EndCode(lens, Longest(lens)) == Pow2(Longest(lens))
  {
    var max := Longest(lens);
    EndCodeGap(lens, max, MAX_BITS);
    Pow2Shl(max, MAX_BITS - max);
    ShrShl(EndCode(lens, max), MAX_BITS - max);
    ShrShl(Pow2(max), MAX_BITS - max);
  }

  /** The last code of a complete set is all ones, and so is its root entry. */
  lemma {:induction false} LastRoot(lens: seq<nat>, w: nat, root: nat)
    requires Complete(lens) && w < |lens| && lens[w] == Longest(lens) && 0 < root <= lens[w]
    requires Count(lens[..w], lens[w]) + 1 == Count(lens, lens[w])
    ensures RootOf(lens, w, root) == Pow2(root) - 1
  {
    hide FirstCode, Count, Shr, Complete, Longest;
    CompleteAtLongest(lens);
    ShrOnes(lens[w] - root, root);
  }
}
