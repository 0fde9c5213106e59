/** Following a hash chain for the longest match: `longest_match` of src/zlib/deflate.c. */
module LongestMatch {
  import opened HashChains

  /** The tuning of a compression level. */
  datatype Tuning = Tuning(goodMatch: nat, niceMatch: nat, maxChain: nat, maxLazy: nat, maxInsert: nat)

  predicate Agree(window: seq<nat>, a: nat, b: nat, k: nat) {
    a + k < |window| && b + k < |window| && window[a + k] == window[b + k]
  }

  /** The strings of length `len` at `a` and `b` are the same. */
  ghost predicate Same(window: seq<nat>, a: nat, b: nat, len: nat) {
    forall k :: 0 <= k < len ==> Agree(window, a, b, k)
  }

  /** `m` is a match of length `len` for the string at `strstart`, within reach. */
  ghost predicate Match(p: Params, window: seq<nat>, m: nat, strstart: nat, len: nat)
    requires p.Valid()
  {
    0 < m < strstart && strstart - m <= p.MaxDist() && len <= MAX_MATCH && strstart + len <= |window|
      && Same(window, m, strstart, len)
  }

  ghost predicate Bytes(window: seq<nat>, end: nat)
    requires end <= |window|
  {
    forall i :: 0 <= i < end ==> window[i] < 256
  }

  /** The unrolled comparison: the first three bytes are known to be equal. */
  method Compare(window: seq<nat>, m: nat, strstart: nat) returns (len: nat)
    requires m < strstart && strstart + MAX_MATCH < |window| && Same(window, m, strstart, 3)
    ensures 3 <= len <= MAX_MATCH && Same(window, m, strstart, len)
    ensures len < MAX_MATCH ==> window[m + len] != window[strstart + len]
  {
    var scan, match_ := strstart + 2, m + 2;
    var strend := strstart + MAX_MATCH;
    while scan < strend
      invariant strstart + 2 <= scan <= strend && scan - strstart == match_ - m
      invariant Same(window, m, strstart, scan - strstart)
      invariant (scan < strend ==> Agree(window, m, strstart, scan - strstart))
      decreases strend - scan
    {
      assert Agree(window, m, strstart, scan - strstart);
      scan, match_ := scan + 1, match_ + 1;
      if window[scan] != window[match_] {
        break;
      }
    }
    len := MAX_MATCH - (strend - scan);
  }

  /** A member of the chain whose first two bytes are right has the third one right, too. */
  lemma ThirdByte(p: Params, window: seq<nat>, ins: set<nat>, strstart: nat, m: nat, end: nat)
    requires p.Valid() && end <= |window| && Bytes(window, end) && strstart + 3 <= end && m != 0
    requires Earlier(p, window, ins, HashAt(p, window, strstart), strstart, m)
    requires window[m] == window[strstart] && window[m + 1] == window[strstart + 1]
    ensures Same(window, m, strstart, 3)
  {
    HashThird(p, window[m], window[m + 1], window[m + 2], window[strstart + 2]);
    assert Agree(window, m, strstart, 0) && Agree(window, m, strstart, 1) && Agree(window, m, strstart, 2);
  }

  /** The next member is on the chain as well, and further back. */
  lemma ChainNext(p: Params, window: seq<nat>, head: seq<nat>, prev: seq<nat>, ins: set<nat>,
                  strstart: nat, m: nat, end: nat)
    requires Chains(p, window, head, prev, ins, strstart + 1, end) && strstart + 2 < |window| && m != 0
    requires Earlier(p, window, ins, HashAt(p, window, strstart), strstart, m) && strstart - m <= p.MaxDist()
    ensures var n := prev[m % p.wsize];
      && n < m && OnChain(p, window, ins, HashAt(p, window, strstart), m, n)
      && Earlier(p, window, ins, HashAt(p, window, strstart), strstart, n)
  {
    hide HashAt;
    assert Hashed(p, window, ins, HashAt(p, window, strstart), m);
    hide OnChain, Hashed, Earlier;
    assert m + p.wsize >= strstart + 1;
    assert OnChain(p, window, ins, HashAt(p, window, m), m, prev[m % p.wsize]);
  }

  /** `--chain_length`, in 32 bits. */
  function Less(n: nat): nat {
    if n == 0 then 0xffffffff else n - 1
  }

  // ------------------------------------------------- the members that are looked at

  /** The `k`-th member of the chain that begins at `m`. */
  function Member(p: Params, prev: seq<nat>, m: nat, k: nat): nat
    requires p.Valid() && |prev| == p.wsize
    decreases k
  {
    if k == 0 then m else prev[Member(p, prev, m, k - 1) % p.wsize]
  }

  /** The chain ends where it leads this far down. */
  function Limit(p: Params, strstart: nat): nat
    requires p.Valid()
  {
    if strstart > p.MaxDist() then strstart - p.MaxDist() else 0
  }

  /** How many members are looked at, at most; a count of zero wraps around. */
  function Budget(tuning: Tuning, prevLength: nat): nat {
    var chain := if prevLength >= tuning.goodMatch then tuning.maxChain / 4 else tuning.maxChain;
    if chain == 0 then 0x1_0000_0000 else chain
  }

  /**
   None of the first `n` members agrees with the string at `strstart` in `k` bytes, for any `k` above `len` up to
   `cap`.
  */
  ghost predicate NoneLonger(p: Params, window: seq<nat>, prev: seq<nat>, head0: nat, n: nat, strstart: nat, len: nat,
                             cap: nat)
    requires p.Valid() && |prev| == p.wsize
  {
    forall i: nat, k: nat :: i < n && len < k <= cap ==> !Same(window, Member(p, prev, head0, i), strstart, k)
  }

  lemma {:induction false} NoneLongerNext(p: Params, window: seq<nat>, prev: seq<nat>, head0: nat, n: nat,
                                          strstart: nat, best: nat, best': nat, cap: nat)
    requires p.Valid() && |prev| == p.wsize && NoneLonger(p, window, prev, head0, n, strstart, best, cap)
    requires best <= best'
    requires forall k: nat :: best' < k <= cap ==> !Same(window, Member(p, prev, head0, n), strstart, k)
    ensures NoneLonger(p, window, prev, head0, n + 1, strstart, best', cap)
  {
    hide Same, Member;
  }

  lemma NoneLongerCapped(p: Params, window: seq<nat>, prev: seq<nat>, head0: nat, n: nat,
                         strstart: nat, best: nat, cap: nat)
    requires p.Valid() && |prev| == p.wsize && NoneLonger(p, window, prev, head0, n, strstart, best, MAX_MATCH)
    requires cap <= MAX_MATCH
    ensures NoneLonger(p, window, prev, head0, n, strstart, if best <= cap then best else cap, cap)
  {
    hide Same, Member;
  }

  lemma Nearest(p: Params, window: seq<nat>, prev: seq<nat>, head0: nat, n: nat, strstart: nat, prior: nat, len: int,
                cap: nat)
    requires p.Valid() && |prev| == p.wsize && cap <= MAX_MATCH
    requires NoneLonger(p, window, prev, head0, n, strstart, prior, MAX_MATCH)
    ensures prior <= len ==> NoneLonger(p, window, prev, head0, n, strstart, len, cap)
  {
    hide Same, Member;
  }

  lemma Mismatch(window: seq<nat>, m: nat, strstart: nat, at: nat)
    requires !Agree(window, m, strstart, at)
    ensures forall k: nat :: at < k ==> !Same(window, m, strstart, k)
  {
  }

  /** Looks at one member: the best length so far, if this one is not longer. */
  method Look(p: Params, window: seq<nat>, strstart: nat, lookahead: nat, m: nat, best: nat,
              ghost ins: set<nat>) returns (best': nat)
    requires p.Valid() && strstart + lookahead <= |window| && Bytes(window, strstart + lookahead)
    requires lookahead >= MIN_MATCH && strstart + MIN_LOOKAHEAD <= |window| && 1 <= best <= MAX_MATCH
    requires Earlier(p, window, ins, HashAt(p, window, strstart), strstart, m) && 0 < m < strstart
    requires strstart - m <= p.MaxDist()
    ensures best <= best' <= MAX_MATCH && (best' > best ==> Match(p, window, m, strstart, best'))
    ensures forall k: nat :: best' < k <= MAX_MATCH ==> !Same(window, m, strstart, k)
  {
    hide Earlier, HashAt, Same;
    best' := best;
    if window[m + best] != window[strstart + best] {
      Mismatch(window, m, strstart, best);
    } else if window[m + best - 1] != window[strstart + best - 1] {
      Mismatch(window, m, strstart, best - 1);
    } else if window[m] != window[strstart] {
      Mismatch(window, m, strstart, 0);
    } else if window[m + 1] != window[strstart + 1] {
      Mismatch(window, m, strstart, 1);
    } else {
      ThirdByte(p, window, ins, strstart, m, strstart + lookahead);
      var n := Compare(window, m, strstart);
      if n < MAX_MATCH {
        Mismatch(window, m, strstart, n);
      }
      if n > best {
        best' := n;
      }
    }
  }

  /**
   The longest match on the chain from `head0`, or something no longer than `prevLength`:
   nothing longer is found at any of the members looked at, which are all of the chain
   within reach, unless the budget is spent or the match is good enough before.  The third
   byte is never compared.
   */
  method Longest(p: Params, tuning: Tuning, window: seq<nat>, prev: seq<nat>, strstart: nat, lookahead: nat,
                 prevLength: nat, head0: nat,
                 ghost head: seq<nat>, ghost ins: set<nat>)
    returns (len: nat, matchStart: nat, ghost looked: nat, ghost found: nat)
    requires Chains(p, window, head, prev, ins, strstart + 1, strstart + lookahead)
    requires Bytes(window, strstart + lookahead)
    requires lookahead >= MIN_MATCH && strstart + MIN_LOOKAHEAD <= |window| && 1 <= prevLength <= MAX_MATCH
    requires OnChain(p, window, ins, HashAt(p, window, strstart), strstart, head0) && head0 != 0
    requires strstart - head0 <= p.MaxDist()
    ensures len <= lookahead && len <= MAX_MATCH && (len >= prevLength || len == lookahead)
    ensures len > prevLength ==> Match(p, window, matchStart, strstart, len)
    ensures |prev| == p.wsize && NoneLonger(p, window, prev, head0, looked, strstart, len, Min(lookahead, MAX_MATCH))
    ensures len > prevLength ==>
      && found < looked && matchStart == Member(p, prev, head0, found)
      && NoneLonger(p, window, prev, head0, found, strstart, len - 1, Min(lookahead, MAX_MATCH))
    ensures forall i: nat :: 0 < i < looked ==> Member(p, prev, head0, i) > Limit(p, strstart)
    ensures 1 <= looked <= Budget(tuning, prevLength)
    ensures looked == Budget(tuning, prevLength) || Member(p, prev, head0, looked) <= Limit(p, strstart)
      || len >= Min(tuning.niceMatch, lookahead)
  {
    hide Chains, OnChain, Earlier, HashAt, Same, NoneLonger, Member;
    assert Earlier(p, window, ins, HashAt(p, window, strstart), strstart, head0) by {
      IsEarlier(p, window, ins, HashAt(p, window, strstart), strstart, head0);
    }
    ChainSizes(p, window, head, prev, ins, strstart + 1, strstart + lookahead);
    var chain, best, nice, curMatch: nat := tuning.maxChain, prevLength, tuning.niceMatch, head0;
    InChain(p, window, ins, strstart, head0);
    var limit := Limit(p, strstart);
    if prevLength >= tuning.goodMatch {
      chain := chain / 4;
    }
    if nice > lookahead {
      nice := lookahead;
    }
    matchStart, looked, found := 0, 0, 0;
    ghost var prior := best;     // the best length before the last one found
    MemberFirst(p, prev, head0);
    NoneYet(p, window, prev, head0, strstart, best);
    var more := true;
    while more
      invariant 1 <= best <= MAX_MATCH && prevLength <= best
      invariant best > prevLength ==> Match(p, window, matchStart, strstart, best)
      invariant best > prevLength ==>
        && found < looked && matchStart == Member(p, prev, head0, found) && prior < best
        && NoneLonger(p, window, prev, head0, found, strstart, prior, MAX_MATCH)
      invariant (prior == prevLength || prior < nice) && (more ==> best == prevLength || best < nice)
      invariant Earlier(p, window, ins, HashAt(p, window, strstart), strstart, curMatch)
      invariant more ==> curMatch != 0 && curMatch < strstart && strstart - curMatch <= p.MaxDist()
      invariant curMatch == Member(p, prev, head0, looked)
      invariant NoneLonger(p, window, prev, head0, looked, strstart, best, MAX_MATCH)
      invariant looked <= Budget(tuning, prevLength) && (!more ==> looked > 0)
      invariant if looked == 0 then chain
        == (if prevLength >= tuning.goodMatch then tuning.maxChain / 4 else tuning.maxChain)
                else more ==> chain == Budget(tuning, prevLength) - looked && chain > 0
      invariant forall i: nat :: 0 < i < looked ==> Member(p, prev, head0, i) > limit
      invariant more && looked > 0 ==> curMatch > limit
      invariant !more ==> curMatch <= limit || looked == Budget(tuning, prevLength)
      decreases more, curMatch
    {
      InChain(p, window, ins, strstart, curMatch);
      var n := Look(p, window, strstart, lookahead, curMatch, best, ins);
      ghost var before := looked;
      NoneLongerNext(p, window, prev, head0, looked, strstart, best, n, MAX_MATCH);
      MemberNext(p, prev, head0, looked);
      looked := looked + 1;
      ChainNext(p, window, head, prev, ins, strstart, curMatch, strstart + lookahead);
      if n > best {
        prior, found := best, before;
        matchStart, best := curMatch, n;
        if n >= nice {
          break;
        }
      }
      curMatch := prev[curMatch % p.wsize];
      if curMatch > limit {
        chain := Less(chain);
        more := chain != 0;
      } else {
        more := false;
      }
      if more {
        InChain(p, window, ins, strstart, curMatch);
      }
    }
    NoneLongerCapped(p, window, prev, head0, looked, strstart, best, Min(lookahead, MAX_MATCH));
    if best > prevLength {
      Nearest(p, window, prev, head0, found, strstart, prior, (if best <= lookahead then best else lookahead) - 1,
        Min(lookahead, MAX_MATCH));
    }
    if best <= lookahead {
      len := best;
    } else {
      len := lookahead;
      MatchPrefix(p, window, matchStart, strstart, best, lookahead);
    }
  }

  function Min(a: nat, b: nat): nat {
    if a <= b then a else b
  }

  lemma {:induction false} MemberFirst(p: Params, prev: seq<nat>, m: nat)
    requires p.Valid() && |prev| == p.wsize
    ensures Member(p, prev, m, 0) == m
  {
  }

  lemma MemberNext(p: Params, prev: seq<nat>, m: nat, k: nat)
    requires p.Valid() && |prev| == p.wsize
    ensures Member(p, prev, m, k + 1) == prev[Member(p, prev, m, k) % p.wsize]
  {
  }

  lemma NoneYet(p: Params, window: seq<nat>, prev: seq<nat>, head0: nat, strstart: nat, best: nat)
    requires p.Valid() && |prev| == p.wsize
    ensures NoneLonger(p, window, prev, head0, 0, strstart, best, MAX_MATCH)
  {
  }

  lemma ChainSizes(p: Params, window: seq<nat>, head: seq<nat>, prev: seq<nat>, ins: set<nat>, next: nat, end: nat)
    requires Chains(p, window, head, prev, ins, next, end)
    ensures p.Valid() && |prev| == p.wsize && |window| == 2 * p.wsize && end <= |window|
  {
  }

  lemma IsEarlier(p: Params, window: seq<nat>, ins: set<nat>, h: nat, before: nat, j: nat)
    requires OnChain(p, window, ins, h, before, j)
    ensures Earlier(p, window, ins, h, before, j)
  {
  }

  lemma InChain(p: Params, window: seq<nat>, ins: set<nat>, strstart: nat, m: nat)
    requires strstart + 2 < |window| && Earlier(p, window, ins, HashAt(p, window, strstart), strstart, m)
    ensures m != 0 ==> m < strstart
  {
    hide HashAt;
  }

  lemma MatchPrefix(p: Params, window: seq<nat>, m: nat, strstart: nat, len: nat, n: nat)
    requires p.Valid() && n <= len
    ensures Match(p, window, m, strstart, len) ==> Match(p, window, m, strstart, n)
  {
  }
}
