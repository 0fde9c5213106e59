/**
 The search of `longest_match` (src/zlib/deflate.c) said of the text itself: which earlier
 positions are looked at, and what is found.
 */
module MatchSearch {
  import opened HashChains
  import opened LongestMatch

  /** `c` has been entered in the dictionary before, and the string there has the hash of the string at `at`. */
  ghost predicate Candidate(p: Params, text: seq<nat>, dict: set<nat>, at: nat, c: nat) {
    at + 2 < |text| && c in dict && c < at && HashAt(p, text, c) == HashAt(p, text, at)
  }

  /** `looked` are candidates from the nearest one back, and none is left out. */
  ghost predicate LookedAt(p: Params, text: seq<nat>, dict: set<nat>, at: nat, looked: seq<nat>) {
    && looked != []
    && (forall i :: 0 <= i < |looked| ==> Candidate(p, text, dict, at, looked[i]))
    && (forall i, j :: 0 <= i < j < |looked| ==> looked[i] > looked[j])
    && (forall c: nat :: Candidate(p, text, dict, at, c) && c >= looked[|looked| - 1] ==> c in looked)
  }

  /** There is nothing further back within reach. */
  ghost predicate NoMore(p: Params, text: seq<nat>, dict: set<nat>, at: nat, last: nat)
    requires p.Valid()
  {
    forall c: nat :: Candidate(p, text, dict, at, c) && c < last ==> at - c >= p.MaxDist()
  }

  /**
   The search at `at`, where a match of length `held` is already known, looks at `looked`:
   all candidates within reach, unless the budget is spent or a match is good enough
   before.  None of them agrees with the text in more than `len` bytes; if that is more
   than `held`, the one at `start` does, and no nearer one.
   */
  ghost predicate Search(p: Params, tuning: Tuning, text: seq<nat>, dict: set<nat>, at: nat, held: nat, len: nat,
                         start: int, looked: seq<nat>)
    requires p.Valid() && at + 2 < |text|
  {
    var cap := Min(|text| - at, MAX_MATCH);
    && LookedAt(p, text, dict, at, looked)
    && at - looked[0] <= p.MaxDist() && (forall i :: 0 < i < |looked| ==> at - looked[i] < p.MaxDist())
    && |looked| <= Budget(tuning, held) && len <= cap && (len >= held || len == |text| - at)
    && (forall i, k: nat :: 0 <= i < |looked| && len < k <= cap ==> !Same(text, looked[i], at, k))
    && (len > held ==>
          && 0 <= start && start in looked && Same(text, start, at, len)
          && forall i :: 0 <= i < |looked| && looked[i] > start ==> !Same(text, looked[i], at, len))
    && (|looked| == Budget(tuning, held) || len >= Min(tuning.niceMatch, |text| - at)
        || NoMore(p, text, dict, at, looked[|looked| - 1]))
  }

  /** No candidate is near enough for a match. */
  ghost predicate OutOfReach(p: Params, text: seq<nat>, dict: set<nat>, at: nat)
    requires p.Valid()
  {
    forall c: nat :: Candidate(p, text, dict, at, c) ==> at - c > p.MaxDist()
  }

  // ------------------------------------------------- the chain in the window

  lemma OnChainFacts(p: Params, window: seq<nat>, ins: set<nat>, h: nat, before: nat, j: nat)
    requires OnChain(p, window, ins, h, before, j)
    ensures j != 0 ==> j < before && Hashed(p, window, ins, h, j)
    ensures forall i :: j < i < before ==> !Hashed(p, window, ins, h, i)
    ensures j < before ==> Earlier(p, window, ins, h, before, j)
  {
  }

  lemma IsEarlierStill(p: Params, window: seq<nat>, ins: set<nat>, h: nat, before: nat, j: nat)
    requires j < before && Hashed(p, window, ins, h, j)
    ensures Earlier(p, window, ins, h, before, j)
  {
  }

  /** The first `n` members of the chain are the positions above the next one that have the hash. */
  ghost predicate Members(p: Params, window: seq<nat>, prev: seq<nat>, ins: set<nat>, strstart: nat, h: nat,
                          head0: nat, n: nat)
    requires p.Valid() && |prev| == p.wsize
  {
    && (forall i: nat :: i < n ==> Within(p, window, ins, strstart, h, Member(p, prev, head0, i)))
    && (forall i: nat, j: nat :: i < j <= n ==> Member(p, prev, head0, i) > Member(p, prev, head0, j))
    && (forall c: nat :: Member(p, prev, head0, n) < c < strstart && Hashed(p, window, ins, h, c) ==>
          exists i: nat :: i < n && Member(p, prev, head0, i) == c)
  }

  ghost predicate Within(p: Params, window: seq<nat>, ins: set<nat>, strstart: nat, h: nat, m: nat)
    requires p.Valid()
  {
    Hashed(p, window, ins, h, m) && 0 < m < strstart && strstart - m <= p.MaxDist()
  }

  lemma NoMembers(p: Params, window: seq<nat>, prev: seq<nat>, ins: set<nat>, strstart: nat, h: nat, head0: nat)
    requires p.Valid() && |prev| == p.wsize && OnChain(p, window, ins, h, strstart, head0)
    ensures Members(p, window, prev, ins, strstart, h, head0, 0)
  {
    hide HashAt, Hashed;
    MemberFirst(p, prev, head0);
  }

  lemma OneMember(p: Params, window: seq<nat>, prev: seq<nat>, ins: set<nat>, strstart: nat, h: nat, head0: nat, n: nat)
    requires p.Valid() && |prev| == p.wsize && Members(p, window, prev, ins, strstart, h, head0, n)
    requires Within(p, window, ins, strstart, h, Member(p, prev, head0, n))
    requires OnChain(p, window, ins, h, Member(p, prev, head0, n), Member(p, prev, head0, n + 1))
    ensures Members(p, window, prev, ins, strstart, h, head0, n + 1)
  {
    hide HashAt, Hashed, Member, OnChain;
    var m, next := Member(p, prev, head0, n), Member(p, prev, head0, n + 1);
    OnChainFacts(p, window, ins, h, m, next);
    forall i: nat, j: nat | i < j <= n + 1 ensures Member(p, prev, head0, i) > Member(p, prev, head0, j) {
      if j == n + 1 && i < n {
        assert Member(p, prev, head0, i) > m;
      }
    }
    forall c: nat | next < c < strstart && Hashed(p, window, ins, h, c)
      ensures exists i: nat :: i < n + 1 && Member(p, prev, head0, i) == c
    {
      assert c >= m;
      if c > m {
        var i: nat :| i < n && Member(p, prev, head0, i) == c;
      }
    }
  }

  /** The members of a chain are all positions with the hash, from the nearest one back. */
  lemma {:induction false} MembersAll(p: Params, window: seq<nat>, head: seq<nat>, prev: seq<nat>, ins: set<nat>,
                                      strstart: nat, end: nat, head0: nat, n: nat)
    requires Chains(p, window, head, prev, ins, strstart + 1, end) && strstart + 2 < |window|
    requires OnChain(p, window, ins, HashAt(p, window, strstart), strstart, head0) && head0 != 0
    requires strstart - head0 <= p.MaxDist()
    requires forall i: nat :: 0 < i < n ==> Member(p, prev, head0, i) > Limit(p, strstart)
    ensures Members(p, window, prev, ins, strstart, HashAt(p, window, strstart), head0, n)
    ensures n > 0 ==> OnChain(p, window, ins, HashAt(p, window, strstart), Member(p, prev, head0, n - 1),
                              Member(p, prev, head0, n))
    decreases n
  {
    hide Chains, HashAt, Hashed, OnChain, Earlier, Member, Members;
    var h := HashAt(p, window, strstart);
    ChainSizes(p, window, head, prev, ins, strstart + 1, end);
    if n == 0 {
      NoMembers(p, window, prev, ins, strstart, h, head0);
    } else {
      var m := Member(p, prev, head0, n - 1);
      MembersAll(p, window, head, prev, ins, strstart, end, head0, n - 1);
      if n == 1 {
        MemberFirst(p, prev, head0);
        OnChainFacts(p, window, ins, h, strstart, head0);
      } else {
        OnChainFacts(p, window, ins, h, Member(p, prev, head0, n - 2), m);
        AboveIs(p, window, prev, ins, strstart, h, head0, n - 1);
      }
      assert Within(p, window, ins, strstart, h, m);
      IsEarlierStill(p, window, ins, h, strstart, m);
      ChainNext(p, window, head, prev, ins, strstart, m, end);
      MemberNext(p, prev, head0, n - 1);
      OneMember(p, window, prev, ins, strstart, h, head0, n - 1);
    }
  }

  lemma AboveIs(p: Params, window: seq<nat>, prev: seq<nat>, ins: set<nat>, strstart: nat, h: nat, head0: nat, n: nat)
    requires p.Valid() && |prev| == p.wsize && Members(p, window, prev, ins, strstart, h, head0, n) && n > 0
    ensures Member(p, prev, head0, n) < Member(p, prev, head0, n - 1) < strstart
  {
    hide HashAt, Hashed, Member;
  }

  // ------------------------------------------------- from the window to the text

  /** The window holds the end of the text, from `base` on. */
  ghost predicate Shows(window: seq<nat>, end: nat, text: seq<nat>, base: nat) {
    |text| == base + end && end <= |window| && forall i :: 0 <= i < end ==> window[i] == text[base + i]
  }

  /** The positions entered, as places in the text; place 0 of the window stands for none. */
  ghost function Entered(ins: set<nat>, base: nat): set<nat> {
    set i | i in ins && i > 0 :: base + i
  }

  /** After the window has moved on to `base'`, the places above it are still entered. */
  ghost predicate Retained(ins: set<nat>, base: nat, ins': set<nat>, base': nat) {
    base <= base' && forall c: nat :: c in Entered(ins', base') <==> c in Entered(ins, base) && c > base'
  }

  lemma RetainedSame(ins: set<nat>, base: nat)
    ensures Retained(ins, base, ins, base)
  {
  }

  lemma RetainedThen(ins: set<nat>, base: nat, ins1: set<nat>, base1: nat, ins2: set<nat>, base2: nat)
    requires Retained(ins, base, ins1, base1) && Retained(ins1, base1, ins2, base2)
    ensures Retained(ins, base, ins2, base2)
  {
    hide Entered;
  }

  lemma RetainedSlid(ins: set<nat>, base: nat, w: nat)
    ensures Retained(ins, base, SlidSet(ins, w), base + w)
  {
    forall c: nat ensures c in Entered(SlidSet(ins, w), base + w) <==> c in Entered(ins, base) && c > base + w {
      if c in Entered(ins, base) && c > base + w {
        assert c - base in ins && c - base - w in SlidSet(ins, w);
      }
    }
  }

  lemma TextHash(p: Params, window: seq<nat>, end: nat, text: seq<nat>, base: nat, i: nat)
    requires Shows(window, end, text, base) && i + 3 <= end
    ensures HashAt(p, text, base + i) == HashAt(p, window, i)
  {
    hide Hash;
    assert window[i + 1] == text[base + (i + 1)] && window[i + 2] == text[base + (i + 2)];
  }

  lemma TextSame(window: seq<nat>, end: nat, text: seq<nat>, base: nat, m: nat, at: nat, k: nat)
    requires Shows(window, end, text, base) && m < at && at + k <= end
    ensures Same(text, base + m, base + at, k) <==> Same(window, m, at, k)
  {
    forall i: nat | i < k ensures Agree(text, base + m, base + at, i) <==> Agree(window, m, at, i) {
      assert window[m + i] == text[base + (m + i)] && window[at + i] == text[base + (at + i)];
    }
    if Same(window, m, at, k) {
      var c, q := base + m, base + at;
      forall i | 0 <= i < k ensures Agree(text, c, q, i) {
        assert Agree(window, m, at, i);
      }
    }
    if Same(text, base + m, base + at, k) {
      forall i | 0 <= i < k ensures Agree(window, m, at, i) {
        assert Agree(text, base + m, base + at, i);
      }
    }
  }

  lemma TextCandidate(p: Params, window: seq<nat>, end: nat, text: seq<nat>, base: nat, ins: set<nat>, at: nat, c: nat)
    requires Shows(window, end, text, base) && at + 3 <= end && forall i :: i in ins ==> i + 3 <= end
    ensures Candidate(p, text, Entered(ins, base), base + at, c)
      <==> base < c < base + at && Hashed(p, window, ins, HashAt(p, window, at), c - base)
  {
    hide HashAt;
    TextHash(p, window, end, text, base, at);
    if c > base && c - base in ins {
      TextHash(p, window, end, text, base, c - base);
    }
  }

  function MemberList(p: Params, prev: seq<nat>, head0: nat, n: nat, base: nat): (looked: seq<nat>)
    requires p.Valid() && |prev| == p.wsize
    ensures |looked| == n && forall i :: 0 <= i < n ==> looked[i] == base + Member(p, prev, head0, i)
  {
    seq(n, i requires 0 <= i => base + Member(p, prev, head0, i))
  }

  /** The members of the chain, as places in the text. */
  lemma LookedInText(p: Params, window: seq<nat>, end: nat, text: seq<nat>, base: nat, prev: seq<nat>, ins: set<nat>,
                     at: nat, head0: nat, n: nat)
    requires Shows(window, end, text, base) && at + 3 <= end && (forall i :: i in ins ==> i + 3 <= end) && n > 0
    requires p.Valid() && |prev| == p.wsize
    requires Members(p, window, prev, ins, at, HashAt(p, window, at), head0, n)
    ensures LookedAt(p, text, Entered(ins, base), base + at, MemberList(p, prev, head0, n, base))
  {
    hide HashAt, Hashed, Member, Candidate;
    var h, looked, dict := HashAt(p, window, at), MemberList(p, prev, head0, n, base), Entered(ins, base);
    forall i | 0 <= i < n ensures Candidate(p, text, dict, base + at, looked[i]) {
      assert Within(p, window, ins, at, h, Member(p, prev, head0, i));
      TextCandidate(p, window, end, text, base, ins, at, looked[i]);
    }
    forall i, j | 0 <= i < j < n ensures looked[i] > looked[j] {
      assert Member(p, prev, head0, i) > Member(p, prev, head0, j);
    }
    forall c: nat | Candidate(p, text, dict, base + at, c) && c >= looked[n - 1] ensures c in looked {
      TextCandidate(p, window, end, text, base, ins, at, c);
      assert Member(p, prev, head0, n - 1) > Member(p, prev, head0, n);
      var i: nat :| i < n && Member(p, prev, head0, i) == c - base;
      assert looked[i] == c;
    }
  }

  lemma NoMoreInText(p: Params, window: seq<nat>, end: nat, text: seq<nat>, base: nat, prev: seq<nat>, ins: set<nat>,
                     at: nat, head0: nat, n: nat)
    requires Shows(window, end, text, base) && at + 3 <= end && (forall i :: i in ins ==> i + 3 <= end) && n > 0
    requires p.Valid() && |prev| == p.wsize && Member(p, prev, head0, n) <= Limit(p, at)
    requires OnChain(p, window, ins, HashAt(p, window, at), Member(p, prev, head0, n - 1), Member(p, prev, head0, n))
    ensures NoMore(p, text, Entered(ins, base), base + at, base + Member(p, prev, head0, n - 1))
  {
    hide HashAt, Hashed, Member, Candidate;
    var q, dict, last := base + at, Entered(ins, base), base + Member(p, prev, head0, n - 1);
    forall c: nat | Candidate(p, text, dict, q, c) && c < last ensures q - c >= p.MaxDist() {
      TextCandidate(p, window, end, text, base, ins, at, c);
      OnChainFacts(p, window, ins, HashAt(p, window, at), Member(p, prev, head0, n - 1), Member(p, prev, head0, n));
    }
  }

  lemma NoneLongerInText(p: Params, window: seq<nat>, end: nat, text: seq<nat>, base: nat, prev: seq<nat>, at: nat,
                         head0: nat, n: nat, len: nat, cap: nat, looked: seq<nat>, q: nat)
    requires Shows(window, end, text, base) && at + cap <= end && p.Valid() && |prev| == p.wsize
    requires looked == MemberList(p, prev, head0, n, base) && q == base + at
    requires (forall i: nat :: i < n ==> Member(p, prev, head0, i) < at)
    requires NoneLonger(p, window, prev, head0, n, at, len, cap)
    ensures forall i, k: nat :: 0 <= i < n && len < k <= cap ==> !Same(text, looked[i], q, k)
  {
    hide Same, Member;
    forall i, k: nat | 0 <= i < n && len < k <= cap ensures !Same(text, looked[i], q, k) {
      TextSame(window, end, text, base, Member(p, prev, head0, i), at, k);
    }
  }

  lemma BelowStart(p: Params, window: seq<nat>, prev: seq<nat>, ins: set<nat>, at: nat, h: nat, head0: nat, n: nat)
    requires p.Valid() && |prev| == p.wsize && Members(p, window, prev, ins, at, h, head0, n)
    ensures forall i: nat :: i < n ==>
      0 < Member(p, prev, head0, i) < at && at - Member(p, prev, head0, i) <= p.MaxDist()
    ensures forall i: nat, j: nat :: i < j < n ==> Member(p, prev, head0, i) > Member(p, prev, head0, j)
  {
    hide Member, Hashed, HashAt;
    forall i: nat | i < n ensures 0 < Member(p, prev, head0, i) < at && at - Member(p, prev, head0, i) <= p.MaxDist() {
      assert Within(p, window, ins, at, h, Member(p, prev, head0, i));
    }
  }

  /** The match found is at the nearest member that agrees so far. */
  lemma FoundInText(p: Params, window: seq<nat>, end: nat, text: seq<nat>, base: nat, prev: seq<nat>, at: nat,
                    head0: nat, n: nat, found: nat, len: nat, cap: nat)
    requires Shows(window, end, text, base) && at + cap <= end && p.Valid() && |prev| == p.wsize && found < n
    requires (forall i: nat :: i < n ==> Member(p, prev, head0, i) < at) && 0 < len <= cap
    requires forall i: nat, j: nat :: i < j < n ==> Member(p, prev, head0, i) > Member(p, prev, head0, j)
    requires Same(window, Member(p, prev, head0, found), at, len)
    requires NoneLonger(p, window, prev, head0, found, at, len - 1, cap)
    ensures var looked, start := MemberList(p, prev, head0, n, base), base + Member(p, prev, head0, found);
      && start in looked && Same(text, start, base + at, len)
      && forall i :: 0 <= i < n && looked[i] > start ==> !Same(text, looked[i], base + at, len)
  {
    hide Same, Member;
    var looked, start := MemberList(p, prev, head0, n, base), base + Member(p, prev, head0, found);
    assert looked[found] == start;
    TextSame(window, end, text, base, Member(p, prev, head0, found), at, len);
    forall i | 0 <= i < n && looked[i] > start ensures !Same(text, looked[i], base + at, len) {
      assert i < found;
      TextSame(window, end, text, base, Member(p, prev, head0, i), at, len);
    }
  }

  /** What `longest_match` has found out in the window, said of the text. */
  lemma LongestSearch(p: Params, tuning: Tuning, window: seq<nat>, text: seq<nat>, base: nat, head: seq<nat>,
                      prev: seq<nat>, ins: set<nat>, at: nat, lookahead: nat, held: nat, head0: nat,
                      len: nat, matchStart: nat, n: nat, found: nat) returns (looked: seq<nat>)
    requires Chains(p, window, head, prev, ins, at + 1, at + lookahead) && lookahead >= MIN_MATCH && held >= 1
    requires OnChain(p, window, ins, HashAt(p, window, at), at, head0) && head0 != 0 && at - head0 <= p.MaxDist()
    requires Shows(window, at + lookahead, text, base)
    requires len <= lookahead && len <= MAX_MATCH && (len >= held || len == lookahead)
    requires len > held ==> Match(p, window, matchStart, at, len)
    requires |prev| == p.wsize && NoneLonger(p, window, prev, head0, n, at, len, Min(lookahead, MAX_MATCH))
    requires len > held ==>
      && found < n && matchStart == Member(p, prev, head0, found)
      && NoneLonger(p, window, prev, head0, found, at, len - 1, Min(lookahead, MAX_MATCH))
    requires forall i: nat :: 0 < i < n ==> Member(p, prev, head0, i) > Limit(p, at)
    requires 1 <= n <= Budget(tuning, held)
    requires n == Budget(tuning, held) || Member(p, prev, head0, n) <= Limit(p, at)
      || len >= Min(tuning.niceMatch, lookahead)
    ensures Search(p, tuning, text, Entered(ins, base), base + at, held, len, base + matchStart, looked)
  {
    hide Chains, HashAt, OnChain, Member, Members, NoneLonger, Same, LookedAt, NoMore, MemberList;
    ChainSizes(p, window, head, prev, ins, at + 1, at + lookahead);
    assert forall i :: i in ins ==> i + 3 <= at + lookahead by {
      InsBound(p, window, head, prev, ins, at + 1, at + lookahead);
    }
    var h := HashAt(p, window, at);
    looked := MemberList(p, prev, head0, n, base);
    MembersAll(p, window, head, prev, ins, at, at + lookahead, head0, n);
    BelowStart(p, window, prev, ins, at, h, head0, n);
    LookedInText(p, window, at + lookahead, text, base, prev, ins, at, head0, n);
    NoneLongerInText(p, window, at + lookahead, text, base, prev, at, head0, n, len, Min(lookahead, MAX_MATCH),
                     looked, base + at);
    MemberFirst(p, prev, head0);
    if len > held {
      FoundInText(p, window, at + lookahead, text, base, prev, at, head0, n, found, len, Min(lookahead, MAX_MATCH));
    }
    if Member(p, prev, head0, n) <= Limit(p, at) {
      NoMoreInText(p, window, at + lookahead, text, base, prev, ins, at, head0, n);
    }
    assert |text| - (base + at) == lookahead;
    forall i | 0 <= i < n ensures looked[i] == base + Member(p, prev, head0, i) {
    }
  }

  lemma InsBound(p: Params, window: seq<nat>, head: seq<nat>, prev: seq<nat>, ins: set<nat>, next: nat, end: nat)
    requires Chains(p, window, head, prev, ins, next, end)
    ensures forall i :: i in ins ==> i < next && i + 3 <= end
  {
  }
}
