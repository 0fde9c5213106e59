/**
 The match engine of src/zlib/deflate.c: the sliding window, and `deflate_fast`,
 `deflate_slow` and `deflate_rle`.  A call is given some input and either waits for
 more (Z_NO_FLUSH) or finishes the stream (Z_FINISH).
 */
module Deflate {
  import Bits
  import opened HashChains
  import opened LongestMatch
  import opened MatchSearch
  import Lz = Lz77

  const TOO_FAR := 4096

  /** The fields of the source's `deflate_state` that are used here; `toks` are all tokens tallied so far. */
  datatype State = State(
    window: seq<nat>, head: seq<nat>, prev: seq<nat>, insH: nat, strstart: nat, lookahead: nat,
    matchStart: int, matchLength: nat, prevLength: nat, prevMatch: int, matchAvailable: bool, toks: seq<Lz.Token>)

  function End(s: State): nat {
    s.strstart + s.lookahead
  }

  /** The window holds the end of `text`, the input so far, from position `base` on. */
  ghost predicate Holds(s: State, text: seq<nat>, base: nat) {
    && base + End(s) == |text| && End(s) <= |s.window|
    && (forall i :: 0 <= i < End(s) ==> s.window[i] == text[base + i])
    && forall i :: 0 <= i < |text| ==> text[i] < 256
  }

  /** Window and dictionary are as they should be. */
  ghost predicate Sound(p: Params, s: State, text: seq<nat>, base: nat, ins: set<nat>) {
    Chains(p, s.window, s.head, s.prev, ins, s.strstart, End(s)) && Holds(s, text, base)
  }

  /** The rolling hash is right, too. */
  ghost predicate Good(p: Params, s: State, text: seq<nat>, base: nat, ins: set<nat>) {
    Sound(p, s, text, base, ins) && (s.lookahead >= MIN_MATCH ==> Ready(p, s.window, s.insH, s.strstart))
  }

  /** The tokens stand for the first `n` bytes of the text. */
  ghost predicate Covers(toks: seq<Lz.Token>, text: seq<nat>, n: nat) {
    && n <= |text| && (forall i :: 0 <= i < |toks| ==> Lz.ValidToken(toks[i]))
    && Lz.AllFit([], toks) && Lz.Expand([], toks) == text[..n]
  }

  /** A match in the text itself: `len` bytes at `q` are those at `m`. */
  ghost predicate TextMatch(p: Params, text: seq<nat>, m: int, q: int, len: nat)
    requires p.Valid()
  {
    && 0 <= m < q && q - m <= p.MaxDist() && MIN_MATCH <= len <= MAX_MATCH && q + len <= |text|
    && forall k :: q <= k < q + len ==> text[k] == text[k - (q - m)]
  }

  lemma CoverLiteral(toks: seq<Lz.Token>, text: seq<nat>, n: nat)
    requires Covers(toks, text, n) && n < |text| && text[n] < 256
    ensures Covers(toks + [Lz.Literal(text[n])], text, n + 1)
  {
    Lz.ExpandSnoc([], toks, Lz.Literal(text[n]));
    assert text[..n] + [text[n]] == text[..n + 1];
  }

  lemma CoverMatch(p: Params, toks: seq<Lz.Token>, text: seq<nat>, m: int, q: int, len: nat)
    requires p.Valid() && 0 <= q && Covers(toks, text, q) && TextMatch(p, text, m, q, len)
    ensures Covers(toks + [Lz.Token.Match(len, q - m)], text, q + len)
  {
    var tok := Lz.Token.Match(len, q - m);
    Lz.CopiedIs(text, q, len, q - m);
    Lz.ExpandSnoc([], toks, tok);
  }

  /** More input changes nothing of what has been covered. */
  lemma CoverMore(toks: seq<Lz.Token>, text: seq<nat>, more: seq<nat>, n: nat)
    requires Covers(toks, text, n)
    ensures Covers(toks, text + more, n)
  {
    assert (text + more)[..n] == text[..n];
  }

  lemma MatchMore(p: Params, text: seq<nat>, more: seq<nat>, m: int, q: int, len: nat)
    requires p.Valid() && TextMatch(p, text, m, q, len)
    ensures TextMatch(p, text + more, m, q, len)
  {
  }

  /** A match in the window is one in the text. */
  lemma FoundMatch(p: Params, s: State, text: seq<nat>, base: nat, m: nat, len: nat)
    requires p.Valid() && Holds(s, text, base) && MIN_MATCH <= len <= s.lookahead
    requires Match(p, s.window, m, s.strstart, len)
    ensures TextMatch(p, text, base + m, base + s.strstart, len)
  {
    var q := base + s.strstart;
    forall k | q <= k < q + len ensures text[k] == text[k - (s.strstart - m)] {
      assert Agree(s.window, m, s.strstart, k - q);
      assert s.window[k - base] == text[base + (k - base)];
      assert s.window[m + (k - q)] == text[base + (m + (k - q))];
    }
  }

  // ------------------------------------------------- filling the window

  /** The window with `data` written from `at` on. */
  function Put(window: seq<nat>, at: nat, data: seq<nat>): (r: seq<nat>)
    requires at + |data| <= |window|
    ensures |r| == |window| && (forall i :: 0 <= i < at ==> r[i] == window[i])
    ensures forall i :: 0 <= i < |data| ==> r[at + i] == data[i]
  {
    window[..at] + data + window[at + |data|..]
  }

  /** Data behind the end does not touch the chains. */
  lemma ChainsMore(p: Params, window: seq<nat>, window': seq<nat>, head: seq<nat>, prev: seq<nat>,
                   ins: set<nat>, next: nat, end: nat, end': nat)
    requires Chains(p, window, head, prev, ins, next, end) && end <= end' <= |window'| == |window|
    requires forall i :: 0 <= i < end ==> window'[i] == window[i]
    ensures Chains(p, window', head, prev, ins, next, end')
  {
    hide Hash, Bits.Pow2, OnChain;
    forall h | 0 <= h < |head| ensures OnChain(p, window', ins, h, next, head[h]) {
      OnChainMore(p, window, window', ins, h, next, head[h], end);
    }
    forall i | i in ins && i + p.wsize >= next
      ensures OnChain(p, window', ins, HashAt(p, window', i), i, prev[i % p.wsize]) {
      OnChainMore(p, window, window', ins, HashAt(p, window, i), i, prev[i % p.wsize], end);
    }
  }

  lemma OnChainMore(p: Params, window: seq<nat>, window': seq<nat>, ins: set<nat>, h: nat, before: nat, j: nat,
                    end: nat)
    requires OnChain(p, window, ins, h, before, j) && end <= |window'| == |window| && forall i :: i in ins ==>
      i + 3 <= end
    requires forall i :: 0 <= i < end ==> window'[i] == window[i]
    ensures OnChain(p, window', ins, h, before, j)
  {
    hide Hash;
    forall i: nat ensures Hashed(p, window', ins, h, i) <==> Hashed(p, window, ins, h, i) {
    }
    forall i | j < i < before ensures !Hashed(p, window', ins, h, i) {
      assert !Hashed(p, window, ins, h, i);
    }
  }

  /** Moves the upper half of the window down. */
  method Slide(p: Params, s: State, ghost text: seq<nat>, ghost base: nat, ghost ins: set<nat>)
    returns (s': State, ghost base': nat, ghost ins': set<nat>)
    requires p.Valid() && Sound(p, s, text, base, ins) && s.strstart >= p.wsize + p.MaxDist()
    ensures Sound(p, s', text, base', ins') && (Good(p, s, text, base, ins) ==> Good(p, s', text, base', ins'))
    ensures base' + s'.strstart == base + s.strstart && s'.lookahead == s.lookahead
    ensures s'
         == s.(window := s'.window, head := s'.head, prev := s'.prev, strstart := s.strstart - p.wsize,
           matchStart := s.matchStart - p.wsize)
    ensures (ins == {} ==> ins' == {}) && Retained(ins, base, ins', base')
  {
    hide *;
    SoundParts(p, s, text, base, ins);
    var more := 2 * p.wsize - s.lookahead - s.strstart;
    var data := s.window[p.wsize..p.wsize + (p.wsize - more)];
    var window := Put(s.window, 0, data);
    PutMoved(s.window, p.wsize, s.strstart + s.lookahead, window);
    var head, prev := SlideHash(p, s.window, window, s.head, s.prev, ins, s.strstart, s.strstart + s.lookahead);
    s' := s.(window := window, head := head, prev := prev, strstart := s.strstart - p.wsize,
             matchStart := s.matchStart - p.wsize);
    base', ins' := base + p.wsize, SlidSet(ins, p.wsize);
    SlidNone(ins, p.wsize);
    RetainedSlid(ins, base, p.wsize);
    HoldsSlid(p, s, text, base, s');
    SlidSound(p, s, text, base, ins, s');
  }

  lemma SoundParts(p: Params, s: State, text: seq<nat>, base: nat, ins: set<nat>)
    requires p.Valid() && Sound(p, s, text, base, ins) && s.strstart >= p.wsize + p.MaxDist()
    ensures Chains(p, s.window, s.head, s.prev, ins, s.strstart, s.strstart + s.lookahead) && Holds(s, text, base)
    ensures |s.window| == 2 * p.wsize && p.wsize <= s.strstart && s.strstart + s.lookahead <= 2 * p.wsize
  {
    hide Chains;
    ChainSizes(p, s.window, s.head, s.prev, ins, s.strstart, End(s));
  }

  lemma SlidSound(p: Params, s: State, text: seq<nat>, base: nat, ins: set<nat>, s': State)
    requires p.Valid() && p.wsize <= s.strstart && Holds(s', text, base + p.wsize)
    requires Sound(p, s, text, base, ins) && Moved(s.window, s'.window, p.wsize, s.strstart + s.lookahead)
    requires s'.strstart == s.strstart - p.wsize && s'.lookahead == s.lookahead && s'.insH == s.insH
    requires Chains(p, s'.window, s'.head, s'.prev, SlidSet(ins, p.wsize), s.strstart - p.wsize,
                    s.strstart + s.lookahead - p.wsize)
    ensures Sound(p, s', text, base + p.wsize, SlidSet(ins, p.wsize))
    ensures Good(p, s, text, base, ins) ==> Good(p, s', text, base + p.wsize, SlidSet(ins, p.wsize))
  {
    hide Chains, Holds, Ready, SlidSet;
    ChainSizes(p, s.window, s.head, s.prev, ins, s.strstart, End(s));
    if s.lookahead >= MIN_MATCH && Ready(p, s.window, s.insH, s.strstart) {
      ReadySlid(p, s.window, s'.window, s.insH, s.strstart, End(s));
    }
  }

  lemma HoldsSlid(p: Params, s: State, text: seq<nat>, base: nat, s': State)
    requires Holds(s, text, base) && Moved(s.window, s'.window, p.wsize, s.strstart + s.lookahead)
      && p.wsize <= s.strstart
    requires s'.strstart == s.strstart - p.wsize && s'.lookahead == s.lookahead
    ensures Holds(s', text, base + p.wsize)
  {
    forall i | 0 <= i < End(s') ensures s'.window[i] == text[base + p.wsize + i] {
      assert s'.window[i] == s.window[i + p.wsize] && s.window[i + p.wsize] == text[base + (i + p.wsize)];
    }
  }

  lemma PutMoved(window: seq<nat>, w: nat, end: nat, window': seq<nat>)
    requires |window| == 2 * w && w <= end <= |window| && 0 + |window[w..end]| <= |window|
    requires window' == Put(window, 0, window[w..end])
    ensures Moved(window, window', w, end)
  {
  }

  lemma SlidNone(ins: set<nat>, w: nat)
    ensures ins == {} ==> SlidSet(ins, w) == {}
  {
  }

  lemma ReadySlid(p: Params, window: seq<nat>, window': seq<nat>, insH: nat, str: nat, end: nat)
    requires Moved(window, window', p.wsize, end) && p.wsize <= str && str + 3 <= end && Ready(p, window, insH, str)
    ensures Ready(p, window', insH, str - p.wsize)
  {
    hide Hash, UpdateHash;
  }

  lemma HoldsMore(s: State, text: seq<nat>, base: nat, data: seq<nat>, s': State)
    requires Holds(s, text, base) && End(s) + |data| <= |s.window| && forall i :: 0 <= i < |data| ==> data[i] < 256
    requires s' == s.(window := Put(s.window, End(s), data), lookahead := s.lookahead + |data|)
    ensures Holds(s', text + data, base)
  {
    forall i | 0 <= i < End(s') ensures s'.window[i] == (text + data)[base + i] {
      if i >= End(s) {
        assert s'.window[End(s) + (i - End(s))] == data[i - End(s)];
      }
    }
  }

  /** Takes `n` bytes of input into the window. */
  method Read(p: Params, s: State, data: seq<nat>, ghost text: seq<nat>, ghost base: nat,
              ghost ins: set<nat>) returns (s': State)
    requires p.Valid() && Sound(p, s, text, base, ins) && End(s) + |data| <= 2 * p.wsize
    requires forall i :: 0 <= i < |data| ==> data[i] < 256
    ensures Good(p, s', text + data, base, ins) && Sound(p, s', text + data, base, ins)
    ensures s'.lookahead == s.lookahead + |data|
    ensures s' == s.(window := s'.window, lookahead := s'.lookahead, insH := s'.insH)
  {
    hide Chains, Ready, HashAt, Put;
    ChainSizes(p, s.window, s.head, s.prev, ins, s.strstart, End(s));
    s' := s.(window := Put(s.window, End(s), data), lookahead := s.lookahead + |data|);
    ChainsMore(p, s.window, s'.window, s.head, s.prev, ins, s.strstart, End(s), End(s'));
    HoldsMore(s, text, base, data, s');
    if s'.lookahead >= MIN_MATCH {
      s' := s'.(insH := UpdateHash(p, s'.window[s'.strstart], s'.window[s'.strstart + 1]));
      ReadyFresh(p, s'.window, s'.strstart);
    }
  }

  /** What `fill_window` leaves: the same place in the text, with more of it ahead. */
  ghost predicate Filled(s: State, base: nat, s': State, base': nat) {
    && base' + s'.strstart == base + s.strstart && s.lookahead <= s'.lookahead
    && s'.matchStart - s'.strstart == s.matchStart - s.strstart
    && s' == s.(window := s'.window, head := s'.head, prev := s'.prev, insH := s'.insH, strstart := s'.strstart,
                lookahead := s'.lookahead, matchStart := s'.matchStart)
  }

  lemma FilledSame(s: State, base: nat)
    ensures Filled(s, base, s, base)
  {
  }

  lemma FilledThen(s: State, base: nat, s1: State, base1: nat, s2: State, base2: nat)
    requires Filled(s, base, s1, base1) && Filled(s1, base1, s2, base2)
    ensures Filled(s, base, s2, base2) && s.lookahead <= s2.lookahead
  {
  }

  lemma Slid(p: Params, s: State, base: nat, s': State, base': nat)
    requires base' + s'.strstart == base + s.strstart && s'.lookahead == s.lookahead && s.strstart >= p.wsize
    requires s'
         == s.(window := s'.window, head := s'.head, prev := s'.prev, strstart := s.strstart - p.wsize,
           matchStart := s.matchStart - p.wsize)
    ensures Filled(s, base, s', base')
  {
  }

  lemma More(s: State, base: nat, s': State)
    requires s' == s.(window := s'.window, lookahead := s'.lookahead, insH := s'.insH) && s'.lookahead >= s.lookahead
    ensures Filled(s, base, s', base)
  {
  }

  lemma Taken(text: seq<nat>, input: seq<nat>, n: nat)
    requires n <= |input| && forall i :: 0 <= i < |input| ==> input[i] < 256
    ensures (text + input[..n]) + input[n..] == text + input && text <= text + input[..n]
    ensures forall i :: 0 <= i < |input[..n]| ==> input[..n][i] < 256
    ensures forall i :: 0 <= i < |input[n..]| ==> input[n..][i] < 256
  {
  }

  /** One round of `fill_window`: slides if the place is far up, and reads if there is input. */
  method FillOnce(p: Params, s: State, input: seq<nat>, ghost text: seq<nat>, ghost base: nat, ghost ins: set<nat>)
    returns (s': State, input': seq<nat>, ghost text': seq<nat>, ghost base': nat, ghost ins': set<nat>)
    requires p.Valid() && Sound(p, s, text, base, ins) && s.lookahead < MIN_LOOKAHEAD
    requires forall i :: 0 <= i < |input| ==> input[i] < 256
    ensures Sound(p, s', text', base', ins') && (Good(p, s, text, base, ins) ==> Good(p, s', text', base', ins'))
    ensures Filled(s, base, s', base') && text' + input' == text + input && text <= text'
    ensures (s'.strstart == s.strstart || s'.strstart >= p.MaxDist()) && (ins == {} ==> ins' == {})
    ensures Retained(ins, base, ins', base') && (base' == base || s'.strstart >= p.MaxDist())
    ensures forall i :: 0 <= i < |input'| ==> input'[i] < 256
    ensures |input'| < |input| || input' == []
    ensures s'.strstart + MIN_LOOKAHEAD <= 2 * p.wsize
  {
    hide Good, Sound, Filled, Retained;
    s', input', text', base', ins' := s, input, text, base, ins;
    FilledSame(s, base);
    RetainedSame(ins, base);
    SoundSizes(p, s', text', base', ins');
    var more := 2 * p.wsize - s'.lookahead - s'.strstart;
    if s'.strstart >= p.wsize + p.MaxDist() {
      s', base', ins' := Slide(p, s', text', base', ins');
      assert Filled(s, base, s', base') by { Slid(p, s, base, s', base'); }
      more := more + p.wsize;
    }
    if input' != [] {
      assert more >= 2;
      var n := if |input'| < more then |input'| else more;
      Taken(text', input', n);
      ghost var s1 := s';
      s' := Read(p, s', input'[..n], text', base', ins');
      assert Filled(s1, base', s', base') by { More(s1, base', s'); }
      FilledThen(s, base, s1, base', s', base');
      text', input' := text' + input'[..n], input'[n..];
    }
  }

  /** Fills the window until there is enough lookahead or no more input. */
  method FillWindow(p: Params, s: State, input: seq<nat>, ghost text: seq<nat>, ghost base: nat, ghost ins: set<nat>)
    returns (s': State, input': seq<nat>, ghost text': seq<nat>, ghost base': nat, ghost ins': set<nat>)
    requires p.Valid() && Sound(p, s, text, base, ins) && s.lookahead < MIN_LOOKAHEAD
    requires forall i :: 0 <= i < |input| ==> input[i] < 256
    ensures Sound(p, s', text', base', ins') && (Good(p, s, text, base, ins) ==> Good(p, s', text', base', ins'))
    ensures Filled(s, base, s', base') && text' + input' == text + input && text <= text'
    ensures (s'.strstart == s.strstart || s'.strstart >= p.MaxDist()) && (ins == {} ==> ins' == {})
    ensures Retained(ins, base, ins', base') && (base' == base || s'.strstart >= p.MaxDist())
    ensures forall i :: 0 <= i < |input'| ==> input'[i] < 256
    ensures (s'.lookahead >= MIN_LOOKAHEAD || input' == []) && s'.strstart + MIN_LOOKAHEAD <= 2 * p.wsize
  {
    hide Good, Sound, Filled, Retained;
    s', input', text', base', ins' := FillOnce(p, s, input, text, base, ins);
    while s'.lookahead < MIN_LOOKAHEAD && input' != []
      invariant Sound(p, s', text', base', ins') && (Good(p, s, text, base, ins) ==> Good(p, s', text', base', ins'))
      invariant Filled(s, base, s', base') && text' + input' == text + input && text <= text'
      invariant (s'.strstart == s.strstart || s'.strstart >= p.MaxDist()) && (ins == {} ==> ins' == {})
      invariant Retained(ins, base, ins', base') && (base' == base || s'.strstart >= p.MaxDist())
      invariant (forall i :: 0 <= i < |input'| ==> input'[i] < 256) && s'.strstart + MIN_LOOKAHEAD <= 2 * p.wsize
      decreases |input'|
    {
      ghost var s1, base1, ins1 := s', base', ins';
      s', input', text', base', ins' := FillOnce(p, s', input', text', base', ins');
      RetainedThen(ins, base, ins1, base1, ins', base');
      FilledThen(s, base, s1, base1, s', base');
    }
  }

  lemma SoundSizes(p: Params, s: State, text: seq<nat>, base: nat, ins: set<nat>)
    requires Sound(p, s, text, base, ins)
    ensures p.Valid() && |s.window| == 2 * p.wsize && |s.prev| == p.wsize && End(s) <= |s.window|
    ensures base + End(s) == |text|
  {
  }

  lemma GoodSizes(p: Params, s: State, text: seq<nat>, base: nat, ins: set<nat>)
    requires Good(p, s, text, base, ins)
    ensures Sound(p, s, text, base, ins) && p.Valid() && |s.window| == 2 * p.wsize && |s.prev| == p.wsize
    ensures End(s) <= |s.window| && base + End(s) == |text|
  {
    SoundSizes(p, s, text, base, ins);
  }
}
