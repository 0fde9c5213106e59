/** `deflate_fast`, `deflate_slow` and `deflate_rle` of src/zlib/deflate.c: their tokens stand for the input. */
module DeflateLoops {
  import Bits
  import opened HashChains
  import opened LongestMatch
  import opened MatchSearch
  import opened LazyMatching
  import Greedy = GreedyMatching
  import Runs = RunTokens
  import opened Deflate
  import Lz = Lz77

  /** The string at `strstart` has been inserted, and the place not yet left. */
  ghost predicate Inserted(p: Params, s: State, text: seq<nat>, base: nat, ins: set<nat>) {
    && Chains(p, s.window, s.head, s.prev, ins, s.strstart + 1, End(s)) && Holds(s, text, base)
    && s.lookahead >= MIN_MATCH && s.insH == HashAt(p, s.window, s.strstart)
  }

  lemma InsertedSizes(p: Params, s: State, text: seq<nat>, base: nat, ins: set<nat>)
    requires Inserted(p, s, text, base, ins)
    ensures p.Valid() && |s.window| == 2 * p.wsize && |s.prev| == p.wsize && End(s) <= |s.window|
    ensures base + End(s) == |text|
    ensures s.lookahead >= MIN_MATCH && Bytes(s.window, End(s)) && Holds(s, text, base)
    ensures Chains(p, s.window, s.head, s.prev, ins, s.strstart + 1, End(s))
  {
    hide HashAt, OnChain;
  }

  /** Inserts the string at `strstart` when there are enough bytes for it. */
  method Insert(p: Params, s: State, ghost text: seq<nat>, ghost base: nat, ghost ins: set<nat>)
    returns (s': State, hashHead: nat, ghost ins': set<nat>)
    requires Good(p, s, text, base, ins)
    ensures s' == s.(head := s'.head, prev := s'.prev, insH := s'.insH)
    ensures s.lookahead < MIN_MATCH ==> s' == s && hashHead == 0 && ins' == ins
    ensures s.lookahead >= MIN_MATCH ==> Inserted(p, s', text, base, ins') && ins' == ins + {s.strstart}
    ensures s.lookahead >= MIN_MATCH ==>
      s.strstart + 2 < |s.window| && |s.prev| == p.wsize
        && OnChain(p, s.window, ins', HashAt(p, s.window, s.strstart), s.strstart, hashHead)
  {
    hide Chains, Ready, HashAt;
    GoodSizes(p, s, text, base, ins);
    if s.lookahead < MIN_MATCH {
      return s, 0, ins;
    }
    var head, prev, insH;
    head, prev, insH, hashHead := InsertString(p, s.window, s.head, s.prev, s.insH, s.strstart, ins, s.strstart,
                                               End(s));
    s' := s.(head := head, prev := prev, insH := insH);
    ins' := ins + {s.strstart};
    BelowInserted(p, s.window, ins, s.strstart, HashAt(p, s.window, s.strstart), s.strstart, hashHead);
  }

  lemma ChainsOn(p: Params, window: seq<nat>, head: seq<nat>, prev: seq<nat>, ins: set<nat>,
                 next: nat, next': nat, end: nat)
    requires Chains(p, window, head, prev, ins, next, end) && next <= next'
    ensures Chains(p, window, head, prev, ins, next', end)
  {
    hide HashAt;
    forall h | 0 <= h < |head| ensures OnChain(p, window, ins, h, next', head[h]) {
      assert OnChain(p, window, ins, h, next, head[h]);
    }
  }

  /** Going on by one place after an insertion, or when there is nothing to insert. */
  lemma StepOn(p: Params, s: State, text: seq<nat>, base: nat, ins: set<nat>, s': State)
    requires if s.lookahead >= MIN_MATCH then Inserted(p, s, text, base, ins) else Good(p, s, text, base, ins)
    requires s.lookahead > 0
    requires s'
         == s.(strstart := s'.strstart, lookahead := s'.lookahead, matchLength := s'.matchLength, toks := s'.toks,
                                         matchAvailable := s'.matchAvailable, prevLength := s'.prevLength)
    requires s'.strstart == s.strstart + 1 && s'.lookahead == s.lookahead - 1
    ensures Good(p, s', text, base, ins)
  {
    hide Chains, HashAt;
    if s.lookahead >= MIN_MATCH {
      InsertedSizes(p, s, text, base, ins);
      if s'.lookahead >= MIN_MATCH {
        assert p.Valid();
        ReadyNext(p, s.window, s.strstart);
      }
    } else {
      ChainsOn(p, s.window, s.head, s.prev, ins, s.strstart, s'.strstart, End(s));
    }
  }

  /** Going on by some places without insertions; the hash starts anew. */
  lemma Jump(p: Params, s: State, text: seq<nat>, base: nat, ins: set<nat>, n: nat, s': State)
    requires Inserted(p, s, text, base, ins) && 1 <= n <= s.lookahead && s.strstart + n + 1 < |s.window|
    requires s' == s.(strstart := s.strstart + n, lookahead := s.lookahead - n, matchLength := 0, toks := s'.toks,
                      insH := UpdateHash(p, s.window[s.strstart + n], s.window[s.strstart + n + 1]))
    ensures Good(p, s', text, base, ins)
  {
    hide Chains, HashAt;
    InsertedSizes(p, s, text, base, ins);
    ChainsOn(p, s.window, s.head, s.prev, ins, s.strstart + 1, s'.strstart, End(s));
    if s'.lookahead >= MIN_MATCH {
      ReadyFresh(p, s.window, s'.strstart);
    }
  }

  // ------------------------------------------------- deflate_fast

  /** What holds at the top of the loop of `deflate_fast`. */
  ghost predicate FastOk(p: Params, s: State, text: seq<nat>, base: nat, ins: set<nat>) {
    && p.Valid() && Good(p, s, text, base, ins) && Covers(s.toks, text, base + s.strstart)
    && s.matchLength < MIN_MATCH && s.prevLength == MIN_MATCH - 1
  }

  /** Inserts the strings inside a match. */
  method InsertInside(p: Params, s: State, n: nat, ghost text: seq<nat>, ghost base: nat, ghost ins: set<nat>)
    returns (s': State, ghost ins': set<nat>)
    requires Inserted(p, s, text, base, ins) && n >= 1 && n + MIN_MATCH <= s.lookahead + 1
    ensures s'
         == s.(strstart := s.strstart + n, lookahead := s.lookahead - n, head := s'.head, prev := s'.prev,
           insH := s'.insH)
    ensures Good(p, s', text, base, ins')
    ensures forall i: nat :: i in ins' <==> i in ins || s.strstart < i < s'.strstart
  {
    hide Inserted, Good;
    s', ins' := s, ins;
    InsertedSizes(p, s, text, base, ins);
    var left := n - 1;
    while left != 0
      invariant 0 <= left < n && Inserted(p, s', text, base, ins')
      invariant s' == s.(strstart := s.strstart + (n - 1 - left), lookahead := s.lookahead - (n - 1 - left),
                         head := s'.head, prev := s'.prev, insH := s'.insH)
      invariant forall i: nat :: i in ins' <==> i in ins || s.strstart < i <= s'.strstart
    {
      var s1 := s'.(strstart := s'.strstart + 1, lookahead := s'.lookahead - 1);
      StepOn(p, s', text, base, ins', s1);
      var hashHead;
      s', hashHead, ins' := Insert(p, s1, text, base, ins');
      left := left - 1;
    }
    var s1 := s'.(strstart := s'.strstart + 1, lookahead := s'.lookahead - 1);
    StepOn(p, s', text, base, ins', s1);
    s' := s1;
  }

  /** Looks for a match at `strstart`. */
  method FindMatch(p: Params, tuning: Tuning, s: State, hashHead: nat, ghost text: seq<nat>, ghost base: nat,
                   ghost ins: set<nat>)
    returns (s': State)
    requires Mid(p, s, text, base, ins) && s.strstart + MIN_LOOKAHEAD <= 2 * p.wsize
    requires s.prevLength == MIN_MATCH - 1 && s.matchLength < MIN_MATCH && s.lookahead > 0
    requires if s.lookahead < MIN_MATCH then hashHead == 0 else
               && s.strstart + 2 < |s.window|
               && OnChain(p, s.window, ins, HashAt(p, s.window, s.strstart), s.strstart, hashHead)
    ensures Mid(p, s', text, base, ins) && s' == s.(matchLength := s'.matchLength, matchStart := s'.matchStart)
    ensures p.Valid() && (s'.matchLength >= MIN_MATCH ==>
              && s.lookahead >= MIN_MATCH && s'.matchLength <= s.lookahead
              && TextMatch(p, text, base + s'.matchStart, base + s.strstart, s'.matchLength))
    ensures Greedy.Finds(p, tuning, text, Entered(ins, base), base + s.strstart, s'.matchLength, base + s'.matchStart)
  {
    hide Inserted, Good, Chains, HashAt, OnChain, Match, TextMatch, Holds, Search, Candidate, Entered, OutOfReach,
         Greedy.Finds;
    s' := s;
    MidSizes(p, s, text, base, ins);
    if s.lookahead >= MIN_MATCH {
      HeadInText(p, s, text, base, ins, hashHead);
    }
    if hashHead != 0 && s.strstart - hashHead <= p.MaxDist() {
      IsEarlier(p, s.window, ins, HashAt(p, s.window, s.strstart), s.strstart, hashHead);
      InChain(p, s.window, ins, s.strstart, hashHead);
      InsertedSizes(p, s, text, base, ins);
      ghost var looked, found;
      var len, start;
      len, start, looked, found := Longest(p, tuning, s.window, s.prev, s.strstart, s.lookahead, s.prevLength,
                                           hashHead, s.head, ins);
      Shown(s, text, base);
      ghost var list := LongestSearch(p, tuning, s.window, text, base, s.head, s.prev, ins, s.strstart, s.lookahead,
                                      s.prevLength, hashHead, len, start, looked, found);
      FastFound(p, tuning, text, Entered(ins, base), base + s.strstart, len, base + start, list);
      if len >= MIN_MATCH {
        FoundMatch(p, s, text, base, start, len);
      }
      s' := s.(matchLength := len, matchStart := start);
      SameMid(p, s, s', text, base, ins);
    } else {
      FastNone(p, tuning, text, Entered(ins, base), base + s.strstart, s.matchLength, base + s.matchStart);
    }
  }

  /** One round of `deflate_fast`: a match, or a literal. */
  method FastRound(p: Params, tuning: Tuning, s: State, ghost text: seq<nat>, ghost base: nat, ghost ins: set<nat>)
    returns (s': State, ghost ins': set<nat>, ghost r: Greedy.Step)
    requires FastOk(p, s, text, base, ins) && s.lookahead > 0 && s.strstart + MIN_LOOKAHEAD <= 2 * p.wsize
    ensures FastOk(p, s', text, base, ins') && s'.strstart > s.strstart && End(s') == End(s)
    ensures Stepped(p, tuning, s, text, base, ins, s', ins', r)
  {
    hide Mid, Good, Inserted, Covers, TextMatch, HashAt, OnChain, Stepped, Entered, Holds, Greedy.Finds;
    GoodSizes(p, s, text, base, ins);
    assert Holds(s, text, base) by { GoodHolds(p, s, text, base, ins); }
    var hashHead;
    s', hashHead, ins' := Insert(p, s, text, base, ins);
    MidAgain(p, s', text, base, ins');
    s' := FindMatch(p, tuning, s', hashHead, text, base, ins');
    ghost var mid, ins1 := s', ins';
    r := Greedy.Step(base + s.strstart, |text|, base, Entered(ins1, base), s'.matchLength, base + s'.matchStart);
    MidIs(p, s', text, base, ins');
    if s'.matchLength >= MIN_MATCH {
      assert base + s'.matchStart < base + s'.strstart by {
        StartsBefore(p, text, base + s'.matchStart, base + s'.strstart, s'.matchLength);
      }
      s', ins' := FastMatch(p, tuning, s', text, base, ins');
    } else {
      s', ins' := Literal(p, s', text, base, ins');
    }
    StepMade(p, tuning, s, text, base, ins, mid, ins1, s', ins', r);
  }

  lemma MidIs(p: Params, s: State, text: seq<nat>, base: nat, ins: set<nat>)
    requires Mid(p, s, text, base, ins)
    ensures if s.lookahead >= MIN_MATCH then Inserted(p, s, text, base, ins) else Good(p, s, text, base, ins)
  {
  }

  lemma StartsBefore(p: Params, text: seq<nat>, m: int, q: int, len: nat)
    requires p.Valid() && TextMatch(p, text, m, q, len)
    ensures m < q
  {
  }

  lemma FastFound(p: Params, tuning: Tuning, text: seq<nat>, dict: set<nat>, at: nat, len: nat, start: int,
                  looked: seq<nat>)
    requires p.Valid() && at + 2 < |text| && Search(p, tuning, text, dict, at, 2, len, start, looked)
    requires !OutOfReach(p, text, dict, at)
    ensures Greedy.Finds(p, tuning, text, dict, at, len, start)
  {
    hide Search, OutOfReach;
  }

  lemma FastNone(p: Params, tuning: Tuning, text: seq<nat>, dict: set<nat>, at: nat, found: nat, start: int)
    requires p.Valid() && found < 3 && (at + 3 > |text| || OutOfReach(p, text, dict, at))
    ensures Greedy.Finds(p, tuning, text, dict, at, found, start)
  {
    hide Search, OutOfReach;
  }

  /** The step `r` leads from `s` to `s'`. */
  ghost predicate Stepped(p: Params, tuning: Tuning, s: State, text: seq<nat>, base: nat, ins: set<nat>, s': State,
                          ins': set<nat>, r: Greedy.Step)
    requires p.Valid()
  {
    && r.at == base + s.strstart && r.size == |text| && r.low == base && r.at < r.size && Greedy.NextAt(r) <= r.size
    && (forall c: nat :: c in r.dict <==> c in Entered(ins, base) || (c == r.at && c > base && c + 3 <= r.size))
    && (r.found >= 3 ==> r.start < r.at) && Greedy.Finds(p, tuning, text, r.dict, r.at, r.found, r.start)
    && s'.toks == s.toks + Greedy.Emits(text, r) && base + s'.strstart == Greedy.NextAt(r)
    && forall c: nat :: c in Entered(ins', base) <==> c > base && Greedy.EnteredAfter(tuning, r, c)
  }

  lemma StepMade(p: Params, tuning: Tuning, s: State, text: seq<nat>, base: nat, ins: set<nat>, mid: State,
                 ins1: set<nat>, s': State, ins2: set<nat>, r: Greedy.Step)
    requires p.Valid() && |text| == base + End(s) && s.lookahead > 0 && Holds(s, text, base)
    requires mid.toks == s.toks && mid.strstart == s.strstart && mid.window == s.window && mid.lookahead == s.lookahead
    requires r.at == base + s.strstart && r.size == |text| && r.low == base && r.dict == Entered(ins1, base)
    requires Greedy.Finds(p, tuning, text, r.dict, r.at, r.found, r.start)
    requires forall i: nat :: i in ins1 <==> i in ins || (i == s.strstart && i + 3 <= End(s))
    requires if r.found >= 3 then
               && mid.matchLength == r.found <= s.lookahead && r.start == base + mid.matchStart < r.at
               && s'.toks == mid.toks + [Lz.Token.Match(mid.matchLength, mid.strstart - mid.matchStart)]
               && s'.strstart == mid.strstart + mid.matchLength
               && forall i: nat :: i in ins2 <==>
                    i in ins1 || (mid.strstart < i < s'.strstart && mid.matchLength <= tuning.maxInsert
                      && s'.strstart + 3 <= End(s))
             else
               s'.strstart == mid.strstart + 1 && ins2 == ins1
                 && s'.toks == mid.toks + [Lz.Literal(mid.window[mid.strstart])]
    ensures Stepped(p, tuning, s, text, base, ins, s', ins2, r)
  {
    hide Greedy.Finds;
    assert s.window[s.strstart] == text[base + s.strstart];
    forall c: nat ensures c > base ==>
        && (c in Entered(ins, base) <==> c - base in ins) && (c in Entered(ins1, base) <==> c - base in ins1)
        && (c in Entered(ins2, base) <==> c - base in ins2)
    {
    }
  }

  /** Writes a literal and goes on by one place. */
  method Literal(p: Params, s: State, ghost text: seq<nat>, ghost base: nat, ghost ins: set<nat>)
    returns (s': State, ghost ins': set<nat>)
    requires p.Valid() && s.lookahead > 0 && Covers(s.toks, text, base + s.strstart) && s.matchLength < MIN_MATCH
    requires s.prevLength == MIN_MATCH - 1
    requires if s.lookahead >= MIN_MATCH then Inserted(p, s, text, base, ins) else Good(p, s, text, base, ins)
    ensures FastOk(p, s', text, base, ins') && s'.strstart == s.strstart + 1 && End(s') == End(s)
    ensures s.strstart < |s.window| && s'.toks == s.toks + [Lz.Literal(s.window[s.strstart])] && ins' == ins
  {
    hide Covers, Chains, HashAt, Ready;
    assert |s.window| == 2 * p.wsize by {
      if s.lookahead >= MIN_MATCH {
        InsertedSizes(p, s, text, base, ins);
      } else {
        GoodSizes(p, s, text, base, ins);
      }
    }
    var b := s.window[s.strstart];
    CoverLiteral(s.toks, text, base + s.strstart);
    s' := s.(toks := s.toks + [Lz.Literal(b)], lookahead := s.lookahead - 1, strstart := s.strstart + 1);
    ins' := ins;
    StepOn(p, s, text, base, ins, s');
  }

  /** Writes a match and goes on behind it. */
  method FastMatch(p: Params, tuning: Tuning, s: State, ghost text: seq<nat>, ghost base: nat, ghost ins: set<nat>)
    returns (s': State, ghost ins': set<nat>)
    requires p.Valid() && Inserted(p, s, text, base, ins) && Covers(s.toks, text, base + s.strstart)
    requires s.prevLength == MIN_MATCH - 1
    requires MIN_MATCH <= s.matchLength <= s.lookahead && s.strstart + MIN_LOOKAHEAD <= 2 * p.wsize
    requires TextMatch(p, text, base + s.matchStart, base + s.strstart, s.matchLength)
    ensures FastOk(p, s', text, base, ins') && s'.strstart == s.strstart + s.matchLength && End(s') == End(s)
    ensures s.strstart - s.matchStart >= 0
    ensures s'.toks == s.toks + [Lz.Token.Match(s.matchLength, s.strstart - s.matchStart)]
    ensures forall i: nat :: i in ins' <==>
      i in ins || (s.strstart < i < s'.strstart && s.matchLength <= tuning.maxInsert && s'.strstart + 3 <= End(s))
  {
    hide Good, Inserted, Covers, UpdateHash;
    InsertedSizes(p, s, text, base, ins);
    var n := s.matchLength;
    CoverMatch(p, s.toks, text, base + s.matchStart, base + s.strstart, n);
    var toks := s.toks + [Lz.Token.Match(n, s.strstart - s.matchStart)];
    assert base + s.strstart - (base + s.matchStart) == s.strstart - s.matchStart;
    if n <= tuning.maxInsert && s.lookahead - n >= MIN_MATCH {
      s', ins' := InsertInside(p, s, n, text, base, ins);
      SameGood(p, s', s'.(toks := toks, matchLength := 0), text, base, ins');
      s' := s'.(toks := toks, matchLength := 0);
    } else {
      var at := s.strstart + n;
      s' := s.(toks := toks, strstart := at, lookahead := s.lookahead - n, matchLength := 0,
               insH := UpdateHash(p, s.window[at], s.window[at + 1]));
      ins' := ins;
      Jump(p, s, text, base, ins, n, s');
    }
  }

  lemma SameGood(p: Params, s: State, s': State, text: seq<nat>, base: nat, ins: set<nat>)
    requires Good(p, s, text, base, ins)
    requires s'
         == s.(toks := s'.toks, matchLength := s'.matchLength, matchAvailable := s'.matchAvailable,
           prevLength := s'.prevLength,
                      prevMatch := s'.prevMatch, matchStart := s'.matchStart)
    ensures Good(p, s', text, base, ins)
  {
    hide Chains, Ready;
  }

  /** The state is that after `steps`. */
  ghost predicate FastLinked(p: Params, tuning: Tuning, s: State, text: seq<nat>, base: nat, ins: set<nat>,
                             steps: seq<Greedy.Step>)
    requires p.Valid()
  {
    && Greedy.Trace(p, tuning, text, steps) && s.toks == Greedy.Written(text, steps)
    && base + s.strstart == Greedy.EndAt(steps) && (base == 0 || s.strstart >= p.MaxDist())
    && if steps == [] then Entered(ins, base) == {}
       else
         var r := steps[|steps| - 1];
         && r.low <= base && r.size <= |text|
         && forall c: nat :: c in Entered(ins, base) <==> c > base && Greedy.EnteredAfter(tuning, r, c)
  }

  lemma FastTurned(p: Params, tuning: Tuning, s: State, text: seq<nat>, base: nat, ins: set<nat>,
                   steps: seq<Greedy.Step>, s': State, ins': set<nat>, r: Greedy.Step)
    requires p.Valid() && FastLinked(p, tuning, s, text, base, ins, steps)
    requires Stepped(p, tuning, s, text, base, ins, s', ins', r) && s'.strstart > s.strstart
    ensures FastLinked(p, tuning, s', text, base, ins', steps + [r])
  {
    hide Greedy.Finds, Entered, Greedy.Written, Greedy.Trace, Greedy.Emits, Greedy.EnteredAfter;
    assert text[..|text|] == text;
    assert Greedy.StepOk(p, tuning, text, r);
    if steps == [] {
      assert r.dict == {};
    }
    Greedy.TraceNext(p, tuning, text, steps, r);
  }

  lemma FastFilled(p: Params, tuning: Tuning, s: State, text: seq<nat>, base: nat, ins: set<nat>,
                   steps: seq<Greedy.Step>, s': State, more: seq<nat>, base': nat, ins': set<nat>)
    requires p.Valid() && FastLinked(p, tuning, s, text, base, ins, steps)
    requires Filled(s, base, s', base') && Retained(ins, base, ins', base')
    requires base' == base || s'.strstart >= p.MaxDist()
    ensures FastLinked(p, tuning, s', text + more, base', ins', steps)
  {
    hide Entered, Greedy.Written, Greedy.Trace, Greedy.EnteredAfter;
    Greedy.TraceMore(p, tuning, text, more, steps);
  }

  lemma FastEnd(p: Params, tuning: Tuning, s: State, text: seq<nat>, base: nat, ins: set<nat>, steps: seq<Greedy.Step>)
    requires p.Valid() && FastLinked(p, tuning, s, text, base, ins, steps)
    ensures |text| == base + s.strstart ==> Greedy.GreedyTokens(p, tuning, text, steps, s.toks)
  {
    hide Entered, Greedy.Written, Greedy.Trace;
  }

  /**
   A call of `deflate_fast`, with the steps of the calls before it.  All input is taken; when the stream is finished,
     the
   tokens stand for the whole of it.
   */
  method DeflateFast(p: Params, tuning: Tuning, s: State, input: seq<nat>, finish: bool, ghost text: seq<nat>,
                     ghost base: nat, ghost ins: set<nat>, ghost steps: seq<Greedy.Step>)
    returns (s': State, ghost base': nat, ghost ins': set<nat>, ghost steps': seq<Greedy.Step>)
    requires FastOk(p, s, text, base, ins) && forall i :: 0 <= i < |input| ==> input[i] < 256
    ensures FastOk(p, s', text + input, base', ins')
    ensures finish ==> Covers(s'.toks, text + input, |text + input|)
    ensures FastLinked(p, tuning, s, text, base, ins, steps) ==>
      && FastLinked(p, tuning, s', text + input, base', ins', steps')
      && (finish ==> Greedy.GreedyTokens(p, tuning, text + input, steps', s'.toks))
  {
    hide Good, Covers, FastLinked, Stepped, Retained;
    s', base', ins', steps' := s, base, ins, steps;
    ghost var linked := FastLinked(p, tuning, s, text, base, ins, steps);
    var avail := input;
    ghost var known := text;
    while true
      invariant FastOk(p, s', known, base', ins') && known + avail == text + input
      invariant linked ==> FastLinked(p, tuning, s', known, base', ins', steps')
      invariant forall i :: 0 <= i < |avail| ==> avail[i] < 256
      decreases |text + input| - (base' + s'.strstart)
    {
      GoodSizes(p, s', known, base', ins');
      if s'.lookahead < MIN_LOOKAHEAD {
        ghost var was, old_, base0, ins0 := known, s', base', ins';
        s', avail, known, base', ins' := FillWindow(p, s', avail, known, base', ins');
        assert known == was + known[|was|..];
        CoverMore(old_.toks, was, known[|was|..], base' + s'.strstart);
        if linked {
          FastFilled(p, tuning, old_, was, base0, ins0, steps', s', known[|was|..], base', ins');
        }
        GoodSizes(p, s', known, base', ins');
        if s'.lookahead < MIN_LOOKAHEAD && !finish {
          assert known + [] == known;
          return;
        }
        if s'.lookahead == 0 {
          assert known + [] == known;
          if linked {
            FastEnd(p, tuning, s', known, base', ins', steps');
          }
          return;
        }
      }
      assert |known| <= |known + avail|;
      ghost var r, s0, ins0 := Greedy.Step(0, 0, 0, {}, 0, 0), s', ins';
      s', ins', r := FastRound(p, tuning, s', known, base', ins');
      GoodSizes(p, s', known, base', ins');
      if linked {
        FastTurned(p, tuning, s0, known, base', ins0, steps', s', ins', r);
      }
      steps' := steps' + [r];
    }
  }

  // ------------------------------------------------- deflate_slow

  /** Up to where the tokens reach: one byte less while a byte is held back. */
  function Reached(s: State, base: nat): int {
    base + s.strstart - (if s.matchAvailable then 1 else 0)
  }

  /**
   What holds at the top of the loop of `deflate_slow`: what has been written, and the
   byte held back, make up the text so far; a match that is held back begins there.
   */
  ghost predicate SlowOk(p: Params, s: State, text: seq<nat>, base: nat, ins: set<nat>) {
    && p.Valid() && Good(p, s, text, base, ins) && (s.matchAvailable ==> s.strstart >= 1)
    && Reached(s, base) >= 0 && Covers(s.toks, text, Reached(s, base))
    && MIN_MATCH - 1 <= s.matchLength <= MAX_MATCH
    && (s.matchLength >= MIN_MATCH ==>
      s.matchAvailable && TextMatch(p, text, base + s.matchStart, base + s.strstart - 1, s.matchLength))
  }

  /** The string at `strstart` has been inserted if there are enough bytes for it. */
  ghost predicate Mid(p: Params, s: State, text: seq<nat>, base: nat, ins: set<nat>) {
    if s.lookahead >= MIN_MATCH then Inserted(p, s, text, base, ins) else Good(p, s, text, base, ins)
  }

  lemma MidSizes(p: Params, s: State, text: seq<nat>, base: nat, ins: set<nat>)
    requires Mid(p, s, text, base, ins)
    ensures p.Valid() && |s.window| == 2 * p.wsize && End(s) <= |s.window| && base + End(s) == |text|
    ensures Holds(s, text, base)
  {
    if s.lookahead >= MIN_MATCH {
      InsertedSizes(p, s, text, base, ins);
    } else {
      GoodSizes(p, s, text, base, ins);
    }
  }

  lemma SameMid(p: Params, s: State, s': State, text: seq<nat>, base: nat, ins: set<nat>)
    requires Mid(p, s, text, base, ins)
    requires s'
         == s.(toks := s'.toks, matchLength := s'.matchLength, matchAvailable := s'.matchAvailable,
           prevLength := s'.prevLength,
                      prevMatch := s'.prevMatch, matchStart := s'.matchStart)
    ensures Mid(p, s', text, base, ins)
  {
    hide Chains, Ready, HashAt;
  }

  /** Inserts the strings inside the match that began one place before, except where there are too few bytes left. */
  method InsertRest(p: Params, s: State, n: nat, maxInsert: int, ghost text: seq<nat>, ghost base: nat,
                    ghost ins: set<nat>)
    returns (s': State, ghost ins': set<nat>)
    requires Mid(p, s, text, base, ins) && n >= 1 && n + 1 <= s.lookahead && maxInsert == End(s) - MIN_MATCH
    ensures Good(p, s', text, base, ins')
    ensures forall i: nat :: i in ins' <==> i in ins || (s.strstart < i < s'.strstart && i + 3 <= End(s))
    ensures s'
         == s.(strstart := s.strstart + n + 1, lookahead := s.lookahead - n - 1, head := s'.head, prev := s'.prev,
           insH := s'.insH)
  {
    hide Mid, Good, Inserted;
    s', ins' := s, ins;
    var left := n;
    while left != 0
      invariant 0 <= left <= n && Mid(p, s', text, base, ins')
      invariant s' == s.(strstart := s.strstart + (n - left), lookahead := s.lookahead - (n - left),
                         head := s'.head, prev := s'.prev, insH := s'.insH)
      invariant forall i: nat :: i in ins' <==> i in ins || (s.strstart < i <= s'.strstart && i + 3 <= End(s))
    {
      var s1 := s'.(strstart := s'.strstart + 1, lookahead := s'.lookahead - 1);
      MidStep(p, s', text, base, ins', s1);
      if s1.strstart <= maxInsert {
        var hashHead;
        s', hashHead, ins' := Insert(p, s1, text, base, ins');
      } else {
        s' := s1;
      }
      MidAgain(p, s', text, base, ins');
      left := left - 1;
    }
    var s1 := s'.(strstart := s'.strstart + 1, lookahead := s'.lookahead - 1);
    MidStep(p, s', text, base, ins', s1);
    s' := s1;
  }

  lemma MidAgain(p: Params, s: State, text: seq<nat>, base: nat, ins: set<nat>)
    requires if s.lookahead >= MIN_MATCH then Inserted(p, s, text, base, ins) else Good(p, s, text, base, ins)
    ensures Mid(p, s, text, base, ins)
  {
  }

  lemma MidStep(p: Params, s: State, text: seq<nat>, base: nat, ins: set<nat>, s': State)
    requires Mid(p, s, text, base, ins)
    requires s.lookahead > 0
    requires s'
         == s.(strstart := s'.strstart, lookahead := s'.lookahead, matchLength := s'.matchLength, toks := s'.toks,
                                         matchAvailable := s'.matchAvailable, prevLength := s'.prevLength)
    requires s'.strstart == s.strstart + 1 && s'.lookahead == s.lookahead - 1
    ensures Good(p, s', text, base, ins)
  {
    hide Inserted, Good;
    StepOn(p, s, text, base, ins, s');
  }

  /** Looks for a match at `strstart` that is longer than the one held back. */
  method FindLonger(p: Params, tuning: Tuning, filtered: bool, s: State, hashHead: nat, ghost text: seq<nat>,
                    ghost base: nat, ghost ins: set<nat>)
    returns (s': State)
    requires Mid(p, s, text, base, ins) && s.strstart + MIN_LOOKAHEAD <= 2 * p.wsize
    requires MIN_MATCH - 1 <= s.prevLength <= MAX_MATCH
    requires s.matchLength == MIN_MATCH - 1 && s.lookahead > 0
    requires if s.lookahead < MIN_MATCH then hashHead == 0 else
               && s.strstart + 2 < |s.window|
               && OnChain(p, s.window, ins, HashAt(p, s.window, s.strstart), s.strstart, hashHead)
    ensures Mid(p, s', text, base, ins) && s' == s.(matchLength := s'.matchLength, matchStart := s'.matchStart)
    ensures MIN_MATCH - 1 <= s'.matchLength <= MAX_MATCH && p.Valid()
    ensures s'.matchLength > s.prevLength ==>
      TextMatch(p, text, base + s'.matchStart, base + s.strstart, s'.matchLength)
    ensures Finds(p, tuning, filtered, text, Entered(ins, base), base + s.strstart, s.prevLength, s'.matchLength,
                  base + s'.matchStart)
  {
    hide Inserted, Good, Chains, HashAt, OnChain, Match, TextMatch, Holds, Search, Candidate, Entered;
    s' := s;
    MidSizes(p, s, text, base, ins);
    if s.lookahead >= MIN_MATCH {
      HeadInText(p, s, text, base, ins, hashHead);
    }
    if hashHead != 0 && s.prevLength < tuning.maxLazy {
      IsEarlier(p, s.window, ins, HashAt(p, s.window, s.strstart), s.strstart, hashHead);
      InChain(p, s.window, ins, s.strstart, hashHead);
      if s.strstart - hashHead <= p.MaxDist() {
        InsertedSizes(p, s, text, base, ins);
        ghost var looked, found;
        var len, start;
        len, start, looked, found := Longest(p, tuning, s.window, s.prev, s.strstart, s.lookahead, s.prevLength,
                                             hashHead, s.head, ins);
        Shown(s, text, base);
        ghost var list := LongestSearch(p, tuning, s.window, text, base, s.head, s.prev, ins, s.strstart, s.lookahead,
                                        s.prevLength, hashHead, len, start, looked, found);
        if len > s.prevLength {
          FoundMatch(p, s, text, base, start, len);
          s' := s.(matchLength := len, matchStart := start);
        } else {
          s' := s.(matchLength := len);
          StaleStart(p, tuning, text, Entered(ins, base), base + s.strstart, s.prevLength, len, base + start,
                     base + s.matchStart, list);
        }
        if s'.matchLength <= 5 && (filtered || (s'.matchLength == MIN_MATCH && s.strstart - s'.matchStart > TOO_FAR)) {
          s' := s'.(matchLength := MIN_MATCH - 1);
        }
        SameMid(p, s, s', text, base, ins);
      }
    }
  }

  lemma Shown(s: State, text: seq<nat>, base: nat)
    requires Holds(s, text, base)
    ensures Shows(s.window, s.strstart + s.lookahead, text, base)
  {
  }

  /** The head of the chain is the nearest candidate in the text. */
  lemma HeadInText(p: Params, s: State, text: seq<nat>, base: nat, ins: set<nat>, hashHead: nat)
    requires Mid(p, s, text, base, ins) && s.lookahead >= MIN_MATCH && s.strstart + 2 < |s.window|
    requires OnChain(p, s.window, ins, HashAt(p, s.window, s.strstart), s.strstart, hashHead)
    ensures hashHead != 0 ==>
      && hashHead < s.strstart && Candidate(p, text, Entered(ins, base), base + s.strstart, base + hashHead)
    ensures hashHead == 0 || s.strstart - hashHead > p.MaxDist() <==>
      OutOfReach(p, text, Entered(ins, base), base + s.strstart)
  {
    hide Chains, HashAt, Hashed, Candidate, Entered, Holds, Good;
    InsertedSizes(p, s, text, base, ins);
    Shown(s, text, base);
    InsBound(p, s.window, s.head, s.prev, ins, s.strstart + 1, End(s));
    var q, dict := base + s.strstart, Entered(ins, base);
    OnChainFacts(p, s.window, ins, HashAt(p, s.window, s.strstart), s.strstart, hashHead);
    if hashHead != 0 {
      TextCandidate(p, s.window, End(s), text, base, ins, s.strstart, base + hashHead);
    }
    forall c: nat | Candidate(p, text, dict, q, c) ensures c <= base + hashHead && (hashHead == 0 ==> false) {
      TextCandidate(p, s.window, End(s), text, base, ins, s.strstart, c);
    }
  }

  /** Where a match that is not longer would start does not matter. */
  lemma StaleStart(p: Params, tuning: Tuning, text: seq<nat>, dict: set<nat>, at: nat, held: nat, len: nat, start: int,
                   start': int, looked: seq<nat>)
    requires p.Valid() && at + 2 < |text| && Search(p, tuning, text, dict, at, held, len, start, looked) && len <= held
    ensures Search(p, tuning, text, dict, at, held, len, start', looked)
  {
    hide LookedAt, NoMore, Same;
  }

  /** Writes the match that was held back; the one found now is not longer. */
  method SlowMatch(p: Params, s: State, ghost text: seq<nat>, ghost base: nat, ghost ins: set<nat>)
    returns (s': State, ghost ins': set<nat>)
    requires p.Valid() && Mid(p, s, text, base, ins) && s.strstart >= 1 && s.matchAvailable
    requires Covers(s.toks, text, base + s.strstart - 1)
    requires s.prevLength >= MIN_MATCH && TextMatch(p, text, base + s.prevMatch, base + s.strstart - 1, s.prevLength)
    ensures SlowOk(p, s', text, base, ins') && s'.strstart > s.strstart && End(s') == End(s)
    ensures s'.toks == s.toks + [Lz.Token.Match(s.prevLength, s.strstart - 1 - s.prevMatch)]
    ensures s'.strstart == s.strstart - 1 + s.prevLength && !s'.matchAvailable && s'.matchLength == MIN_MATCH - 1
    ensures forall i: nat :: i in ins' <==> i in ins || (s.strstart < i < s'.strstart && i + 3 <= End(s))
  {
    hide Mid, Good, Covers, Inserted;
    MidSizes(p, s, text, base, ins);
    var maxInsert := s.strstart + s.lookahead - MIN_MATCH;
    CoverMatch(p, s.toks, text, base + s.prevMatch, base + s.strstart - 1, s.prevLength);
    var toks := s.toks + [Lz.Token.Match(s.prevLength, s.strstart - 1 - s.prevMatch)];
    assert base + s.strstart - 1 - (base + s.prevMatch) == s.strstart - 1 - s.prevMatch;
    var s1;
    s1, ins' := InsertRest(p, s, s.prevLength - 2, maxInsert, text, base, ins);
    s' := s1.(toks := toks, prevLength := 0, matchAvailable := false, matchLength := MIN_MATCH - 1);
    SameGood(p, s1, s', text, base, ins');
  }

  /** Writes the byte held back as a literal and holds the next one back. */
  method SlowLiteral(p: Params, s: State, ghost text: seq<nat>, ghost base: nat,
                     ghost ins: set<nat>) returns (s': State)
    requires p.Valid() && Mid(p, s, text, base, ins) && s.lookahead > 0 && (s.matchAvailable ==> s.strstart >= 1)
    requires Reached(s, base) >= 0 && Covers(s.toks, text, Reached(s, base))
    requires MIN_MATCH - 1 <= s.matchLength <= MAX_MATCH
    requires s.matchLength >= MIN_MATCH ==> TextMatch(p, text, base + s.matchStart, base + s.strstart, s.matchLength)
    ensures SlowOk(p, s', text, base, ins) && s'.strstart == s.strstart + 1 && End(s') == End(s)
    ensures s' == s.(toks := s'.toks, matchAvailable := true, strstart := s.strstart + 1, lookahead := s.lookahead - 1)
    ensures s'.toks == s.toks + if s.matchAvailable then [Lz.Literal(text[base + s.strstart - 1])] else []
  {
    hide Mid, Good, Covers, Inserted, TextMatch;
    MidSizes(p, s, text, base, ins);
    var toks := s.toks;
    if s.matchAvailable {
      var b := s.window[s.strstart - 1];
      CoverLiteral(s.toks, text, base + s.strstart - 1);
      toks := toks + [Lz.Literal(b)];
    }
    s' := s.(toks := toks, matchAvailable := true, strstart := s.strstart + 1, lookahead := s.lookahead - 1);
    MidStep(p, s, text, base, ins, s');
  }

  /** The round `r` leads from `s` to `s'`. */
  ghost predicate Turned(p: Params, tuning: Tuning, filtered: bool, s: State, text: seq<nat>, base: nat,
                         ins: set<nat>, s': State, ins': set<nat>, r: Round)
    requires p.Valid()
  {
    && r.at == base + s.strstart && r.size == |text| && r.low == base && r.available == s.matchAvailable
    && r.held == s.matchLength && r.from == base + s.matchStart
    && (r.available ==> r.at >= 1) && (r.held >= 3 ==> r.available && r.from < r.at - 1) && r.at < r.size
    && (forall c: nat :: c in r.dict <==> c in Entered(ins, base) || (c == r.at && c > base && c + 3 <= r.size))
    && Finds(p, tuning, filtered, text, r.dict, r.at, r.held, r.found, r.start)
    && s'.toks == s.toks + Emits(text, r) && base + s'.strstart == NextAt(r) && s'.matchAvailable == !Writes(r)
    && s'.matchLength == (if Writes(r) then 2 else r.found) && (!Writes(r) ==> base + s'.matchStart == r.start)
    && forall c: nat :: c in Entered(ins', base) <==>
         c in Entered(ins, base) || (c > base && r.at <= c < NextAt(r) && c + 3 <= r.size)
  }

  lemma EnteredRound(s: State, base: nat, ins: set<nat>, ins1: set<nat>, ins2: set<nat>, end: nat, next: nat)
    requires forall i: nat :: i in ins1 <==> i in ins || (i == s.strstart && i + 3 <= end)
    requires forall i: nat :: i in ins2 <==> i in ins1 || (s.strstart < i < next && i + 3 <= end)
    requires next > s.strstart
    ensures forall c: nat :: c in Entered(ins1, base) <==>
      c in Entered(ins, base) || (c == base + s.strstart && c > base && c + 3 <= base + end)
    ensures forall c: nat :: c in Entered(ins2, base) <==>
      c in Entered(ins, base) || (c > base && base + s.strstart <= c < base + next && c + 3 <= base + end)
  {
    forall c: nat ensures c > base ==>
        && (c in Entered(ins, base) <==> c - base in ins) && (c in Entered(ins1, base) <==> c - base in ins1)
        && (c in Entered(ins2, base) <==> c - base in ins2)
    {
    }
  }

  lemma TurnMade(p: Params, tuning: Tuning, filtered: bool, s: State, text: seq<nat>, base: nat, ins: set<nat>,
                 mid: State, ins1: set<nat>, s': State, ins2: set<nat>, r: Round)
    requires p.Valid() && |text| == base + End(s) && s.lookahead > 0 && (s.matchAvailable ==> s.strstart >= 1)
    requires s.matchLength >= MIN_MATCH ==> s.matchAvailable && s.matchStart < s.strstart - 1
    requires mid.toks == s.toks && mid.strstart == s.strstart && mid.matchAvailable == s.matchAvailable
    requires mid.prevLength == s.matchLength && mid.prevMatch == s.matchStart
    requires r == Round(base + s.strstart, |text|, base, Entered(ins1, base), s.matchAvailable, s.matchLength,
                        base + s.matchStart, mid.matchLength, base + mid.matchStart)
    requires Finds(p, tuning, filtered, text, Entered(ins1, base), base + s.strstart, s.matchLength, mid.matchLength,
                   base + mid.matchStart)
    requires forall i: nat :: i in ins1 <==> i in ins || (i == s.strstart && i + 3 <= End(s))
    requires forall i: nat :: i in ins2 <==> i in ins1 || (s.strstart < i < s'.strstart && i + 3 <= End(s))
    requires if mid.prevLength >= MIN_MATCH && mid.matchLength <= mid.prevLength then
               && s'.toks == mid.toks + [Lz.Token.Match(mid.prevLength, mid.strstart - 1 - mid.prevMatch)]
               && s'.strstart == mid.strstart - 1 + mid.prevLength && !s'.matchAvailable
               && s'.matchLength == MIN_MATCH - 1
             else
               && s'.strstart == mid.strstart + 1 && s'.matchAvailable && s'.matchLength == mid.matchLength
               && s'.matchStart == mid.matchStart
               && s'.toks == mid.toks + if mid.matchAvailable then [Lz.Literal(text[base + mid.strstart - 1])] else []
    ensures Turned(p, tuning, filtered, s, text, base, ins, s', ins2, r)
  {
    hide Finds, Entered;
    EnteredRound(s, base, ins, ins1, ins2, End(s), s'.strstart);
  }

  lemma HeldBefore(p: Params, s: State, text: seq<nat>, base: nat, ins: set<nat>)
    requires SlowOk(p, s, text, base, ins)
    ensures s.matchLength >= MIN_MATCH ==> s.matchAvailable && s.matchStart < s.strstart - 1
  {
    hide Good, Covers;
  }

  /** One round of `deflate_slow`. */
  method SlowRound(p: Params, tuning: Tuning, filtered: bool, s: State, ghost text: seq<nat>, ghost base: nat,
                   ghost ins: set<nat>)
    returns (s': State, ghost ins': set<nat>, ghost r: Round)
    requires SlowOk(p, s, text, base, ins) && s.lookahead > 0 && s.strstart + MIN_LOOKAHEAD <= 2 * p.wsize
    ensures SlowOk(p, s', text, base, ins') && s'.strstart > s.strstart && End(s') == End(s)
    ensures Turned(p, tuning, filtered, s, text, base, ins, s', ins', r)
  {
    hide Mid, Good, Covers, Inserted, TextMatch, OnChain, HashAt, Finds, Entered, Turned, Holds, TextMatch;
    GoodSizes(p, s, text, base, ins);
    HeldBefore(p, s, text, base, ins);
    var hashHead, s1;
    s1, hashHead, ins' := Insert(p, s, text, base, ins);
    MidAgain(p, s1, text, base, ins');
    s' := s1.(prevLength := s.matchLength, prevMatch := s.matchStart, matchLength := MIN_MATCH - 1);
    SameMid(p, s1, s', text, base, ins');
    s' := FindLonger(p, tuning, filtered, s', hashHead, text, base, ins');
    ghost var mid, ins1 := s', ins';
    r := Round(base + s.strstart, |text|, base, Entered(ins1, base), s.matchAvailable, s.matchLength,
               base + s.matchStart, s'.matchLength, base + s'.matchStart);
    if s'.prevLength >= MIN_MATCH && s'.matchLength <= s'.prevLength {
      s', ins' := SlowMatch(p, s', text, base, ins');
    } else {
      s' := SlowLiteral(p, s', text, base, ins');
    }
    TurnMade(p, tuning, filtered, s, text, base, ins, mid, ins1, s', ins', r);
  }

  /** The state is that after `rounds`. */
  ghost predicate Linked(p: Params, tuning: Tuning, filtered: bool, s: State, text: seq<nat>, base: nat, ins: set<nat>,
                         rounds: seq<Round>)
    requires p.Valid()
  {
    && Trace(p, tuning, filtered, text, rounds) && s.toks == Written(text, rounds)
    && base + s.strstart == EndAt(rounds) && (base == 0 || s.strstart >= p.MaxDist())
    && if rounds == [] then !s.matchAvailable && s.matchLength == 2 && Entered(ins, base) == {}
       else
         var r := rounds[|rounds| - 1];
         && s.matchAvailable == !Writes(r) && s.matchLength == (if Writes(r) then 2 else r.found)
         && (!Writes(r) ==> base + s.matchStart == r.start) && r.low <= base && r.size <= |text|
         && forall c: nat :: c in Entered(ins, base) <==>
              c > base && (c in r.dict || (r.at < c < NextAt(r) && c + 3 <= r.size))
  }

  lemma LinkTurned(p: Params, tuning: Tuning, filtered: bool, s: State, text: seq<nat>, base: nat, ins: set<nat>,
                   rounds: seq<Round>, s': State, ins': set<nat>, r: Round)
    requires p.Valid() && Linked(p, tuning, filtered, s, text, base, ins, rounds)
    requires Turned(p, tuning, filtered, s, text, base, ins, s', ins', r) && s'.strstart > s.strstart
    ensures Linked(p, tuning, filtered, s', text, base, ins', rounds + [r])
  {
    hide Finds, Entered, Written, Trace, Emits;
    assert text[..|text|] == text;
    assert RoundOk(p, tuning, filtered, text, r);
    if rounds == [] {
      assert r.dict == {};
    } else {
      var q := rounds[|rounds| - 1];
      forall c: nat ensures c in r.dict <==>
          c > r.low && (c in q.dict || (q.at < c < r.at && c + 3 <= q.size) || (c == r.at && c + 3 <= r.size)) {
      }
    }
    TraceNext(p, tuning, filtered, text, rounds, r);
    forall c: nat ensures c in Entered(ins', base) <==>
        c > base && (c in r.dict || (r.at < c < NextAt(r) && c + 3 <= r.size)) {
      assert c in Entered(ins, base) ==> c > base by { EnteredAbove(ins, base, c); }
    }
  }

  lemma EnteredAbove(ins: set<nat>, base: nat, c: nat)
    ensures c in Entered(ins, base) ==> c > base
  {
  }

  lemma LinkFilled(p: Params, tuning: Tuning, filtered: bool, s: State, text: seq<nat>, base: nat, ins: set<nat>,
                   rounds: seq<Round>, s': State, more: seq<nat>, base': nat, ins': set<nat>)
    requires p.Valid() && Linked(p, tuning, filtered, s, text, base, ins, rounds)
    requires Filled(s, base, s', base') && Retained(ins, base, ins', base')
    requires base' == base || s'.strstart >= p.MaxDist()
    ensures Linked(p, tuning, filtered, s', text + more, base', ins', rounds)
  {
    hide Entered, Written, Trace;
    TraceMore(p, tuning, filtered, text, more, rounds);
    if rounds != [] {
      var r := rounds[|rounds| - 1];
      forall c: nat ensures c in Entered(ins', base') <==>
          c > base' && (c in r.dict || (r.at < c < NextAt(r) && c + 3 <= r.size)) {
      }
    }
  }

  lemma SlowMore(p: Params, s: State, text: seq<nat>, base: nat, ins: set<nat>, more: seq<nat>,
                 s': State, base': nat, ins': set<nat>)
    requires SlowOk(p, s, text, base, ins) && Good(p, s', text + more, base', ins') && Filled(s, base, s', base')
    requires s.strstart >= 1 ==> s'.strstart >= 1
    ensures SlowOk(p, s', text + more, base', ins')
  {
    hide Good, Covers, TextMatch;
    CoverMore(s.toks, text, more, Reached(s, base));
    if s.matchLength >= MIN_MATCH {
      MatchMore(p, text, more, base + s.matchStart, base + s.strstart - 1, s.matchLength);
    }
  }

  /** A call of `deflate_slow`, with the rounds of the calls before it. */
  method DeflateSlow(p: Params, tuning: Tuning, filtered: bool, s: State, input: seq<nat>, finish: bool,
                     ghost text: seq<nat>, ghost base: nat, ghost ins: set<nat>, ghost rounds: seq<Round>)
    returns (s': State, ghost base': nat, ghost ins': set<nat>, ghost rounds': seq<Round>)
    requires SlowOk(p, s, text, base, ins) && forall i :: 0 <= i < |input| ==> input[i] < 256
    ensures SlowOk(p, s', text + input, base', ins')
    ensures finish ==> Covers(s'.toks, text + input, |text + input|)
    ensures p.Valid() && Linked(p, tuning, filtered, s, text, base, ins, rounds) ==>
      if finish then LazyTokens(p, tuning, filtered, text + input, rounds', s'.toks)
      else Linked(p, tuning, filtered, s', text + input, base', ins', rounds')
  {
    hide Good, Covers, SlowOk, Linked, Turned, Retained;
    s', base', ins', rounds' := s, base, ins, rounds;
    SlowFacts(p, s', text, base', ins');
    ghost var linked := Linked(p, tuning, filtered, s, text, base, ins, rounds);
    var avail := input;
    ghost var known := text;
    while true
      invariant SlowOk(p, s', known, base', ins') && known + avail == text + input && p.Valid()
      invariant linked ==> Linked(p, tuning, filtered, s', known, base', ins', rounds')
      invariant forall i :: 0 <= i < |avail| ==> avail[i] < 256
      decreases |text + input| - (base' + s'.strstart)
    {
      SlowFacts(p, s', known, base', ins');
      if s'.lookahead < MIN_LOOKAHEAD {
        ghost var was, s0, base0, ins0 := known, s', base', ins';
        s', avail, known, base', ins' := FillWindow(p, s', avail, known, base', ins');
        assert known == was + known[|was|..];
        SlowMore(p, s0, was, base0, ins0, known[|was|..], s', base', ins');
        if linked {
          LinkFilled(p, tuning, filtered, s0, was, base0, ins0, rounds', s', known[|was|..], base', ins');
        }
        SlowFacts(p, s', known, base', ins');
        if s'.lookahead < MIN_LOOKAHEAD && !finish {
          assert known + [] == known;
          return;
        }
        if s'.lookahead == 0 {
          assert known + [] == known;
          break;
        }
      }
      assert |known| <= |known + avail|;
      ghost var r, s0, ins0 := Round(0, 0, 0, {}, false, 0, 0, 0, 0), s', ins';
      s', ins', r := SlowRound(p, tuning, filtered, s', known, base', ins');
      SlowFacts(p, s', known, base', ins');
      if linked {
        LinkTurned(p, tuning, filtered, s0, known, base', ins0, rounds', s', ins', r);
      }
      rounds' := rounds' + [r];
    }
    ghost var s0 := s';
    s' := LastByte(p, s', known, base', ins');
    if linked {
      LinkedEnd(p, tuning, filtered, s0, known, base', ins', rounds', s');
    }
  }

  lemma SlowFacts(p: Params, s: State, text: seq<nat>, base: nat, ins: set<nat>)
    requires SlowOk(p, s, text, base, ins)
    ensures p.Valid() && Good(p, s, text, base, ins) && Sound(p, s, text, base, ins)
    ensures |s.window| == 2 * p.wsize && End(s) <= |s.window| && base + End(s) == |text|
  {
    hide Good, Covers, TextMatch;
    GoodSizes(p, s, text, base, ins);
  }

  /** At the end of the input the byte held back is written. */
  method LastByte(p: Params, s: State, ghost text: seq<nat>, ghost base: nat, ghost ins: set<nat>) returns (s': State)
    requires SlowOk(p, s, text, base, ins) && s.lookahead == 0
    ensures SlowOk(p, s', text, base, ins) && Covers(s'.toks, text, |text|)
    ensures |text| == base + s.strstart && (s.matchAvailable ==> text != [])
    ensures s'.toks == s.toks + if s.matchAvailable then [Lz.Literal(text[|text| - 1])] else []
  {
    hide Good, Covers, TextMatch;
    GoodSizes(p, s, text, base, ins);
    s' := s;
    NoMatchLeft(p, s, text, base, ins);
    if s.matchAvailable {
      assert Holds(s, text, base) by { GoodHolds(p, s, text, base, ins); }
      var b := s.window[s.strstart - 1];
      CoverLiteral(s.toks, text, base + s.strstart - 1);
      s' := s.(toks := s.toks + [Lz.Literal(b)], matchAvailable := false);
      SameGood(p, s, s', text, base, ins);
    }
  }

  lemma LinkedEnd(p: Params, tuning: Tuning, filtered: bool, s: State, text: seq<nat>, base: nat, ins: set<nat>,
                  rounds: seq<Round>, s': State)
    requires p.Valid() && Linked(p, tuning, filtered, s, text, base, ins, rounds) && |text| == base + s.strstart
    requires s.matchAvailable ==> text != []
    requires s'.toks == s.toks + if s.matchAvailable then [Lz.Literal(text[|text| - 1])] else []
    ensures LazyTokens(p, tuning, filtered, text, rounds, s'.toks)
  {
    hide Trace, Written, Entered;
  }

  lemma GoodHolds(p: Params, s: State, text: seq<nat>, base: nat, ins: set<nat>)
    requires Good(p, s, text, base, ins)
    ensures Holds(s, text, base)
  {
  }

  /** A match reaches beyond the byte held back. */
  lemma NoMatchLeft(p: Params, s: State, text: seq<nat>, base: nat, ins: set<nat>)
    requires SlowOk(p, s, text, base, ins) && s.lookahead == 0
    ensures s.matchLength < MIN_MATCH
  {
    hide Good, Covers;
    GoodSizes(p, s, text, base, ins);
  }

  // ------------------------------------------------- deflate_rle

  /** What holds at the top of the loop of `deflate_rle`, which keeps no dictionary. */
  ghost predicate RleOk(p: Params, s: State, text: seq<nat>, base: nat) {
    p.Valid() && Sound(p, s, text, base, {}) && Covers(s.toks, text, base + s.strstart)
  }

  lemma NoChains(p: Params, s: State, s': State, text: seq<nat>, base: nat)
    requires Sound(p, s, text, base, {}) && s'.strstart >= s.strstart && End(s') == End(s)
    requires s'
         == s.(strstart := s'.strstart, lookahead := s'.lookahead, toks := s'.toks, matchLength := s'.matchLength)
    ensures Sound(p, s', text, base, {})
  {
    hide HashAt;
    ChainsOn(p, s.window, s.head, s.prev, {}, s.strstart, s'.strstart, End(s));
  }

  /**
   How often the previous byte repeats, up to the longest match; the unrolled loop asks for the end only every eighth
   time.
  */
  method RunLength(window: seq<nat>, strstart: nat) returns (len: nat)
    requires 1 <= strstart && strstart + MAX_MATCH < |window|
    ensures len == 0 || (MIN_MATCH <= len <= MAX_MATCH && forall k :: strstart <= k < strstart + len ==>
      window[k] == window[strstart - 1])
    ensures 0 < len < MAX_MATCH ==> window[strstart + len] != window[strstart - 1]
    ensures len == 0 ==> exists k :: strstart <= k < strstart + MIN_MATCH && window[k] != window[strstart - 1]
  {
    var scan := strstart - 1;
    var prev := window[scan];
    if prev != window[scan + 1] || prev != window[scan + 2] || prev != window[scan + 3] {
      return 0;
    }
    scan := scan + 3;
    var strend := strstart + MAX_MATCH;
    while scan < strend
      invariant strstart + 2 <= scan <= strend && forall k :: strstart <= k < scan ==> window[k] == prev
      invariant scan < strend ==> window[scan] == prev
      decreases strend - scan
    {
      scan := scan + 1;
      if prev != window[scan] {
        break;
      }
    }
    len := MAX_MATCH - (strend - scan);
  }

  /** One round of `deflate_rle`: a run, or a literal. */
  method RleRound(p: Params, s: State, ghost text: seq<nat>, ghost base: nat) returns (s': State)
    requires RleOk(p, s, text, base) && s.lookahead > 0 && s.strstart + MIN_LOOKAHEAD <= 2 * p.wsize + 3
    ensures RleOk(p, s', text, base) && s'.strstart > s.strstart && End(s') == End(s)
    ensures (s.strstart > 0 || base == 0) && base + s.strstart < |text| ==>
      && s'.toks == s.toks + [Runs.TokenAt(text, base + s.strstart)]
      && base + s'.strstart == Runs.NextAt(text, base + s.strstart)
  {
    hide Covers, Chains, TextMatch, Runs.TokenAt, Runs.NextAt, Runs.RunFrom, Holds, Sound;
    SoundSizes(p, s, text, base, {});
    SoundHolds(p, s, text, base);
    var n := 0;
    if s.lookahead >= MIN_MATCH && s.strstart > 0 {
      n := RunLength(s.window, s.strstart);
      if n > s.lookahead {
        n := s.lookahead;
      }
    }
    if s.strstart > 0 || base == 0 {
      RunInText(p, s, text, base, n);
    }
    if n >= MIN_MATCH {
      RunMatch(p, s, text, base, n);
      CoverMatch(p, s.toks, text, base + s.strstart - 1, base + s.strstart, n);
      s' := s.(toks := s.toks + [Lz.Token.Match(n, 1)], lookahead := s.lookahead - n, strstart := s.strstart + n,
               matchLength := 0);
    } else {
      var b := s.window[s.strstart];
      ByteInText(s, text, base);
      CoverLiteral(s.toks, text, base + s.strstart);
      s' := s.(toks := s.toks + [Lz.Literal(b)], lookahead := s.lookahead - 1, strstart := s.strstart + 1,
               matchLength := 0);
    }
    NoChains(p, s, s', text, base);
  }

  lemma SoundHolds(p: Params, s: State, text: seq<nat>, base: nat)
    requires Sound(p, s, text, base, {})
    ensures Holds(s, text, base)
  {
  }

  lemma ByteInText(s: State, text: seq<nat>, base: nat)
    requires Holds(s, text, base) && s.lookahead > 0
    ensures base + s.strstart < |text| && s.strstart < |s.window| && s.window[s.strstart] == text[base + s.strstart] < 256
  {
  }

  /** The run that is found is the run in the text. */
  lemma RunInText(p: Params, s: State, text: seq<nat>, base: nat, n: nat)
    requires p.Valid() && Holds(s, text, base) && s.lookahead > 0 && (s.strstart > 0 || base == 0)
    requires n >= MIN_MATCH ==>
      && s.strstart >= 1 && n <= MAX_MATCH && n <= s.lookahead
      && (forall k :: s.strstart <= k < s.strstart + n ==> s.window[k] == s.window[s.strstart - 1])
      && (n < MAX_MATCH && n < s.lookahead ==> s.window[s.strstart + n] != s.window[s.strstart - 1])
    requires n < MIN_MATCH && s.lookahead >= MIN_MATCH && s.strstart > 0 ==>
      exists k :: s.strstart <= k < s.strstart + MIN_MATCH && s.window[k] != s.window[s.strstart - 1]
    ensures var q := base + s.strstart;
      && q < |text|
      && Runs.TokenAt(text, q) == (if n >= MIN_MATCH then Lz.Token.Match(n, 1) else Lz.Literal(s.window[s.strstart]))
      && Runs.NextAt(text, q) == q + if n >= MIN_MATCH then n else 1
  {
    var q := base + s.strstart;
    assert s.window[s.strstart] == text[q];
    if q >= 1 {
      forall k | q - 1 <= k < |text| ensures s.window[k - base] == text[k] {
        assert s.window[k - base] == text[base + (k - base)];
      }
      if n >= MIN_MATCH {
        forall k | q <= k < q + n ensures text[k] == text[q - 1] {
          assert s.window[k - base] == s.window[s.strstart - 1];
        }
        Runs.RunIs(text, q, 0, n);
      } else if s.lookahead >= MIN_MATCH {
        var k :| s.strstart <= k < s.strstart + MIN_MATCH && s.window[k] != s.window[s.strstart - 1];
        Runs.RunEnds(text, q, 0, k - s.strstart);
      }
    }
  }

  /** A run in the window is a match of distance one in the text. */
  lemma RunMatch(p: Params, s: State, text: seq<nat>, base: nat, n: nat)
    requires p.Valid() && Holds(s, text, base) && s.strstart >= 1 && MIN_MATCH <= n <= s.lookahead && n <= MAX_MATCH
    requires forall k :: s.strstart <= k < s.strstart + n ==> s.window[k] == s.window[s.strstart - 1]
    ensures TextMatch(p, text, base + s.strstart - 1, base + s.strstart, n)
  {
    var q := base + s.strstart;
    forall k | q <= k < q + n ensures text[k] == text[k - 1] {
      assert s.window[k - base] == text[base + (k - base)] && s.window[k - 1 - base] == text[base + (k - 1 - base)];
    }
  }

  /** The tokens so far are those of the text, whatever follows. */
  ghost predicate RleLinked(p: Params, s: State, text: seq<nat>, base: nat)
    requires p.Valid()
  {
    (base == 0 || s.strstart >= p.MaxDist()) && Runs.Settled(text, s.toks, base + s.strstart)
  }

  /** The same during a call, for the text with all its input. */
  ghost predicate RleSoFar(p: Params, s: State, base: nat, whole: seq<nat>, finish: bool)
    requires p.Valid()
  {
    && (base == 0 || s.strstart >= p.MaxDist()) && Runs.UpTo(whole, s.toks, base + s.strstart)
    && (!finish ==> Runs.Settled(whole, s.toks, base + s.strstart))
  }

  lemma RleStart(p: Params, s: State, text: seq<nat>, base: nat, input: seq<nat>, finish: bool)
    requires p.Valid() && RleLinked(p, s, text, base)
    ensures RleSoFar(p, s, base, text + input, finish)
  {
    hide Runs.UpTo;
    forall more ensures Runs.UpTo(text + input + more, s.toks, base + s.strstart) {
      assert text + input + more == text + (input + more);
    }
  }

  lemma FilledFacts(p: Params, s: State, base: nat, s': State, base': nat, whole: seq<nat>, finish: bool)
    requires p.Valid() && Filled(s, base, s', base') && (base' == base || s'.strstart >= p.MaxDist())
    ensures base' + s'.strstart == base + s.strstart && s'.toks == s.toks
    ensures RleSoFar(p, s, base, whole, finish) ==> RleSoFar(p, s', base', whole, finish)
  {
    hide Runs.UpTo, Runs.Settled;
  }

  lemma RleStop(p: Params, s: State, whole: seq<nat>, base: nat, finish: bool)
    requires p.Valid() && RleSoFar(p, s, base, whole, finish)
    ensures finish && base + s.strstart == |whole| ==> s.toks == Runs.TokensFrom(whole, 0)
    ensures !finish ==> RleLinked(p, s, whole, base)
  {
    hide Runs.UpTo, Runs.Settled, Runs.TokensFrom;
    if base + s.strstart == |whole| {
      Runs.UpToEnd(whole, s.toks);
    }
  }

  lemma RleNext(p: Params, s: State, s': State, base: nat, known: seq<nat>, whole: seq<nat>, finish: bool)
    requires p.Valid() && RleSoFar(p, s, base, whole, finish) && s'.strstart > s.strstart
    requires base + s.strstart < |known| && known <= whole
    requires base + s.strstart + 258 <= |known| || (finish && whole == known)
    requires s.strstart > 0 || base == 0 ==>
      && s'.toks == s.toks + [Runs.TokenAt(known, base + s.strstart)]
      && base + s'.strstart == Runs.NextAt(known, base + s.strstart)
    ensures RleSoFar(p, s', base, whole, finish)
  {
    hide Runs.UpTo, Runs.TokenAt, Runs.NextAt;
    var toks, at: nat := s.toks, base + s.strstart;
    Runs.UpToNext(known, whole, toks, at);
    if !finish {
      forall more ensures Runs.UpTo(whole + more, s'.toks, base + s'.strstart) {
        Runs.UpToNext(known, whole + more, toks, at);
      }
    }
  }

  /** A call of `deflate_rle`. */
  method DeflateRle(p: Params, s: State, input: seq<nat>, finish: bool, ghost text: seq<nat>, ghost base: nat)
    returns (s': State, ghost base': nat)
    requires RleOk(p, s, text, base) && forall i :: 0 <= i < |input| ==> input[i] < 256
    ensures RleOk(p, s', text + input, base')
    ensures finish ==> Covers(s'.toks, text + input, |text + input|)
    ensures RleLinked(p, s, text, base) ==>
      if finish then s'.toks == Runs.TokensFrom(text + input, 0) else RleLinked(p, s', text + input, base')
  {
    hide Sound, Covers, Good, Runs.TokensFrom, Runs.TokenAt, Runs.NextAt, Retained, Entered, RleSoFar, RleLinked,
      Filled;
    ghost var whole, linked := text + input, RleLinked(p, s, text, base);
    if linked {
      RleStart(p, s, text, base, input, finish);
    }
    s', base' := s, base;
    var avail := input;
    ghost var known, none := text, {};
    while true
      invariant RleOk(p, s', known, base') && known + avail == text + input
      invariant linked ==> RleSoFar(p, s', base', whole, finish)
      invariant forall i :: 0 <= i < |avail| ==> avail[i] < 256
      decreases |text + input| - (base' + s'.strstart)
    {
      SoundSizes(p, s', known, base', {});
      if s'.lookahead <= MAX_MATCH {
        ghost var was, old_, base0 := known, s', base';
        s', avail, known, base', none := FillWindow(p, s', avail, known, base', {});
        assert known == was + known[|was|..];
        FilledFacts(p, old_, base0, s', base', whole, finish);
        CoverMore(old_.toks, was, known[|was|..], base' + s'.strstart);
        SoundSizes(p, s', known, base', {});
        if s'.lookahead <= MAX_MATCH && !finish {
          assert known + [] == known;
          if linked {
            RleStop(p, s', whole, base', finish);
          }
          return;
        }
        if s'.lookahead == 0 {
          assert known + [] == known;
          if linked {
            RleStop(p, s', whole, base', finish);
          }
          return;
        }
      }
      assert |known| <= |known + avail|;
      ghost var s0 := s';
      s' := RleRound(p, s', known, base');
      if linked {
        RleNext(p, s0, s', base', known, whole, finish);
      }
      SoundSizes(p, s', known, base', {});
    }
  }

  /** The state of a new stream: empty window and dictionary. */
  function Fresh(p: Params): State {
    State(seq(2 * p.wsize, _ => 0), seq(Bits.Pow2(p.hashBits), _ => 0), seq(p.wsize, _ => 0), 0, 0, 0, 0,
      MIN_MATCH - 1, MIN_MATCH - 1, 0, false, [])
  }

  /** From there all three can start. */
  lemma FreshOk(p: Params)
    requires p.Valid()
    ensures FastOk(p, Fresh(p), [], 0, {}) && SlowOk(p, Fresh(p), [], 0, {}) && RleOk(p, Fresh(p), [], 0)
    ensures forall tuning, filtered :: Linked(p, tuning, filtered, Fresh(p), [], 0, {}, [])
    ensures forall tuning :: FastLinked(p, tuning, Fresh(p), [], 0, {}, [])
    ensures RleLinked(p, Fresh(p), [], 0)
  {
    hide Bits.Pow2, HashAt;
  }
}
