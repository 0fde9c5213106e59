/**
 Lazy evaluation, as `deflate_slow` of src/zlib/deflate.c does it, told round by round of the
 text: what is found at each place, and which token the match held back becomes.
 */
module LazyMatching {
  import opened HashChains
  import opened LongestMatch
  import opened MatchSearch
  import Lz = Lz77

  /** A match that is not worth its distance, or none when only long matches are wanted, counts for nothing. */
  function Kept(filtered: bool, len: nat, dist: int): nat {
    if len <= 5 && (filtered || (len == 3 && dist > 4096)) then 2 else len
  }

  /**
   The length found at `at` when a match of length `held` is held back: nothing (2) at the
   end of the text, when what is held is long enough, or when there is no candidate within
   reach; else what the search comes to.
  */
  ghost predicate Finds(p: Params, tuning: Tuning, filtered: bool, text: seq<nat>, dict: set<nat>, at: nat, held: nat,
                        found: nat, start: int)
    requires p.Valid()
  {
    if at + 3 > |text| || held >= tuning.maxLazy || OutOfReach(p, text, dict, at) then found == 2
    else
      exists len, looked ::
        Search(p, tuning, text, dict, at, held, len, start, looked) && found == Kept(filtered, len, at - start)
  }

  /**
   A round at place `at`, when the text is known up to `size` and the window begins at
   `low`: the byte before `at` may be held back (`available`), and with it a match of length
   `held` (2 for none) from `from`.  At `at` a match of length `found` is found, from `start`.
  */
  datatype Round = Round(at: nat, size: nat, low: nat, dict: set<nat>, available: bool, held: nat, from: int,
                         found: nat, start: int)

  /** The match held back is written, and not given up for a literal. */
  predicate Writes(r: Round) {
    r.held >= 3 && r.found <= r.held
  }

  function Emits(text: seq<nat>, r: Round): seq<Lz.Token> {
    if Writes(r) then
      if r.at - 1 - r.from >= 0 then [Lz.Token.Match(r.held, r.at - 1 - r.from)] else []
    else if r.available && 1 <= r.at <= |text| then [Lz.Literal(text[r.at - 1])]
    else []
  }

  function NextAt(r: Round): int {
    if Writes(r) then r.at - 1 + r.held else r.at + 1
  }

  ghost predicate RoundOk(p: Params, tuning: Tuning, filtered: bool, text: seq<nat>, r: Round)
    requires p.Valid()
  {
    && r.at < r.size <= |text| && (r.low == 0 || r.low + p.MaxDist() <= r.at)
    && (r.available ==> r.at >= 1) && (r.held >= 3 ==> r.available && r.from < r.at - 1)
    && Finds(p, tuning, filtered, text[..r.size], r.dict, r.at, r.held, r.found, r.start)
  }

  /** The first round: nothing is held back, and nothing has been entered. */
  ghost predicate First(r: Round) {
    r.at == 0 && r.low == 0 && r.dict == {} && !r.available && r.held == 2
  }

  /**
   What the next round takes over.  All places passed have been entered in the dictionary,
   but those with fewer than three bytes left, and kept while they are in the window.
  */
  ghost predicate Follows(r: Round, s: Round) {
    && s.at == NextAt(r) && s.size >= r.size && s.low >= r.low
    && s.available == !Writes(r) && s.held == (if Writes(r) then 2 else r.found) && (!Writes(r) ==> s.from == r.start)
    && forall c: nat :: c in s.dict <==>
         && c > s.low
         && (c in r.dict || (r.at < c < s.at && c + 3 <= r.size) || (c == s.at && c + 3 <= s.size))
  }

  ghost predicate Trace(p: Params, tuning: Tuning, filtered: bool, text: seq<nat>, rounds: seq<Round>)
    requires p.Valid()
  {
    && (forall k :: 0 <= k < |rounds| ==> RoundOk(p, tuning, filtered, text, rounds[k]))
    && (rounds != [] ==> First(rounds[0]))
    && forall k :: 0 < k < |rounds| ==> Follows(rounds[k - 1], rounds[k])
  }

  /** The tokens that the rounds write. */
  function Written(text: seq<nat>, rounds: seq<Round>): seq<Lz.Token> {
    if rounds == [] then [] else Written(text, rounds[..|rounds| - 1]) + Emits(text, rounds[|rounds| - 1])
  }

  /**
   A match of three bytes or more found at some place is written if and only if what is
   found at the next place is no longer; otherwise the byte there is written as a literal.
  */
  lemma LazyRule(p: Params, tuning: Tuning, filtered: bool, text: seq<nat>, rounds: seq<Round>, k: nat)
    requires p.Valid() && Trace(p, tuning, filtered, text, rounds) && k + 1 < |rounds|
    requires !Writes(rounds[k]) && rounds[k].found >= 3
    ensures var r, s := rounds[k], rounds[k + 1];
      && s.at == r.at + 1 && r.start < r.at < |text|
      && Emits(text, s) == [if s.found <= r.found then Lz.Token.Match(r.found, r.at - r.start)
         else Lz.Literal(text[r.at])]
  {
    hide Finds;
    assert RoundOk(p, tuning, filtered, text, rounds[k]) && RoundOk(p, tuning, filtered, text, rounds[k + 1]);
    assert Follows(rounds[k + 1 - 1], rounds[k + 1]);
  }

  // ------------------------------------------------- more text

  lemma RoundMore(p: Params, tuning: Tuning, filtered: bool, text: seq<nat>, more: seq<nat>, r: Round)
    requires p.Valid() && RoundOk(p, tuning, filtered, text, r)
    ensures RoundOk(p, tuning, filtered, text + more, r) && Emits(text + more, r) == Emits(text, r)
  {
    hide Finds;
    assert (text + more)[..r.size] == text[..r.size];
  }

  lemma TraceMore(p: Params, tuning: Tuning, filtered: bool, text: seq<nat>, more: seq<nat>, rounds: seq<Round>)
    requires p.Valid() && Trace(p, tuning, filtered, text, rounds)
    ensures Trace(p, tuning, filtered, text + more, rounds) && Written(text + more, rounds) == Written(text, rounds)
  {
    hide RoundOk, Follows, Emits;
    forall k | 0 <= k < |rounds|
      ensures RoundOk(p, tuning, filtered, text + more, rounds[k])
        && Emits(text + more, rounds[k]) == Emits(text, rounds[k])
    {
      RoundMore(p, tuning, filtered, text, more, rounds[k]);
    }
    WrittenMore(text, text + more, rounds);
  }

  lemma {:induction false} WrittenMore(text: seq<nat>, text': seq<nat>, rounds: seq<Round>)
    requires forall k :: 0 <= k < |rounds| ==> Emits(text', rounds[k]) == Emits(text, rounds[k])
    ensures Written(text', rounds) == Written(text, rounds)
  {
    hide Emits;
    if rounds != [] {
      WrittenMore(text, text', rounds[..|rounds| - 1]);
    }
  }

  lemma TraceNext(p: Params, tuning: Tuning, filtered: bool, text: seq<nat>, rounds: seq<Round>, r: Round)
    requires p.Valid() && Trace(p, tuning, filtered, text, rounds) && RoundOk(p, tuning, filtered, text, r)
    requires if rounds == [] then First(r) else Follows(rounds[|rounds| - 1], r)
    ensures Trace(p, tuning, filtered, text, rounds + [r])
    ensures Written(text, rounds + [r]) == Written(text, rounds) + Emits(text, r)
  {
    hide RoundOk, Follows, Emits;
    assert (rounds + [r])[..|rounds|] == rounds;
  }

  /** The byte still held back after the last round. */
  function LastToken(text: seq<nat>, rounds: seq<Round>): seq<Lz.Token> {
    if rounds != [] && !Writes(rounds[|rounds| - 1]) && text != [] then [Lz.Literal(text[|text| - 1])] else []
  }

  /** Where the next round is. */
  function EndAt(rounds: seq<Round>): int {
    if rounds == [] then 0 else NextAt(rounds[|rounds| - 1])
  }

  /**
   The tokens of a text that is finished: those of its rounds, which come to its end, and
   the last byte if it is held back.
  */
  ghost predicate LazyTokens(p: Params, tuning: Tuning, filtered: bool, text: seq<nat>, rounds: seq<Round>,
                             toks: seq<Lz.Token>)
    requires p.Valid()
  {
    && Trace(p, tuning, filtered, text, rounds) && EndAt(rounds) == |text|
    && toks == Written(text, rounds) + LastToken(text, rounds)
  }

  // ------------------------------------------------- what the dictionary holds

  /** While the input lasts no place is passed over: the dictionary holds every place in the window up to this one. */
  lemma {:induction false} AllEntered(p: Params, tuning: Tuning, filtered: bool, text: seq<nat>, rounds: seq<Round>,
                                      k: nat)
    requires p.Valid() && Trace(p, tuning, filtered, text, rounds) && k < |rounds|
    requires forall j :: 0 <= j <= k ==> NextAt(rounds[j]) + 2 <= rounds[j].size
    ensures forall c: nat :: c in rounds[k].dict <==> rounds[k].low < c <= rounds[k].at
    decreases k
  {
    hide Finds;
    if k > 0 {
      AllEntered(p, tuning, filtered, text, rounds, k - 1);
      assert Follows(rounds[k - 1], rounds[k]);
      var r, s := rounds[k - 1], rounds[k];
      forall c: nat ensures c in s.dict <==> s.low < c <= s.at {
      }
    }
  }
}
