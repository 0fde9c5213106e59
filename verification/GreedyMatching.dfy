/**
 Greedy matching, as `deflate_fast` of src/zlib/deflate.c does it, told step by step of the
 text: whatever is found is written at once.
 */
module GreedyMatching {
  import opened HashChains
  import opened LongestMatch
  import opened MatchSearch
  import Lz = Lz77

  /** The length found at `at`, less than three if there is no candidate within reach. */
  ghost predicate Finds(p: Params, tuning: Tuning, text: seq<nat>, dict: set<nat>, at: nat, found: nat, start: int)
    requires p.Valid()
  {
    if at + 3 > |text| || OutOfReach(p, text, dict, at) then found < 3
    else exists looked :: Search(p, tuning, text, dict, at, 2, found, start, looked)
  }

  /** A step at place `at`, when the text is known up to `size` and the window begins at `low`. */
  datatype Step = Step(at: nat, size: nat, low: nat, dict: set<nat>, found: nat, start: int)

  function Emits(text: seq<nat>, r: Step): seq<Lz.Token> {
    if r.found >= 3 then if r.at - r.start >= 0 then [Lz.Token.Match(r.found, r.at - r.start)] else []
    else if r.at < |text| then [Lz.Literal(text[r.at])]
    else []
  }

  function NextAt(r: Step): nat {
    r.at + if r.found >= 3 then r.found else 1
  }

  /** The places inside a match are entered only if it is short enough, and not at the end of the text. */
  predicate EntersInside(tuning: Tuning, r: Step) {
    r.found >= 3 && r.found <= tuning.maxInsert && NextAt(r) + 3 <= r.size
  }

  ghost predicate StepOk(p: Params, tuning: Tuning, text: seq<nat>, r: Step)
    requires p.Valid()
  {
    && r.at < r.size <= |text| && NextAt(r) <= r.size && (r.low == 0 || r.low + p.MaxDist() <= r.at)
    && (r.found >= 3 ==> r.start < r.at) && Finds(p, tuning, text[..r.size], r.dict, r.at, r.found, r.start)
  }

  ghost predicate First(r: Step) {
    r.at == 0 && r.low == 0 && r.dict == {}
  }

  /** Which places have been entered when step `r` is over. */
  ghost predicate EnteredAfter(tuning: Tuning, r: Step, c: nat) {
    c in r.dict || (r.at < c < NextAt(r) && EntersInside(tuning, r))
  }

  ghost predicate Follows(tuning: Tuning, r: Step, s: Step) {
    && s.at == NextAt(r) && s.size >= r.size && s.low >= r.low
    && forall c: nat :: c in s.dict <==> c > s.low && (EnteredAfter(tuning, r, c) || (c == s.at && c + 3 <= s.size))
  }

  ghost predicate Trace(p: Params, tuning: Tuning, text: seq<nat>, steps: seq<Step>)
    requires p.Valid()
  {
    && (forall k :: 0 <= k < |steps| ==> StepOk(p, tuning, text, steps[k]))
    && (steps != [] ==> First(steps[0]))
    && forall k :: 0 < k < |steps| ==> Follows(tuning, steps[k - 1], steps[k])
  }

  function Written(text: seq<nat>, steps: seq<Step>): seq<Lz.Token> {
    if steps == [] then [] else Written(text, steps[..|steps| - 1]) + Emits(text, steps[|steps| - 1])
  }

  function EndAt(steps: seq<Step>): nat {
    if steps == [] then 0 else NextAt(steps[|steps| - 1])
  }

  /** The tokens of a text are those of steps that come to its end. */
  ghost predicate GreedyTokens(p: Params, tuning: Tuning, text: seq<nat>, steps: seq<Step>, toks: seq<Lz.Token>)
    requires p.Valid()
  {
    Trace(p, tuning, text, steps) && toks == Written(text, steps) && EndAt(steps) == |text|
  }

  // ------------------------------------------------- more text

  lemma StepMore(p: Params, tuning: Tuning, text: seq<nat>, more: seq<nat>, r: Step)
    requires p.Valid() && StepOk(p, tuning, text, r)
    ensures StepOk(p, tuning, text + more, r) && Emits(text + more, r) == Emits(text, r)
  {
    hide Finds;
    assert (text + more)[..r.size] == text[..r.size];
  }

  lemma TraceMore(p: Params, tuning: Tuning, text: seq<nat>, more: seq<nat>, steps: seq<Step>)
    requires p.Valid() && Trace(p, tuning, text, steps)
    ensures Trace(p, tuning, text + more, steps) && Written(text + more, steps) == Written(text, steps)
  {
    hide StepOk, Follows, Emits;
    forall k | 0 <= k < |steps|
      ensures StepOk(p, tuning, text + more, steps[k]) && Emits(text + more, steps[k]) == Emits(text, steps[k])
    {
      StepMore(p, tuning, text, more, steps[k]);
    }
    WrittenMore(text, text + more, steps);
  }

  lemma {:induction false} WrittenMore(text: seq<nat>, text': seq<nat>, steps: seq<Step>)
    requires forall k :: 0 <= k < |steps| ==> Emits(text', steps[k]) == Emits(text, steps[k])
    ensures Written(text', steps) == Written(text, steps)
  {
    hide Emits;
    if steps != [] {
      WrittenMore(text, text', steps[..|steps| - 1]);
    }
  }

  lemma TraceNext(p: Params, tuning: Tuning, text: seq<nat>, steps: seq<Step>, r: Step)
    requires p.Valid() && Trace(p, tuning, text, steps) && StepOk(p, tuning, text, r)
    requires if steps == [] then First(r) else Follows(tuning, steps[|steps| - 1], r)
    ensures Trace(p, tuning, text, steps + [r])
    ensures Written(text, steps + [r]) == Written(text, steps) + Emits(text, r)
  {
    hide StepOk, Follows, Emits;
    assert (steps + [r])[..|steps|] == steps;
  }
}
