/**
 Run-length coding of code lengths, RFC 1951 section 3.2.7: what `scan_tree` and
 `send_tree` (src/zlib/trees.c) cut a list of lengths into, and what the CODELENS
 mode of src/zlib/inflate.c makes of it.
 */
module RunLength {
  import opened Bits

  const REP_3_6 := 16
  const REPZ_3_10 := 17
  const REPZ_11_138 := 18
  const GUARD := 0xffff

  /** A symbol 0..18 of the code-length alphabet with the value of its repeat bits. */
  datatype Run = Run(sym: nat, extra: nat)

  /** The source's table `extra_blbits`. */
  function ExtraBlBits(sym: nat): nat {
    if sym == REP_3_6 then 2 else if sym == REPZ_3_10 then 3 else if sym == REPZ_11_138 then 7 else 0
  }

  predicate ValidRun(r: Run) {
    r.sym <= 18 && r.extra < Pow2(ExtraBlBits(r.sym))
  }

  function Copies(n: nat, v: nat): (s: seq<nat>)
    ensures |s| == n && forall i :: 0 <= i < n ==> s[i] == v
  {
    seq(n, _ => v)
  }

  // ------------------------------------------------------------- decoding

  datatype Option = None | Some(value: seq<nat>)

  /** The lengths read so far, after one more symbol. */
  function Apply(acc: seq<nat>, r: Run): Option {
    if r.sym < 16 then Some(acc + [r.sym])
    else if r.sym == REP_3_6 then
      if acc == [] then None else Some(acc + Copies(3 + r.extra, acc[|acc| - 1]))
    else if r.sym == REPZ_3_10 then Some(acc + Copies(3 + r.extra, 0))
    else Some(acc + Copies(11 + r.extra, 0))
  }

  function Expand(acc: seq<nat>, rs: seq<Run>): Option
    decreases |rs|
  {
    if rs == [] then Some(acc)
    else match Apply(acc, rs[0])
      case None => None
      case Some(a) => Expand(a, rs[1..])
  }

  lemma {:induction false} ExpandConcat(acc: seq<nat>, a: seq<Run>, b: seq<Run>)
    ensures Expand(acc, a + b) == match Expand(acc, a) case None => None case Some(mid) => Expand(mid, b)
    decreases |a|
  {
    if a == [] {
      assert a + b == b;
    } else {
      assert (a + b)[1..] == a[1..] + b;
      match Apply(acc, a[0])
      case None =>
      case Some(mid) => ExpandConcat(mid, a[1..], b);
    }
  }

  /** Lengths only ever get longer, so no repeat reaches past the final list. */
  lemma {:induction false} ExpandGrows(acc: seq<nat>, rs: seq<Run>)
    requires Expand(acc, rs).Some?
    ensures |acc| + |rs| <= |Expand(acc, rs).value|
    decreases |rs|
  {
    if rs != [] {
      ExpandGrows(Apply(acc, rs[0]).value, rs[1..]);
    }
  }

  // ------------------------------------------------------------- encoding

  /** When to stop collecting a run of `cur` after `prev`, and when to send a repeat. */
  function MaxCount(cur: nat, prev: int): nat {
    if cur == 0 then 138 else if cur == prev then 6 else 7
  }

  function MinCount(cur: nat, prev: int): nat {
    if cur == 0 || cur == prev then 3 else 4
  }

  /** What is sent for `count` times `cur` after `prev`. */
  function Emit(cur: nat, prev: int, count: nat): seq<Run> {
    if count < MinCount(cur, prev) then seq(count, _ => Run(cur, 0))
    else if cur != 0 then
      (if cur != prev then [Run(cur, 0), Run(REP_3_6, count - 4)] else [Run(REP_3_6, count - 3)])
    else if count <= 10 then [Run(REPZ_3_10, count - 3)]
    else if count >= 11 then [Run(REPZ_11_138, count - 11)]
    else []
  }

  function NextLen(lens: seq<nat>, n: nat): nat {
    if n < |lens| then lens[n] else GUARD
  }

  /** The symbols for the lengths from `n` on, when `count` equal ones before are pending. */
  function Runs(lens: seq<nat>, n: nat, count: nat, prev: int): seq<Run>
    requires n <= |lens|
    decreases |lens| - n
  {
    if n == |lens| then []
    else if count + 1 < MaxCount(lens[n], prev) && lens[n] == NextLen(lens, n + 1) then
      Runs(lens, n + 1, count + 1, prev)
    else Emit(lens[n], prev, count + 1) + Runs(lens, n + 1, 0, lens[n])
  }

  function AllRuns(lens: seq<nat>): seq<Run> {
    Runs(lens, 0, 0, -1)
  }

  // ------------------------------------------------------------- how many symbols a run takes

  /** A part of a run that is too short for a repeat is sent plainly, any other as one repeat. */
  function Short(k: nat): nat {
    if k < 3 then k else 1
  }

  /** The symbols for `k` times `v`: repeats cover 138 zeros each, and six of any other length after the first seven. */
  function RunSymbols(v: nat, k: nat): nat {
    if v == 0 then k / 138 + Short(k % 138)
    else if k < 4 then k
    else if k < 7 then 2
    else 2 + (k - 7) / 6 + Short((k - 7) % 6)
  }

  /** `t` times `cur` are still to be sent after `prev`. */
  function Rounds(cur: nat, prev: int, t: nat): nat
    decreases t
  {
    if t == 0 then 0
    else if t <= MaxCount(cur, prev) then |Emit(cur, prev, t)|
    else |Emit(cur, prev, MaxCount(cur, prev))| + Rounds(cur, cur, t - MaxCount(cur, prev))
  }

  lemma {:induction false} RoundsZero(prev: int, t: nat)
    ensures Rounds(0, prev, t) == t / 138 + Short(t % 138)
    decreases t
  {
    if t > 138 {
      RoundsZero(0, t - 138);
    }
  }

  lemma {:induction false} RoundsSame(cur: nat, t: nat)
    requires cur != 0
    ensures Rounds(cur, cur, t) == t / 6 + Short(t % 6)
    decreases t
  {
    if t > 6 {
      RoundsSame(cur, t - 6);
    }
  }

  lemma RoundsIs(cur: nat, prev: int, t: nat)
    requires prev != cur
    ensures Rounds(cur, prev, t) == RunSymbols(cur, t)
  {
    if cur == 0 {
      RoundsZero(prev, t);
    } else if t > 7 {
      RoundsSame(cur, t - 7);
    }
  }

  lemma {:induction false} RunsRounds(lens: seq<nat>, n: nat, m: nat, count: nat, prev: int, v: nat)
    requires Small(lens) && n < m <= |lens| && (forall i :: n <= i < m ==> lens[i] == v)
    requires (m < |lens| ==> lens[m] != v) && count < MaxCount(v, prev)
    ensures |Runs(lens, n, count, prev)| == Rounds(v, prev, count + (m - n)) + |Runs(lens, m, 0, v)|
    decreases m - n
  {
    hide Emit;
    if n + 1 < m {
      if count + 1 < MaxCount(v, prev) {
        RunsRounds(lens, n + 1, m, count + 1, prev, v);
      } else {
        RunsRounds(lens, n + 1, m, 0, v, v);
      }
    } else {
      assert lens[n] != NextLen(lens, n + 1);
    }
  }

  /** A run of equal lengths, between others, takes as many symbols as that. */
  lemma RunTakes(lens: seq<nat>, n: nat, m: nat, prev: int, v: nat)
    requires Small(lens) && n < m <= |lens| && (forall i :: n <= i < m ==> lens[i] == v)
    requires (m < |lens| ==> lens[m] != v) && prev != v
    ensures |Runs(lens, n, 0, prev)| == RunSymbols(v, m - n) + |Runs(lens, m, 0, v)|
  {
    RunsRounds(lens, n, m, 0, prev, v);
    RoundsIs(v, prev, m - n);
  }

  // ------------------------------------------------------------- round trip

  ghost predicate Small(lens: seq<nat>) {
    forall i :: 0 <= i < |lens| ==> lens[i] < 16
  }

  lemma {:induction false} ExpandPlain(acc: seq<nat>, cur: nat, count: nat)
    requires cur < 16
    ensures Expand(acc, seq(count, _ => Run(cur, 0))) == Some(acc + Copies(count, cur))
    decreases count
  {
    if count == 0 {
      assert acc + Copies(0, cur) == acc;
    } else {
      var rs := seq(count, _ => Run(cur, 0));
      assert rs[1..] == seq(count - 1, _ => Run(cur, 0));
      ExpandPlain(acc + [cur], cur, count - 1);
      assert acc + [cur] + Copies(count - 1, cur) == acc + Copies(count, cur);
    }
  }

  /** One emission decodes to the run that it stands for, and its repeat bits fit. */
  lemma {:induction false} EmitExpands(acc: seq<nat>, cur: nat, prev: int, count: nat)
    requires cur < 16 && 0 < count <= MaxCount(cur, prev)
    requires prev >= 0 ==> acc != [] && acc[|acc| - 1] == prev
    ensures Expand(acc, Emit(cur, prev, count)) == Some(acc + Copies(count, cur))
    ensures forall r :: r in Emit(cur, prev, count) ==> ValidRun(r)
  {
    Pow2Small();
    var rs := Emit(cur, prev, count);
    if count < MinCount(cur, prev) {
      ExpandPlain(acc, cur, count);
    } else if cur != 0 && cur != prev {
      assert Expand(acc, rs) == Expand(acc + [cur], rs[1..]);
      assert rs[1..] == [Run(REP_3_6, count - 4)];
      assert acc + [cur] + Copies(count - 1, cur) == acc + Copies(count, cur);
      ExpandOne(acc + [cur], rs[1]);
    } else {
      ExpandOne(acc, rs[0]);
    }
  }

  lemma {:induction false} ExpandOne(acc: seq<nat>, r: Run)
    ensures Expand(acc, [r]) == Apply(acc, r)
  {
    assert [r][1..] == [];
  }

  /** The pending run is part of the list, and not yet due. */
  ghost predicate Pending(lens: seq<nat>, n: nat, count: nat, prev: int) {
    && count <= n <= |lens|
    && (n < |lens| ==> count < MaxCount(lens[n], prev) && lens[n - count..n] == Copies(count, lens[n]))
    && (n == |lens| ==> count == 0)
  }

  ghost predicate EndsIn(acc: seq<nat>, prev: int) {
    prev >= 0 ==> acc != [] && acc[|acc| - 1] == prev
  }

  lemma PendingGrows(lens: seq<nat>, n: nat, count: nat, prev: int)
    requires Small(lens) && n < |lens| && Pending(lens, n, count, prev)
    requires count + 1 < MaxCount(lens[n], prev) && lens[n] == NextLen(lens, n + 1)
    ensures Pending(lens, n + 1, count + 1, prev)
  {
    assert lens[n - count..n + 1] == lens[n - count..n] + [lens[n]];
    assert lens[n - count..n + 1] == Copies(count + 1, lens[n]);
  }

  lemma PendingJoins(lens: seq<nat>, n: nat, count: nat, prev: int, acc: seq<nat>)
    requires n < |lens| && Pending(lens, n, count, prev)
    ensures acc + Copies(count + 1, lens[n]) + lens[n + 1..] == acc + lens[n - count..]
    ensures Pending(lens, n + 1, 0, lens[n]) && EndsIn(acc + Copies(count + 1, lens[n]), lens[n])
  {
    assert lens[n - count..] == lens[n - count..n] + ([lens[n]] + lens[n + 1..]);
    assert Copies(count + 1, lens[n]) == Copies(count, lens[n]) + [lens[n]];
  }

  lemma {:induction false} RunsExpand(lens: seq<nat>, n: nat, count: nat, prev: int, acc: seq<nat>)
    requires Small(lens) && Pending(lens, n, count, prev) && EndsIn(acc, prev)
    ensures Expand(acc, Runs(lens, n, count, prev)) == Some(acc + lens[n - count..])
    decreases |lens| - n
  {
    hide Emit, Apply, Copies;
    if n == |lens| {
      assert acc + lens[n..] == acc;
    } else if count + 1 < MaxCount(lens[n], prev) && lens[n] == NextLen(lens, n + 1) {
      PendingGrows(lens, n, count, prev);
      RunsExpand(lens, n + 1, count + 1, prev, acc);
    } else {
      var cur := lens[n];
      EmitExpands(acc, cur, prev, count + 1);
      PendingJoins(lens, n, count, prev, acc);
      RunsExpand(lens, n + 1, 0, cur, acc + Copies(count + 1, cur));
      ExpandConcat(acc, Emit(cur, prev, count + 1), Runs(lens, n + 1, 0, cur));
    }
  }

  lemma {:induction false} RunsValid(lens: seq<nat>, n: nat, count: nat, prev: int)
    requires Small(lens) && n <= |lens| && (n < |lens| ==> count < MaxCount(lens[n], prev))
    ensures forall r :: r in Runs(lens, n, count, prev) ==> ValidRun(r)
    decreases |lens| - n
  {
    if n < |lens| {
      if count + 1 < MaxCount(lens[n], prev) && lens[n] == NextLen(lens, n + 1) {
        RunsValid(lens, n + 1, count + 1, prev);
      } else {
        EmitExpands(if prev >= 0 then [prev] else [], lens[n], prev, count + 1);
        RunsValid(lens, n + 1, 0, lens[n]);
      }
    }
  }

  /** Two lists of lengths sent one after the other decode to their concatenation. */
  lemma TwoTreesRoundTrip(llens: seq<nat>, dlens: seq<nat>)
    requires Small(llens) && Small(dlens)
    ensures Expand([], AllRuns(llens) + AllRuns(dlens)) == Some(llens + dlens)
    ensures forall r :: r in AllRuns(llens) + AllRuns(dlens) ==> ValidRun(r)
  {
    RunsExpand(llens, 0, 0, -1, []);
    RunsExpand(dlens, 0, 0, -1, llens);
    ExpandConcat([], AllRuns(llens), AllRuns(dlens));
    assert [] + llens[0..] == llens && dlens[0..] == dlens;
    RunsValid(llens, 0, 0, -1);
    RunsValid(dlens, 0, 0, -1);
  }
}
