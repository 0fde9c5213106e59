/** `scan_tree` and `send_tree` of src/zlib/trees.c: counting and writing the symbols of a tree's code lengths. */
module SendTree {
  import opened Bits
  import opened GenCodes
  import opened BitWriter
  import opened RunLength
  import opened CompressBlock

  function CountSym(rs: seq<Run>, k: nat): nat {
    if rs == [] then 0 else CountSym(rs[..|rs| - 1], k) + (if rs[|rs| - 1].sym == k then 1 else 0)
  }

  lemma {:induction false} CountSymConcat(a: seq<Run>, b: seq<Run>, k: nat)
    ensures CountSym(a + b, k) == CountSym(a, k) + CountSym(b, k)
  {
    if b == [] {
      assert a + b == a;
    } else {
      CountSymConcat(a, b[..|b| - 1], k);
      assert (a + b)[..|a + b| - 1] == a + b[..|b| - 1];
    }
  }

  ghost function OneRunBits(bllens: seq<nat>, r: Run): seq<bool>
    requires HasCode(bllens, r.sym)
  {
    CodeBits(bllens, r.sym) + BitsOf(r.extra, ExtraBlBits(r.sym))
  }

  ghost predicate RunsCodable(bllens: seq<nat>, rs: seq<Run>) {
    forall i :: 0 <= i < |rs| ==> HasCode(bllens, rs[i].sym)
  }

  ghost function RunBits(bllens: seq<nat>, rs: seq<Run>): seq<bool>
    requires RunsCodable(bllens, rs)
  {
    if rs == [] then [] else RunBits(bllens, rs[..|rs| - 1]) + OneRunBits(bllens, rs[|rs| - 1])
  }

  lemma {:induction false} RunBitsConcat(bllens: seq<nat>, a: seq<Run>, b: seq<Run>)
    requires RunsCodable(bllens, a) && RunsCodable(bllens, b)
    ensures RunsCodable(bllens, a + b)
    ensures RunBits(bllens, a + b) == RunBits(bllens, a) + RunBits(bllens, b)
  {
    hide OneRunBits, HasCode;
    if b == [] {
      assert a + b == a;
    } else {
      var last := |b| - 1;
      assert a + b == (a + b[..last]) + [b[last]];
      RunBitsConcat(bllens, a, b[..|b| - 1]);
      assert (a + b)[..|a + b| - 1] == a + b[..|b| - 1];
    }
  }

  lemma {:induction false} RunBitsOne(bllens: seq<nat>, r: Run)
    requires HasCode(bllens, r.sym)
    ensures RunsCodable(bllens, [r]) && RunBits(bllens, [r]) == OneRunBits(bllens, r)
  {
    assert [r][..0] == [];
  }

  /** Sends one run-length symbol with its repeat bits. */
  method SendRun(w: Writer, r: Run, blTree: seq<CtData>, ghost bllens: seq<nat>)
    requires w.Valid() && TreeFor(blTree, bllens) && HasCode(bllens, r.sym) && ValidRun(r)
    modifies w
    ensures w.Valid() && w.Stream() == old(w.Stream()) + OneRunBits(bllens, r)
  {
    hide Writer.Stream, Writer.Valid, TreeFor, CodeBits, BitsOf;
    SendCode(w, r.sym, blTree, bllens);
    if ExtraBlBits(r.sym) != 0 {
      w.SendBits(r.extra, ExtraBlBits(r.sym));
    } else {
      assert BitsOf(r.extra, 0) == [];
    }
  }

  method SendPlain(w: Writer, curlen: nat, count: nat, blTree: seq<CtData>, ghost bllens: seq<nat>)
    requires w.Valid() && TreeFor(blTree, bllens) && curlen < 16 && HasCode(bllens, curlen)
    modifies w
    ensures w.Valid() && RunsCodable(bllens, seq(count, _ => Run(curlen, 0)))
    ensures w.Stream() == old(w.Stream()) + RunBits(bllens, seq(count, _ => Run(curlen, 0)))
  {
    hide Writer.Stream, Writer.Valid, TreeFor, OneRunBits;
    ghost var start := w.Stream();
    ghost var rs: seq<Run> := [];
    var left: nat := count;
    while left != 0
      invariant left <= count && w.Valid()
      invariant |rs| == count - left && (forall i :: 0 <= i < |rs| ==> rs[i] == Run(curlen, 0))
      invariant w.Stream() == start + RunBits(bllens, rs)
    {
      assert (rs + [Run(curlen, 0)])[..|rs|] == rs;
      SendRun(w, Run(curlen, 0), blTree, bllens);
      rs := rs + [Run(curlen, 0)];
      left := left - 1;
    }
    assert rs == seq(count, _ => Run(curlen, 0));
  }

  /** Sends a run of `count` times `curlen`: the branches of the source's loop. */
  method SendEmit(w: Writer, curlen: nat, prevlen: int, count: nat, minCount: nat, blTree: seq<CtData>,
                  ghost bllens: seq<nat>)
    requires w.Valid() && TreeFor(blTree, bllens) && curlen < 16
    requires 0 < count <= MaxCount(curlen, prevlen) && minCount == MinCount(curlen, prevlen)
    requires RunsCodable(bllens, Emit(curlen, prevlen, count))
    modifies w
    ensures w.Valid() && w.Stream() == old(w.Stream()) + RunBits(bllens, Emit(curlen, prevlen, count))
  {
    hide Writer.Stream, Writer.Valid, TreeFor, OneRunBits, RunBits, HasCode, Pow2;
    ghost var rs := Emit(curlen, prevlen, count);
    EmitExpands(if prevlen >= 0 then [prevlen] else [], curlen, prevlen, count);
    assert rs[0] in rs && HasCode(bllens, rs[0].sym);
    RunBitsOne(bllens, rs[0]);
    if count < minCount {
      SendPlain(w, curlen, count, blTree, bllens);
    } else if curlen != 0 {
      if curlen != prevlen {
        assert rs[1] in rs && HasCode(bllens, rs[1].sym) && rs == [rs[0]] + [rs[1]];
        RunBitsOne(bllens, rs[1]);
        RunBitsConcat(bllens, [rs[0]], [rs[1]]);
        SendRun(w, Run(curlen, 0), blTree, bllens);
        SendRun(w, Run(REP_3_6, count - 1 - 3), blTree, bllens);
      } else {
        SendRun(w, Run(REP_3_6, count - 3), blTree, bllens);
      }
    } else if count <= 10 {
      SendRun(w, Run(REPZ_3_10, count - 3), blTree, bllens);
    } else {
      SendRun(w, Run(REPZ_11_138, count - 11), blTree, bllens);
    }
  }

  /** The counting variables of the loops, as `Runs` has them. */
  ghost predicate Limits(nextlen: nat, prevlen: int, maxCount: nat, minCount: nat) {
    nextlen != GUARD ==> maxCount == MaxCount(nextlen, prevlen) && minCount == MinCount(nextlen, prevlen)
  }

  lemma RunsPart(lens: seq<nat>, n: nat, count: nat, prev: int)
    requires n < |lens| && !(count + 1 < MaxCount(lens[n], prev) && lens[n] == NextLen(lens, n + 1))
    ensures Runs(lens, n, count, prev) == Emit(lens[n], prev, count + 1) + Runs(lens, n + 1, 0, lens[n])
  {
  }

  ghost predicate LenAt(tree: seq<CtData>, lens: seq<nat>) {
    && |lens| < |tree| && Small(lens) && lens != []
    && (forall i :: 0 <= i < |lens| ==> tree[i].dl == lens[i]) && tree[|lens|].dl == GUARD
  }

  /** Writes the code lengths `lens` of a tree whose guard has been set, using the codes of `blTree`. */
  method SendTree(w: Writer, tree: seq<CtData>, maxCode: nat, blTree: seq<CtData>, ghost lens: seq<nat>,
                  ghost bllens: seq<nat>)
    requires w.Valid() && LenAt(tree, lens) && |lens| == maxCode + 1 && TreeFor(blTree, bllens)
    requires RunsCodable(bllens, AllRuns(lens))
    modifies w
    ensures w.Valid() && w.Stream() == old(w.Stream()) + RunBits(bllens, AllRuns(lens))
  {
    hide Writer.Stream, Writer.Valid, TreeFor, RunBits, Emit, HasCode, Pow2;
    ghost var start, done := w.Stream(), [];
    assert RunBits(bllens, []) == [] by { RunBitsNil(bllens); }
    var prevlen: int, nextlen: nat := -1, tree[0].dl;
    var count: nat, maxCount: nat, minCount: nat := 0, 7, 4;
    if nextlen == 0 {
      maxCount, minCount := 138, 3;
    }
    for n := 0 to maxCode + 1
      invariant w.Valid() && nextlen == NextLen(lens, n) && Limits(nextlen, prevlen, maxCount, minCount)
      invariant n <= maxCode ==> count < maxCount
      invariant AllRuns(lens) == done + Runs(lens, n, count, prevlen)
      invariant RunsCodable(bllens, done) && w.Stream() == start + RunBits(bllens, done)
    {
      var curlen := nextlen;
      nextlen := tree[n + 1].dl;
      count := count + 1;
      if !(count < maxCount && curlen == nextlen) {
        ghost var run := Emit(curlen, prevlen, count);
        RunsPart(lens, n, count - 1, prevlen);
        assert AllRuns(lens) == done + run + Runs(lens, n + 1, 0, curlen);
        CodablePart(bllens, done, run, Runs(lens, n + 1, 0, curlen));
        RunBitsConcat(bllens, done, run);
        SendEmit(w, curlen, prevlen, count, minCount, blTree, bllens);
        done := done + run;
        count, prevlen := 0, curlen;
        if nextlen == 0 {
          maxCount, minCount := 138, 3;
        } else if curlen == nextlen {
          maxCount, minCount := 6, 3;
        } else {
          maxCount, minCount := 7, 4;
        }
      }
    }
    assert done + [] == done;
  }

  lemma {:induction false} RunBitsNil(bllens: seq<nat>)
    ensures RunBits(bllens, []) == []
  {
  }

  lemma CodablePart(bllens: seq<nat>, a: seq<Run>, b: seq<Run>, c: seq<Run>)
    requires RunsCodable(bllens, a + b + c)
    ensures RunsCodable(bllens, b)
  {
    forall i | 0 <= i < |b| ensures HasCode(bllens, b[i].sym) {
      assert (a + b + c)[|a| + i] == b[i];
    }
  }

  // ------------------------------------------------------------ scan_tree

  ghost predicate Tallied(before: seq<CtData>, after: seq<CtData>, rs: seq<Run>) {
    && |after| == |before|
    && forall k :: 0 <= k < |before| ==> after[k] == CtData(before[k].fc + CountSym(rs, k), before[k].dl)
  }

  lemma TalliedConcat(a: seq<CtData>, b: seq<CtData>, c: seq<CtData>, x: seq<Run>, y: seq<Run>)
    requires Tallied(a, b, x) && Tallied(b, c, y)
    ensures Tallied(a, c, x + y)
  {
    forall k | 0 <= k < |a| ensures c[k] == CtData(a[k].fc + CountSym(x + y, k), a[k].dl) {
      CountSymConcat(x, y, k);
    }
  }

  lemma {:induction false} CountPlain(cur: nat, count: nat, k: nat)
    ensures CountSym(seq(count, _ => Run(cur, 0)), k) == if k == cur then count else 0
  {
    if count > 0 {
      var rs := seq(count, _ => Run(cur, 0));
      assert rs[..count - 1] == seq(count - 1, _ => Run(cur, 0));
      CountPlain(cur, count - 1, k);
    }
  }

  lemma {:induction false} CountOne(r: Run, k: nat)
    ensures CountSym([r], k) == if r.sym == k then 1 else 0
  {
    assert [r][..0] == [];
  }

  lemma {:induction false} CountTwo(r: Run, r': Run, k: nat)
    ensures CountSym([r, r'], k) == (if r.sym == k then 1 else 0) + (if r'.sym == k then 1 else 0)
  {
    assert [r, r'] == [r] + [r'];
    CountSymConcat([r], [r'], k);
    CountOne(r, k);
    CountOne(r', k);
  }

  method Bump(blTree: array<CtData>, k: nat, d: nat)
    requires k < blTree.Length
    modifies blTree
    ensures forall j :: 0 <= j < blTree.Length ==>
      blTree[j] == if j == k then CtData(old(blTree[j]).fc + d, old(blTree[j]).dl) else old(blTree[j])
  {
    blTree[k] := CtData(blTree[k].fc + d, blTree[k].dl);
  }

  /** Counts the symbols of a run: the branches of the source's loop. */
  method TallyEmit(blTree: array<CtData>, curlen: nat, prevlen: int, count: nat, minCount: nat)
    requires curlen < 16 && 19 <= blTree.Length
    requires 0 < count <= MaxCount(curlen, prevlen) && minCount == MinCount(curlen, prevlen)
    modifies blTree
    ensures Tallied(old(blTree[..]), blTree[..], Emit(curlen, prevlen, count))
  {
    hide CountSym;
    ghost var before, rs := blTree[..], Emit(curlen, prevlen, count);
    if count < minCount {
      Bump(blTree, curlen, count);
      forall k: nat ensures CountSym(rs, k) == if k == curlen then count else 0 { CountPlain(curlen, count, k); }
    } else if curlen != 0 {
      if curlen != prevlen {
        Bump(blTree, curlen, 1);
        forall k: nat ensures CountSym(rs, k) == if k == curlen || k == REP_3_6 then 1 else 0 {
          CountTwo(rs[0], rs[1], k);
        }
      } else {
        forall k: nat ensures CountSym(rs, k) == if k == REP_3_6 then 1 else 0 { CountOne(rs[0], k); }
      }
      Bump(blTree, REP_3_6, 1);
    } else if count <= 10 {
      Bump(blTree, REPZ_3_10, 1);
      forall k: nat ensures CountSym(rs, k) == if k == REPZ_3_10 then 1 else 0 { CountOne(rs[0], k); }
    } else {
      Bump(blTree, REPZ_11_138, 1);
      forall k: nat ensures CountSym(rs, k) == if k == REPZ_11_138 then 1 else 0 { CountOne(rs[0], k); }
    }
  }

  /** Sets the guard after the lengths `lens` of `tree`, and counts the symbols that `SendTree` will send for them. */
  method ScanTree(tree: array<CtData>, maxCode: nat, blTree: array<CtData>)
    requires maxCode + 1 < tree.Length && tree != blTree && 19 <= blTree.Length
    requires Small(LensOf(tree[..], maxCode + 1))
    modifies tree, blTree
    ensures LenAt(tree[..], old(LensOf(tree[..], maxCode + 1)))
    ensures forall i :: 0 <= i < tree.Length && i != maxCode + 1 ==> tree[i] == old(tree[i])
    ensures tree[maxCode + 1].fc == old(tree[maxCode + 1].fc)
    ensures Tallied(old(blTree[..]), blTree[..], AllRuns(old(LensOf(tree[..], maxCode + 1))))
  {
    hide Emit, Pow2, CountSym;
    ghost var lens, start, done := LensOf(tree[..], maxCode + 1), blTree[..], [];
    assert Tallied(start, blTree[..], done) by { TalliedNil(start); }
    var prevlen: int, nextlen: nat := -1, tree[0].dl;
    var count: nat, maxCount: nat, minCount: nat := 0, 7, 4;
    if nextlen == 0 {
      maxCount, minCount := 138, 3;
    }
    tree[maxCode + 1] := CtData(tree[maxCode + 1].fc, GUARD);
    for n := 0 to maxCode + 1
      invariant LenAt(tree[..], lens) && nextlen == NextLen(lens, n) && Limits(nextlen, prevlen, maxCount, minCount)
      invariant forall i :: 0 <= i < tree.Length && i != maxCode + 1 ==> tree[i] == old(tree[i])
      invariant tree[maxCode + 1].fc == old(tree[maxCode + 1].fc)
      invariant n <= maxCode ==> count < maxCount
      invariant AllRuns(lens) == done + Runs(lens, n, count, prevlen)
      invariant Tallied(start, blTree[..], done)
    {
      var curlen := nextlen;
      nextlen := tree[n + 1].dl;
      count := count + 1;
      if !(count < maxCount && curlen == nextlen) {
        ghost var run, mid := Emit(curlen, prevlen, count), blTree[..];
        RunsPart(lens, n, count - 1, prevlen);
        assert AllRuns(lens) == done + run + Runs(lens, n + 1, 0, curlen);
        TallyEmit(blTree, curlen, prevlen, count, minCount);
        TalliedConcat(start, mid, blTree[..], done, run);
        done := done + run;
        count, prevlen := 0, curlen;
        if nextlen == 0 {
          maxCount, minCount := 138, 3;
        } else if curlen == nextlen {
          maxCount, minCount := 6, 3;
        } else {
          maxCount, minCount := 7, 4;
        }
      }
    }
    assert done + [] == done;
  }

  lemma TalliedNil(a: seq<CtData>)
    ensures Tallied(a, a, [])
  {
  }
}
