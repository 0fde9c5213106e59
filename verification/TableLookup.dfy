/**
 Decoding one symbol in src/zlib/inflate.c: look up what is in the accumulator, and
 pull one byte at a time until the entry found needs no more bits than there are.
 */
module TableLookup {
  import opened Bits
  import opened Canonical
  import opened DecodeTable
  import opened BitReader

  lemma HoldBound(base: seq<Byte>, input: seq<Byte>, r: Regs)
    requires RegsOk(base, input, r)
    ensures r.hold < Pow2(r.bits)
  {
    hide Val, StreamOf;
    ValBound(Taken(base, input, r)[Pos(base, r)..]);
  }

  lemma {:induction false} LowPull(base: seq<Byte>, input: seq<Byte>, r: Regs, k: nat)
    requires RegsOk(base, input, r) && r.next < |input| && k <= r.bits
    ensures Low(Pull(input, r).hold, k) == Low(r.hold, k)
  {
    hide Val, StreamOf, Low, Shl;
    HoldBound(base, input, r);
    JoinBits(r.hold, r.bits, input[r.next]);
    SplitBits(Pull(input, r).hold, k, r.bits - k);
    assert k + (r.bits - k) == r.bits;
  }

  /** An entry that is a link stays inside the table. */
  lemma {:induction false} LinkBounds(ty: CodeType, lens: seq<nat>, t: seq<Code>, root: nat, hold: nat)
    requires TableFor(ty, lens, t, root) && 0 < t[Low(hold, root)].op < 16
    ensures var link := t[Low(hold, root)];
      link.bits == root && link.op <= MAX_BITS && link.val + Pow2(link.op) <= |t|
  {
    hide EndCode, Huff, Entry;
    if Complete(lens) {
      var s := MatchExists(lens, hold);
      assert Placed(ty, lens, t, root, s);
      if lens[s] <= root {
        ShortEntry(ty, lens, t, root, hold, s);
      } else {
        SplitBits(hold, root, lens[s] - root);
      }
    } else {
      NoLinks(ty, lens, t, root, hold);
    }
  }

  lemma {:induction false} ShortEntry(ty: CodeType, lens: seq<nat>, t: seq<Code>, root: nat, hold: nat, s: nat)
    requires Pow2(root) <= |t| && |lens| <= Symbols(ty) && Matches(lens, s, hold) && lens[s] <= root
    requires Placed(ty, lens, t, root, s)
    ensures t[Low(hold, root)].op == 0 || t[Low(hold, root)].op >= 16
  {
    hide Entry;
    SplitBits(hold, lens[s], root - lens[s]);
    EntryIsNoLink(ty, s, lens[s]);
    assert t[0 + Low(hold, root)] == Entry(ty, s, lens[s]);
  }

  lemma {:induction false} NoLinks(ty: CodeType, lens: seq<nat>, t: seq<Code>, root: nat, hold: nat)
    requires TableFor(ty, lens, t, root) && !Complete(lens)
    ensures t[Low(hold, root)].op == 0 || t[Low(hold, root)].op >= 16
  {
    hide Complete, Entry;
    assert Low(hold, 1) == hold % 2;
    if s: nat :| LoneAt(lens, s) {
      EntryIsNoLink(ty, s, 1);
      LoneMatches(lens, s, 0);
      assert Placed(ty, lens, t, root, s);
      assert t[0 + 0] == Entry(ty, s, 1) by { assert Low(0, 1) == 0; }
    }
  }

  lemma StarvedShort(lens: seq<nat>, hold: nat, bits: nat)
    requires ValidLens(lens) && Decode(lens, hold, bits) == Starved
    ensures bits < MAX_BITS
  {
    if bits > 0 {
      var s := MatchExists(lens, hold);
    }
  }

  /** One more byte was needed only because the code is longer than what was there. */
  lemma NoBitsToSpare(ty: CodeType, lens: seq<nat>, t: seq<Code>, root: nat, base: seq<Byte>, input: seq<Byte>, r: Regs)
    requires TableFor(ty, lens, t, root) && RegsOk(base, input, r) && r.next < |input|
    requires Lookup(t, root, r.hold, r.bits) == NeedMore
    requires Lookup(t, root, Pull(input, r).hold, Pull(input, r).bits).Got?
    ensures r.bits < Lookup(t, root, Pull(input, r).hold, Pull(input, r).bits).drop
  {
    hide Complete, Lookup, TableFor, RegsOk, Entry, Huff, Low;
    var r' := Pull(input, r);
    LookupDecodes(ty, lens, t, root, r.hold, r.bits);
    LookupDecodes(ty, lens, t, root, r'.hold, r'.bits);
    if s: nat :| Decode(lens, r'.hold, r'.bits) == Symbol(s) {
      if lens[s] <= r.bits {
        LowPull(base, input, r, lens[s]);
      }
    }
  }

  ghost predicate Waited(t: seq<Code>, root: nat, base: seq<Byte>, input: seq<Byte>, r: Regs, p: Regs, r': Regs)
    requires Pow2(root) <= |t|
  {
    r' == r || (RegsOk(base, input, p) && p.next < |input| && r' == Pull(input, p)
      && Lookup(t, root, p.hold, p.bits) == NeedMore)
  }

  method LookupCode(input: seq<Byte>, r: Regs, t: seq<Code>, root: nat, ghost ty: CodeType, ghost lens: seq<nat>,
                    ghost base: seq<Byte>)
    returns (ok: bool, here: Code, drop: nat, r': Regs)
    requires RegsOk(base, input, r) && TableFor(ty, lens, t, root)
    ensures Refilled(base, input, r, r')
    ensures ok ==>
      Lookup(t, root, r'.hold, r'.bits) == Got(here, drop) && drop <= r'.bits && (r' == r || r'.bits < drop + 8)
    ensures !ok ==> Lookup(t, root, r'.hold, r'.bits) == NeedMore && r'.next == |input|
  {
    hide RegsOk, TableFor, Taken, Low, Shr, Shl, Pow2, Refilled;
    RegsBound(base, input, r);
    RefillSelf(base, input, r);
    TableBound(ty, lens, t, root);
    drop := 0;
    r' := r;
    ghost var p := r;
    here := t[Low(r'.hold, root)];
    while here.bits > r'.bits
      invariant r'.next <= |input| && Refilled(base, input, r, r') && here == t[Low(r'.hold, root)]
      invariant Waited(t, root, base, input, r, p, r')
      decreases |input| - r'.next
    {
      if r'.next == |input| {
        return false, here, drop, r';
      }
      RefillMore(base, input, r, r');
      p := r';
      r' := Pull(input, r');
      here := t[Low(r'.hold, root)];
    }
    drop := here.bits;
    ok := true;
    if here.op != 0 && here.op < 16 {
      ok, here, drop, r', p := LookupSecond(input, r', t, root, here, r, p, ty, lens, base);
    }
    if ok && r' != r {
      NoBitsToSpare(ty, lens, t, root, base, input, p);
    }
  }

  /** The second level: the entry that `last` leads to. */
  method LookupSecond(input: seq<Byte>, r1: Regs, t: seq<Code>, root: nat, last: Code, ghost r: Regs, ghost p1: Regs,
                      ghost ty: CodeType, ghost lens: seq<nat>, ghost base: seq<Byte>)
    returns (ok: bool, here: Code, drop: nat, r': Regs, ghost p: Regs)
    requires TableFor(ty, lens, t, root) && Pow2(root) <= |t| && Refilled(base, input, r, r1) && r1.next <= |input|
    requires Waited(t, root, base, input, r, p1, r1)
    requires last == t[Low(r1.hold, root)] && last.bits <= r1.bits && 0 < last.op < 16
    ensures Refilled(base, input, r, r') && Waited(t, root, base, input, r, p, r')
    ensures ok ==> Lookup(t, root, r'.hold, r'.bits) == Got(here, drop) && drop <= r'.bits
    ensures !ok ==> Lookup(t, root, r'.hold, r'.bits) == NeedMore && r'.next == |input|
  {
    hide RegsOk, TableFor, Taken, Low, Shr, Shl, Pow2, Refilled;
    r', p, drop := r1, p1, 0;
    LinkBounds(ty, lens, t, root, r'.hold);
    SubIndex(r'.hold, last);
    here := t[last.val + Shr(Low(r'.hold, last.bits + last.op), last.bits)];
    while last.bits + here.bits > r'.bits
      invariant r'.next <= |input| && Refilled(base, input, r, r') && Waited(t, root, base, input, r, p, r')
      invariant last == t[Low(r'.hold, root)] && last.bits <= r'.bits
      invariant last.val + Shr(Low(r'.hold, last.bits + last.op), last.bits) < |t|
      invariant here == t[last.val + Shr(Low(r'.hold, last.bits + last.op), last.bits)]
      decreases |input| - r'.next
    {
      if r'.next == |input| {
        return false, here, drop, r', p;
      }
      RefillMore(base, input, r, r');
      LowPull(base, input, r', root);
      p := r';
      r' := Pull(input, r');
      SubIndex(r'.hold, last);
      here := t[last.val + Shr(Low(r'.hold, last.bits + last.op), last.bits)];
    }
    drop := last.bits + here.bits;
    ok := true;
  }

  lemma {:induction false} TableBound(ty: CodeType, lens: seq<nat>, t: seq<Code>, root: nat)
    requires TableFor(ty, lens, t, root)
    ensures Pow2(root) <= |t| && 1 <= root <= MAX_BITS
  {
  }

  lemma SubIndex(hold: nat, link: Code)
    ensures Shr(Low(hold, link.bits + link.op), link.bits) < Pow2(link.op)
  {
    hide Shr, Low;
    ShrBound(Low(hold, link.bits + link.op), link.bits, link.op);
  }

  lemma RefillMore(base: seq<Byte>, input: seq<Byte>, r: Regs, r': Regs)
    requires Refilled(base, input, r, r') && r'.next < |input|
    ensures RegsOk(base, input, r') && Refilled(base, input, r, Pull(input, r'))
  {
    hide Val, StreamOf, Shl;
    PullOk(base, input, r');
  }
}
