/** Assigning the codes of a tree from its lengths: `bi_reverse` and `gen_codes` of src/zlib/trees.c. */
module GenCodes {
  import opened Bits
  import opened Canonical

  /** A tree element: `fc` is Freq or Code, `dl` is Dad or Len. */
  datatype CtData = CtData(fc: nat, dl: nat)

  /** The code lengths of the first `n` elements of a tree. */
  function LensOf(tree: seq<CtData>, n: nat): (lens: seq<nat>)
    requires n <= |tree|
    ensures |lens| == n && forall i :: 0 <= i < n ==> lens[i] == tree[i].dl
  {
    seq(n, i requires 0 <= i < n => tree[i].dl)
  }

  method BiReverse(code: nat, len: nat) returns (r: nat)
    requires 1 <= len
    ensures r == Rev(code, len)
  {
    var res: nat, c: nat, n: nat := 0, code, len;
    ghost var k: nat := 0;
    while n > 0
      invariant k + n == len
      invariant c == Shr(code, k) && res == 2 * Rev(code, k)
    {
      RevSplit(code, k, 1);
      SplitBits(code, k, 1);
      assert Rev(c, 1) == c % 2;
      res := res + c % 2;
      c, res := c / 2, res * 2;
      n := n - 1;
      k := k + 1;
    }
    r := res / 2;
  }

  /** Sets the code of every element that has a length; the lengths stay. */
  method GenCodes(tree: array<CtData>, n: nat, blCount: seq<nat>)
    requires n <= tree.Length && |blCount| == MAX_BITS + 1
    requires ValidLens(LensOf(tree[..], n)) && NotOver(LensOf(tree[..], n))
    requires blCount[0] == 0 && forall b :: 1 <= b <= MAX_BITS ==> blCount[b] == Count(LensOf(tree[..], n), b)
    modifies tree
    ensures LensOf(tree[..], n) == old(LensOf(tree[..], n))
    ensures forall s :: 0 <= s < n && tree[s].dl > 0 ==> tree[s].fc == Huff(LensOf(tree[..], n), s)
    ensures forall s :: 0 <= s < tree.Length && (s >= n || tree[s].dl == 0) ==> tree[s] == old(tree[s])
  {
    hide Rev, FirstCode, Count, NotOver;
    ghost var lens := LensOf(tree[..], n);
    var nextCode := FirstCodes(lens, blCount);
    for s := 0 to n
      invariant |nextCode| == MAX_BITS + 1
      invariant forall b :: 1 <= b <= MAX_BITS ==> nextCode[b] == FirstCode(lens, b) + Count(lens[..s], b)
      invariant forall t :: 0 <= t < tree.Length ==> tree[t].dl == old(tree[t].dl)
      invariant forall t :: 0 <= t < s && tree[t].dl > 0 ==> tree[t].fc == Huff(lens, t)
      invariant forall t :: 0 <= t < tree.Length && (t >= s || tree[t].dl == 0) ==> tree[t] == old(tree[t])
    {
      var len := tree[s].dl;
      assert len == lens[s];
      if len != 0 {
        var code := BiReverse(nextCode[len], len);
        assert code == Huff(lens, s);
        tree[s] := CtData(code, len);
        nextCode := nextCode[len := nextCode[len] + 1];
      }
      forall b | 1 <= b <= MAX_BITS ensures nextCode[b] == FirstCode(lens, b) + Count(lens[..s + 1], b) {
        CountPrefix(lens, b, s);
      }
    }
    assert LensOf(tree[..], n) == lens;
  }

  method FirstCodes(ghost lens: seq<nat>, blCount: seq<nat>) returns (nextCode: seq<nat>)
    requires |blCount| == MAX_BITS + 1
    requires blCount[0] == 0 && forall b :: 1 <= b <= MAX_BITS ==> blCount[b] == Count(lens, b)
    ensures |nextCode| == MAX_BITS + 1
    ensures forall b :: 1 <= b <= MAX_BITS ==> nextCode[b] == FirstCode(lens, b)
  {
    nextCode := seq(MAX_BITS + 1, _ => 0);
    var code := 0;
    for bits := 1 to MAX_BITS + 1
      invariant |nextCode| == MAX_BITS + 1 && code == FirstCode(lens, bits - 1)
      invariant forall b :: 1 <= b < bits ==> nextCode[b] == FirstCode(lens, b)
    {
      code := (code + blCount[bits - 1]) * 2;
      nextCode := nextCode[bits := code];
    }
  }
}
