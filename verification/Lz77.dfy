/** LZ77 tokens and the text they stand for. */
module Lz77 {
  /** A byte, or `len` bytes copied from `dist` bytes back. */
  datatype Token = Literal(b: nat) | Match(len: nat, dist: nat)

  predicate ValidToken(tok: Token) {
    match tok
    case Literal(b) => b < 256
    case Match(len, dist) => 3 <= len <= 258 && 1 <= dist <= 32768
  }

  /** `out` and then `len` bytes, each the same as the one `dist` before it. */
  function Copied(out: seq<nat>, len: nat, dist: nat): (r: seq<nat>)
    requires 1 <= dist <= |out|
    ensures |r| == |out| + len && out <= r
    decreases len
  {
    if len == 0 then out else Copied(out + [out[|out| - dist]], len - 1, dist)
  }

  /** The token does not reach back further than there is text. */
  predicate Fits(out: seq<nat>, tok: Token) {
    tok.Match? ==> 1 <= tok.dist <= |out|
  }

  function After(out: seq<nat>, tok: Token): (r: seq<nat>)
    requires Fits(out, tok)
    ensures out <= r
  {
    match tok
    case Literal(b) => out + [b]
    case Match(len, dist) => Copied(out, len, dist)
  }

  predicate AllFit(out: seq<nat>, toks: seq<Token>)
    decreases |toks|, 0
  {
    toks == [] || (AllFit(out, toks[..|toks| - 1]) && Fits(Expand(out, toks[..|toks| - 1]), toks[|toks| - 1]))
  }

  /** The text after the tokens, when `out` was there before them. */
  function Expand(out: seq<nat>, toks: seq<Token>): (r: seq<nat>)
    requires AllFit(out, toks)
    ensures out <= r
    decreases |toks|
  {
    if toks == [] then out else After(Expand(out, toks[..|toks| - 1]), toks[|toks| - 1])
  }

  lemma {:induction false} ExpandSnoc(out: seq<nat>, toks: seq<Token>, tok: Token)
    requires AllFit(out, toks) && Fits(Expand(out, toks), tok)
    ensures AllFit(out, toks + [tok]) && Expand(out, toks + [tok]) == After(Expand(out, toks), tok)
  {
    assert (toks + [tok])[..|toks|] == toks;
  }

  lemma {:induction false} FitPrefix(out: seq<nat>, toks: seq<Token>, k: nat)
    requires AllFit(out, toks) && k <= |toks|
    ensures AllFit(out, toks[..k])
    ensures k < |toks| ==> Fits(Expand(out, toks[..k]), toks[k])
    decreases |toks|
  {
    if k < |toks| {
      FitPrefix(out, toks[..|toks| - 1], k);
      assert toks[..|toks| - 1][..k] == toks[..k];
    } else {
      assert toks[..k] == toks;
    }
  }

  lemma {:induction false} ExpandConcat(out: seq<nat>, a: seq<Token>, b: seq<Token>)
    requires AllFit(out, a) && AllFit(Expand(out, a), b)
    ensures AllFit(out, a + b) && Expand(out, a + b) == Expand(Expand(out, a), b)
    decreases |b|
  {
    if b == [] {
      assert a + b == a;
    } else {
      ExpandConcat(out, a, b[..|b| - 1]);
      assert a + b == (a + b[..|b| - 1]) + [b[|b| - 1]];
      ExpandSnoc(out, a + b[..|b| - 1], b[|b| - 1]);
    }
  }

  lemma {:induction false} FitSplit(out: seq<nat>, a: seq<Token>, b: seq<Token>)
    requires AllFit(out, a + b)
    ensures AllFit(out, a) && AllFit(Expand(out, a), b)
    decreases |b|
  {
    if b == [] {
      assert a + b == a;
    } else {
      var n := |b| - 1;
      assert (a + b)[..|a| + n] == a + b[..n] && (a + b)[|a| + n] == b[n];
      FitSplit(out, a, b[..n]);
      ExpandConcat(out, a, b[..n]);
    }
  }

  /** A copy is right when the text agrees with itself `dist` bytes back. */
  lemma {:induction false} CopiedIs(text: seq<nat>, from: nat, len: nat, dist: nat)
    requires 1 <= dist <= from && from + len <= |text|
    requires forall i :: from <= i < from + len ==> text[i] == text[i - dist]
    ensures Copied(text[..from], len, dist) == text[..from + len]
    decreases len
  {
    if len > 0 {
      assert text[..from] + [text[from - dist]] == text[..from + 1];
      CopiedIs(text, from + 1, len - 1, dist);
    }
  }
}
