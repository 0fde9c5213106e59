/** The tokens of `deflate_rle` (src/zlib/deflate.c) as a function of the text. */
module RunTokens {
  import Lz = Lz77

  /** How often the byte before `q` is repeated there, beyond the first `k` times, but 258 times at most. */
  function RunFrom(text: seq<nat>, q: nat, k: nat): (n: nat)
    requires 1 <= q && q + k <= |text| && k <= 258
    ensures k <= n <= 258 && q + n <= |text|
    decreases 258 - k
  {
    if k < 258 && q + k < |text| && text[q + k] == text[q - 1] then RunFrom(text, q, k + 1) else k
  }

  /** A run of three bytes or more is a match of distance one; anything else is a literal. */
  function TokenAt(text: seq<nat>, q: nat): Lz.Token
    requires q < |text|
  {
    if q >= 1 && RunFrom(text, q, 0) >= 3 then Lz.Token.Match(RunFrom(text, q, 0), 1) else Lz.Literal(text[q])
  }

  function NextAt(text: seq<nat>, q: nat): (r: nat)
    requires q < |text|
    ensures q < r <= |text|
  {
    q + if q >= 1 && RunFrom(text, q, 0) >= 3 then RunFrom(text, q, 0) else 1
  }

  /** All tokens from `q` on. */
  function TokensFrom(text: seq<nat>, q: nat): seq<Lz.Token>
    decreases |text| - q
  {
    if q >= |text| then [] else [TokenAt(text, q)] + TokensFrom(text, NextAt(text, q))
  }

  lemma {:induction false} RunIs(text: seq<nat>, q: nat, k: nat, n: nat)
    requires 1 <= q && k <= n <= 258 && q + n <= |text| && forall i :: q + k <= i < q + n ==> text[i] == text[q - 1]
    requires n == 258 || q + n == |text| || text[q + n] != text[q - 1]
    ensures RunFrom(text, q, k) == n
    decreases n - k
  {
    if k < n {
      RunIs(text, q, k + 1, n);
    }
  }

  lemma {:induction false} RunEnds(text: seq<nat>, q: nat, k: nat, n: nat)
    requires 1 <= q && k <= n < 258 && q + n < |text| && text[q + n] != text[q - 1]
    ensures RunFrom(text, q, k) <= n
    decreases n - k
  {
    if k < n {
      RunEnds(text, q, k + 1, n);
    }
  }

  /** With 258 bytes ahead, or at the end of the text, the token does not depend on what follows. */
  lemma {:induction false} RunMore(text: seq<nat>, text': seq<nat>, q: nat, k: nat)
    requires 1 <= q && q + k <= |text| && k <= 258 && text <= text' && (q + 258 <= |text| || text' == text)
    ensures RunFrom(text', q, k) == RunFrom(text, q, k)
    decreases 258 - k
  {
    if k < 258 && q + k < |text| && text[q + k] == text[q - 1] {
      RunMore(text, text', q, k + 1);
    }
  }

  /** The tokens so far are those of `text` up to `q`. */
  ghost predicate UpTo(text: seq<nat>, toks: seq<Lz.Token>, q: nat) {
    TokensFrom(text, 0) == toks + TokensFrom(text, q)
  }

  /** They are whatever follows. */
  ghost predicate Settled(text: seq<nat>, toks: seq<Lz.Token>, q: nat) {
    forall more :: UpTo(text + more, toks, q)
  }

  lemma UpToNext(text: seq<nat>, text': seq<nat>, toks: seq<Lz.Token>, q: nat)
    requires q < |text| && text <= text' && (q + 258 <= |text| || text' == text) && UpTo(text', toks, q)
    ensures UpTo(text', toks + [TokenAt(text, q)], NextAt(text, q))
  {
    if q >= 1 {
      RunMore(text, text', q, 0);
    }
    assert toks + ([TokenAt(text', q)] + TokensFrom(text', NextAt(text', q)))
        == (toks + [TokenAt(text', q)]) + TokensFrom(text', NextAt(text', q));
  }

  lemma UpToEnd(text: seq<nat>, toks: seq<Lz.Token>)
    requires UpTo(text, toks, |text|)
    ensures toks == TokensFrom(text, 0)
  {
    assert toks + [] == toks;
  }
}
