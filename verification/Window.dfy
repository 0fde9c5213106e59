/**
 The circular history window of src/zlib/inflate.c: `updatewindow`, the reading
 order of `inflateGetDictionary`, and reading back for a match.
 */
module Window {

  /** The last `n` elements, or all of them when there are fewer. */
  function Last(s: seq<nat>, n: nat): seq<nat> {
    if |s| <= n then s else s[|s| - n..]
  }

  lemma LastLast(h: seq<nat>, out: seq<nat>, n: nat)
    ensures Last(Last(h, n) + out, n) == Last(h + out, n)
  {
  }

  /** The circular order: from `w` to the end of what is there, then from the start. */
  function Unroll(buf: seq<nat>, w: nat, have: nat): seq<nat>
    requires w <= have <= |buf|
  {
    buf[w..have] + buf[..w]
  }

  lemma LastIs(s: seq<nat>, n: nat, front: seq<nat>, back: seq<nat>)
    requires s == front + back && |back| == n
    ensures Last(s, n) == back
  {
  }

  lemma LastTail(h: seq<nat>, out: seq<nat>, n: nat)
    requires n <= |out|
    ensures Last(h + out, n) == out[|out| - n..]
  {
    assert h + out == (h + out[..|out| - n]) + out[|out| - n..];
    LastIs(h + out, n, h + out[..|out| - n], out[|out| - n..]);
  }

  lemma WrapUpdate(buf: seq<nat>, w: nat, have: nat, out: seq<nat>, buf': seq<nat>)
    requires w < |buf| && w <= have <= |buf| && (have < |buf| ==> w == have) && |out| < |buf| < w + |out|
    requires var dist := |buf| - w; buf' == out[dist..] + (buf[..w] + out[..dist])[|out| - dist..]
    ensures Unroll(buf', |out| - (|buf| - w), |buf|) == Last(Unroll(buf, w, have) + out, |buf|)
  {
    var dist := |buf| - w;
    var copy := |out| - dist;
    assert Unroll(buf', copy, |buf|) == (buf[..w] + out[..dist])[copy..] + out[dist..];
    assert Unroll(buf', copy, |buf|) == buf[copy..w] + out;
    assert Unroll(buf, w, have) + out == (buf[w..have] + buf[..copy]) + (buf[copy..w] + out);
    LastIs(Unroll(buf, w, have) + out, |buf|, buf[w..have] + buf[..copy], buf[copy..w] + out);
  }

  lemma PlainUpdate(buf: seq<nat>, w: nat, have: nat, out: seq<nat>, buf': seq<nat>)
    requires w < |buf| && w <= have <= |buf| && (have < |buf| ==> w == have) && w + |out| <= |buf|
    requires buf' == buf[..w] + out + buf[w + |out|..]
    ensures Unroll(buf', if w + |out| == |buf| then 0 else w + |out|, if have < |buf| then have + |out| else have)
         == Last(Unroll(buf, w, have) + out, |buf|)
  {
    var d := |out|;
    if have < |buf| {
      assert Unroll(buf, w, have) + out == buf[..w] + out;
      if w + d == |buf| {
        assert Unroll(buf', 0, |buf|) == buf[..w] + out;
      } else {
        assert Unroll(buf', w + d, w + d) == buf[..w] + out;
      }
    } else if w + d == |buf| {
      assert Unroll(buf', 0, |buf|) == buf[..w] + out;
      assert Unroll(buf, w, have) + out == buf[w..] + (buf[..w] + out);
      LastIs(Unroll(buf, w, have) + out, |buf|, buf[w..], buf[..w] + out);
    } else {
      var kept := buf[w + d..] + (buf[..w] + out);
      assert Unroll(buf', w + d, |buf|) == kept;
      assert Unroll(buf, w, have) + out == buf[w..w + d] + kept;
      LastIs(Unroll(buf, w, have) + out, |buf|, buf[w..w + d], kept);
    }
  }

  /** `buf` with `data` written over it from `at` on. */
  function Splice(buf: seq<nat>, at: nat, data: seq<nat>): (r: seq<nat>)
    requires at + |data| <= |buf|
    ensures |r| == |buf|
  {
    buf[..at] + data + buf[at + |data|..]
  }

  /** Writing up to the end and then from the start. */
  lemma SpliceWrap(buf: seq<nat>, w: nat, out: seq<nat>, dist: nat)
    requires w + dist == |buf| && dist <= |out| <= |buf|
    ensures Splice(Splice(buf, w, out[..dist]), 0, out[dist..])
         == out[dist..] + (buf[..w] + out[..dist])[|out| - dist..]
  {
    assert Splice(buf, w, out[..dist]) == buf[..w] + out[..dist];
  }

  lemma SpliceIs(buf: seq<nat>, at: nat, data: seq<nat>)
    requires at + |data| <= |buf|
    ensures Splice(buf, at, data) == buf[..at] + data + buf[at + |data|..]
  {
  }

  class Window {
    const window: array<nat>
    var wsize: nat      // zero until the window is first used
    var whave: nat
    var wnext: nat

    ghost predicate Valid()
      reads this, window
    {
      && window.Length > 0 && (wsize == 0 || wsize == window.Length)
      && (wsize == 0 ==> whave == 0 && wnext == 0)
      && (wsize > 0 ==> wnext < wsize)
      && wnext <= whave <= wsize && (whave < wsize ==> wnext == whave)
    }

    /** The history held, oldest byte first. */
    ghost function Contents(): seq<nat>
      requires Valid()
      reads this, window
    {
      window[wnext..whave] + window[..wnext]
    }

    constructor (size: nat)
      requires size > 0
      ensures Valid() && fresh(window) && Contents() == [] && window.Length == size && wsize == 0
    {
      window := new nat[size](_ => 0);
      wsize, whave, wnext := 0, 0, 0;
    }

    method GetDictionary() returns (dictionary: seq<nat>)
      requires Valid()
      ensures dictionary == Contents()
    {
      dictionary := window[wnext..whave];
      dictionary := dictionary + window[..wnext];
    }

    method CopyIn(at: nat, data: seq<nat>)
      requires at + |data| <= window.Length
      modifies window
      ensures window[..] == Splice(old(window[..]), at, data)
    {
      for i := 0 to |data|
        invariant forall j :: 0 <= j < window.Length ==>
          window[j] == if at <= j < at + i then data[j - at] else old(window[j])
      {
        window[at + i] := data[i];
      }
      assert window[..] == Splice(old(window[..]), at, data);
    }

    /** Takes in the bytes `out` written by a call: afterwards the last bytes of history and `out` are held. */
    method Update(out: seq<nat>)
      requires Valid()
      modifies this, window
      ensures Valid() && wsize == window.Length
      ensures Contents() == Last(old(Contents()) + out, wsize)
    {
      hide Last;
      ghost var was := Contents();
      if wsize == 0 {
        wsize, wnext, whave := window.Length, 0, 0;
      }
      var copy := |out|;
      assert Contents() == was;
      if copy >= wsize {
        UpdateLong(out);
      } else {
        UpdateShort(out);
      }
    }

    method UpdateLong(out: seq<nat>)
      requires Valid() && wsize == window.Length <= |out|
      modifies this, window
      ensures Valid() && wsize == old(wsize)
      ensures Contents() == Last(old(Contents()) + out, wsize)
    {
      hide Last;
      LastTail(Contents(), out, wsize);
      CopyIn(0, out[|out| - wsize..]);
      wnext, whave := 0, wsize;
      assert window[..] == out[|out| - wsize..] by {
        assert Splice(old(window[..]), 0, out[|out| - wsize..]) == out[|out| - wsize..];
      }
      assert Contents() == window[..];
    }

    lemma ContentsUnroll()
      requires Valid()
      ensures Contents() == Unroll(window[..], wnext, whave)
    {
    }

    method UpdateShort(out: seq<nat>)
      requires Valid() && wsize == window.Length && |out| < wsize
      modifies this, window
      ensures Valid() && wsize == old(wsize)
      ensures Contents() == Last(old(Contents()) + out, wsize)
    {
      hide Last, Unroll, Splice;
      ghost var w, have, buf := wnext, whave, window[..];
      assert Contents() == Unroll(buf, w, have) by { ContentsUnroll(); }
      var copy := |out|;
      var dist := wsize - wnext;
      if dist > copy {
        dist := copy;
      }
      assert out[|out| - copy..][..dist] == out[..dist];
      CopyIn(wnext, out[|out| - copy..][..dist]);
      copy := copy - dist;
      if copy > 0 {
        CopyIn(0, out[|out| - copy..]);
        wnext, whave := copy, wsize;
        SpliceWrap(buf, w, out, dist);
        WrapUpdate(buf, w, have, out, window[..]);
        ContentsUnroll();
      } else {
        wnext := wnext + dist;
        if wnext == wsize {
          wnext := 0;
        }
        if whave < wsize {
          whave := whave + dist;
        }
        assert out[..dist] == out;
        assert window[..] == buf[..w] + out + buf[w + dist..] by { SpliceIs(buf, w, out); }
        PlainUpdate(buf, w, have, out, window[..]);
        ContentsUnroll();
      }
    }

    /** Where the byte `back` positions before the end of the history is stored. */
    function From(back: nat): nat
      requires Valid() && 1 <= back <= whave
      reads this, window
    {
      if back > wnext then wsize - (back - wnext) else wnext - back
    }

    /** How many bytes follow it in the window without a wrap. */
    function Run(back: nat): nat
      requires Valid() && 1 <= back <= whave
      reads this, window
    {
      if back > wnext then back - wnext else back
    }

    lemma FromIsContents(back: nat, i: nat)
      requires Valid() && 1 <= back <= whave && i < Run(back)
      ensures From(back) + i < window.Length
      ensures Contents()[whave - back + i] == window[From(back) + i]
    {
    }
  }
}
