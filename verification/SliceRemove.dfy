/** Removing values from a slice in place. */
module Slices {
  /** The values that are not to be removed, in order. */
  function Without(source: seq<string>, toRemoves: seq<string>): seq<string> {
    if |source| == 0 then []
    else
      var init, last := source[..|source| - 1], source[|source| - 1];
      if last in toRemoves then Without(init, toRemoves) else Without(init, toRemoves) + [last]
  }

  /** Every occurrence of a removed value goes, and nothing else. */
  lemma {:induction false} WithoutCounts(source: seq<string>, toRemoves: seq<string>, v: string)
    ensures multiset(Without(source, toRemoves))[v] == if v in toRemoves then 0 else multiset(source)[v]
  {
    if |source| > 0 {
      var init, last := source[..|source| - 1], source[|source| - 1];
      WithoutCounts(init, toRemoves, v);
      CountAppend(init, last, v);
      CountAppend(Without(init, toRemoves), last, v);
      SplitLast(source);
    }
  }

  /** What is kept stays in order. */
  lemma {:induction false} WithoutJoins(a: seq<string>, b: seq<string>, toRemoves: seq<string>)
    ensures Without(a + b, toRemoves) == Without(a, toRemoves) + Without(b, toRemoves)
  {
    if |b| == 0 {
      assert a + b == a;
    } else {
      assert (a + b)[..|a + b| - 1] == a + b[..|b| - 1];
      WithoutJoins(a, b[..|b| - 1], toRemoves);
    }
  }

  lemma SplitLast(s: seq<string>)
    requires |s| > 0
    ensures s == s[..|s| - 1] + [s[|s| - 1]]
  {
  }

  lemma CountAppend(s: seq<string>, x: string, v: string)
    ensures multiset(s + [x])[v] == multiset(s)[v] + if x == v then 1 else 0
  {
  }

  /** Compact the first `n` elements with a write index; the result is their new number. */
  method SliceRemove(source: array<string>, n: nat, toRemoves: seq<string>) returns (j: nat)
    requires n <= source.Length
    modifies source
    ensures j <= n && source[..j] == Without(old(source[..n]), toRemoves)
  {
    j := 0;
    ghost var was := source[..n];
    assert was[..0] == [];
    for i := 0 to n
      invariant j <= i && source[..j] == Without(was[..i], toRemoves)
      invariant source[i..n] == was[i..]
    {
      var v := source[i];
      assert v == was[i] && was[..i + 1][..i] == was[..i];
      var needRemove := false;
      for k := 0 to |toRemoves|
        invariant needRemove <==> v in toRemoves[..k]
      {
        if v == toRemoves[k] {
          needRemove := true;
          break;
        }
      }
      if !needRemove {
        source[j] := v;
        j := j + 1;
      }
    }
    assert was[..n] == was;
  }
}
