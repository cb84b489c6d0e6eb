/** Sorting by a key, as a database or a sort routine does it: rows of equal key come in any order. */
module Sorting {
  /** Keys are compared by their first part, then by their second. */
  type Key = (int, int)

  predicate Leq(a: Key, b: Key) {
    a.0 < b.0 || (a.0 == b.0 && a.1 <= b.1)
  }

  ghost predicate Sorted<T>(s: seq<T>, key: T -> Key) {
    forall i, j | 0 <= i < j < |s| :: Leq(key(s[i]), key(s[j]))
  }

  ghost predicate StrictlySorted<T>(s: seq<T>, key: T -> Key) {
    forall i, j | 0 <= i < j < |s| :: Leq(key(s[i]), key(s[j])) && key(s[i]) != key(s[j])
  }

  /** Where an element goes in a sorted sequence, after those of equal key. */
  method Place<T>(r: seq<T>, key: T -> Key, x: T) returns (i: nat)
    requires Sorted(r, key)
    ensures i <= |r| && (forall k | 0 <= k < i :: Leq(key(r[k]), key(x)))
    ensures forall k | i <= k < |r| :: Leq(key(x), key(r[k]))
  {
    i := 0;
    while i < |r| && Leq(key(r[i]), key(x))
      invariant i <= |r| && forall k | 0 <= k < i :: Leq(key(r[k]), key(x))
    {
      i := i + 1;
    }
  }

  lemma Inserted<T>(r: seq<T>, key: T -> Key, x: T, i: nat)
    requires Sorted(r, key) && i <= |r| && (forall k | 0 <= k < i :: Leq(key(r[k]), key(x)))
    requires forall k | i <= k < |r| :: Leq(key(x), key(r[k]))
    ensures Sorted(r[..i] + [x] + r[i..], key)
    ensures multiset(r[..i] + [x] + r[i..]) == multiset(r) + multiset{x}
  {
    InsertedCount(r, x, i);
    hide Leq;
  }

  lemma InsertedCount<T>(r: seq<T>, x: T, i: nat)
    requires i <= |r|
    ensures multiset(r[..i] + [x] + r[i..]) == multiset(r) + multiset{x}
  {
    assert r == r[..i] + r[i..];
  }

  method SortByKey<T(==)>(s: seq<T>, key: T -> Key) returns (r: seq<T>)
    ensures multiset(r) == multiset(s) && Sorted(r, key)
  {
    r := [];
    for n := 0 to |s|
      invariant multiset(r) == multiset(s[..n]) && Sorted(r, key)
    {
      hide Sorted;
      var i := Place(r, key, s[n]);
      Inserted(r, key, s[n], i);
      assert s[..n + 1] == s[..n] + [s[n]];
      r := r[..i] + [s[n]] + r[i..];
    }
    assert s[..|s|] == s;
  }

  /** A sequence that is strictly sorted is the only way to sort its elements. */
  lemma {:induction false} SortedIsUnique<T>(r: seq<T>, s: seq<T>, key: T -> Key)
    requires Sorted(r, key) && StrictlySorted(s, key) && multiset(r) == multiset(s)
    ensures r == s
  {
    SameLength(r, s);
    if |s| > 0 {
      var n := |s| - 1;
      SameLast(r, s, key);
      DropLast(r);
      DropLast(s);
      InitsSorted(r, s, key);
      hide Sorted;
      hide StrictlySorted;
      SortedIsUnique(r[..n], s[..n], key);
    }
  }

  lemma InitsSorted<T>(r: seq<T>, s: seq<T>, key: T -> Key)
    requires Sorted(r, key) && StrictlySorted(s, key) && |r| == |s| > 0
    ensures Sorted(r[..|r| - 1], key) && StrictlySorted(s[..|s| - 1], key)
  {
    hide Leq;
  }

  lemma SameLast<T>(r: seq<T>, s: seq<T>, key: T -> Key)
    requires Sorted(r, key) && StrictlySorted(s, key) && multiset(r) == multiset(s) && |r| == |s| > 0
    ensures r[|r| - 1] == s[|s| - 1]
  {
    var n := |s| - 1;
    assert s[n] in multiset(r) && r[n] in multiset(s);
    var i :| 0 <= i < |r| && r[i] == s[n];
    var j :| 0 <= j < |s| && s[j] == r[n];
    assert i < n ==> Leq(key(r[i]), key(r[n]));
  }

  lemma DropLast<T>(s: seq<T>)
    requires |s| > 0
    ensures multiset(s[..|s| - 1]) == multiset(s) - multiset{s[|s| - 1]} && s == s[..|s| - 1] + [s[|s| - 1]]
  {
    assert s == s[..|s| - 1] + [s[|s| - 1]];
  }

  lemma SameLength<T>(r: seq<T>, s: seq<T>)
    requires multiset(r) == multiset(s)
    ensures |r| == |s|
  {
    assert |multiset(r)| == |r| && |multiset(s)| == |s|;
  }
}
