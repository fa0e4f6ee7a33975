/**
 * `Array.prototype.sort` with a "later date first" comparator (`(a, b) => key(b) - key(a)`).
 * JavaScript's sort is stable, so its result is the unique arrangement that is ordered by key,
 * highest first, and keeps elements with equal keys in their original order. `SortDesc`
 * defines that arrangement by insertion; `SortByKeyDesc` performs it in place on an array.
 */
module Sorting {

  /** `x` placed into `s` after every element whose key is at least its own. */
  function Insert<T>(x: T, s: seq<T>, key: T -> int): seq<T>
    decreases |s|
  {
    if s == [] || key(s[|s| - 1]) >= key(x) then s + [x]
    else Insert(x, s[..|s| - 1], key) + [s[|s| - 1]]
  }

  /** The stable sort of `s`, highest key first. */
  function SortDesc<T>(s: seq<T>, key: T -> int): seq<T>
    decreases |s|
  {
    if s == [] then [] else Insert(s[|s| - 1], SortDesc(s[..|s| - 1], key), key)
  }

  predicate SortedDesc<T>(s: seq<T>, key: T -> int) {
    forall i, j :: 0 <= i < j < |s| ==> key(s[i]) >= key(s[j])
  }

  /** The elements of `s` whose key is `k`, in their order. */
  function WithKey<T>(s: seq<T>, key: T -> int, k: int): seq<T>
    decreases |s|
  {
    if s == [] then []
    else WithKey(s[..|s| - 1], key, k) + (if key(s[|s| - 1]) == k then [s[|s| - 1]] else [])
  }

  lemma WithKeySnoc<T>(s: seq<T>, x: T, key: T -> int, k: int)
    ensures WithKey(s + [x], key, k) == WithKey(s, key, k) + (if key(x) == k then [x] else [])
  {
    assert (s + [x])[..|s|] == s;
  }

  // ---------------------------------------------------------------- insertion

  lemma {:induction false} InsertPermutes<T>(x: T, s: seq<T>, key: T -> int)
    ensures |Insert(x, s, key)| == |s| + 1
    ensures multiset(Insert(x, s, key)) == multiset(s) + multiset{x}
    decreases |s|
  {
    if s == [] || key(s[|s| - 1]) >= key(x) {
    } else {
      var init := s[..|s| - 1];
      InsertPermutes(x, init, key);
      assert s == init + [s[|s| - 1]];
    }
  }

  lemma {:induction false} InsertKeepsSorted<T>(x: T, s: seq<T>, key: T -> int)
    requires SortedDesc(s, key)
    ensures SortedDesc(Insert(x, s, key), key)
    decreases |s|
  {
    if s != [] && key(s[|s| - 1]) < key(x) {
      var init := s[..|s| - 1];
      var last := s[|s| - 1];
      InsertKeepsSorted(x, init, key);
      var r' := Insert(x, init, key);
      forall i | 0 <= i < |r'|
        ensures key(r'[i]) >= key(last)
      {
        InsertedFrom(x, init, key, i);
        if r'[i] != x {
          var j :| 0 <= j < |init| && r'[i] == init[j];
          assert init[j] == s[j];
        }
      }
      assert Insert(x, s, key) == r' + [last];
    }
  }

  /** Every element of an insertion is `x` or an element of `s`. */
  lemma InsertedFrom<T>(x: T, s: seq<T>, key: T -> int, i: int)
    requires 0 <= i < |Insert(x, s, key)|
    ensures Insert(x, s, key)[i] == x || exists j :: 0 <= j < |s| && Insert(x, s, key)[i] == s[j]
  {
    var r := Insert(x, s, key);
    InsertPermutes(x, s, key);
    assert r[i] in multiset(r);
    assert r[i] in multiset(s) || r[i] == x;
  }

  /** Insertion puts `x` after every element of its own key. */
  lemma {:induction false} InsertIsStable<T>(x: T, s: seq<T>, key: T -> int, k: int)
    ensures WithKey(Insert(x, s, key), key, k) == WithKey(s, key, k) + (if key(x) == k then [x] else [])
    decreases |s|
  {
    if s == [] || key(s[|s| - 1]) >= key(x) {
      WithKeySnoc(s, x, key, k);
    } else {
      var init := s[..|s| - 1];
      var last := s[|s| - 1];
      InsertIsStable(x, init, key, k);
      WithKeySnoc(Insert(x, init, key), last, key, k);
      WithKeySnoc(init, last, key, k);
      assert s == init + [last];
    }
  }

  // ---------------------------------------------------------------- the sort

  /** The sort rearranges its input and nothing else. */
  lemma {:induction false} SortDescPermutes<T>(s: seq<T>, key: T -> int)
    ensures |SortDesc(s, key)| == |s|
    ensures multiset(SortDesc(s, key)) == multiset(s)
    decreases |s|
  {
    if s != [] {
      var init := s[..|s| - 1];
      SortDescPermutes(init, key);
      InsertPermutes(s[|s| - 1], SortDesc(init, key), key);
      assert s == init + [s[|s| - 1]];
    }
  }

  /** Later keys never come before earlier ones. */
  lemma {:induction false} SortDescIsSorted<T>(s: seq<T>, key: T -> int)
    ensures SortedDesc(SortDesc(s, key), key)
    decreases |s|
  {
    if s != [] {
      SortDescIsSorted(s[..|s| - 1], key);
      InsertKeepsSorted(s[|s| - 1], SortDesc(s[..|s| - 1], key), key);
    }
  }

  /** Elements with equal keys keep their original order. */
  lemma {:induction false} SortDescIsStable<T>(s: seq<T>, key: T -> int, k: int)
    ensures WithKey(SortDesc(s, key), key, k) == WithKey(s, key, k)
    decreases |s|
  {
    if s != [] {
      var init := s[..|s| - 1];
      SortDescIsStable(init, key, k);
      InsertIsStable(s[|s| - 1], SortDesc(init, key), key, k);
    }
  }

  /** In-place insertion sort by adjacent swaps, which never moves an element past an equal one. */
  method SortByKeyDesc<T>(a: array<T>, key: T -> int)
    modifies a
    ensures a[..] == SortDesc(old(a[..]), key)
  {
    ghost var input := a[..];
    var i := 0;
    while i < a.Length
      invariant 0 <= i <= a.Length
      invariant a[..i] == SortDesc(input[..i], key)
      invariant a[i..] == input[i..]
    {
      assert input[..i + 1][..i] == input[..i];
      assert a[i] == input[i];
      SinkLast(a, i, key);
      assert a[i + 1..] == input[i + 1..];
      i := i + 1;
    }
    assert input[..a.Length] == input;
    assert a[..a.Length] == a[..];
  }

  /** One insertion step: `a[i]` sinks left past every element with a smaller key. */
  method SinkLast<T>(a: array<T>, i: int, key: T -> int)
    requires 0 <= i < a.Length
    modifies a
    ensures a[..i + 1] == Insert(old(a[i]), old(a[..i]), key)
    ensures a[i + 1..] == old(a[i + 1..])
  {
    ghost var prefix := a[..i];
    ghost var rest := a[i + 1..];
    var x := a[i];
    var j := i;
    assert prefix[..i] == prefix && prefix[i..] == [];
    assert a[..] == prefix[..i] + [x] + prefix[i..] + rest;
    while j > 0 && key(a[j - 1]) < key(x)
      invariant 0 <= j <= i
      invariant a[..] == prefix[..j] + [x] + prefix[j..] + rest
      invariant Insert(x, prefix, key) == Insert(x, prefix[..j], key) + prefix[j..]
    {
      assert a[j - 1] == prefix[j - 1];
      SinkStep(x, prefix, j, key);
      SwapStep(prefix, x, rest, j);
      a[j - 1], a[j] := x, a[j - 1];
      j := j - 1;
    }
    SinkResult(a[..], prefix, x, rest, j, key);
    assert a[..i + 1] == a[..][..i + 1];
    assert a[i + 1..] == a[..][i + 1..];
  }

  /** Where the sinking stops, the sequence is the insertion followed by the untouched rest. */
  lemma SinkResult<T>(s: seq<T>, prefix: seq<T>, x: T, rest: seq<T>, j: int, key: T -> int)
    requires 0 <= j <= |prefix| && s == prefix[..j] + [x] + prefix[j..] + rest
    requires j == 0 || key(s[j - 1]) >= key(x)
    requires Insert(x, prefix, key) == Insert(x, prefix[..j], key) + prefix[j..]
    ensures s[..|prefix| + 1] == Insert(x, prefix, key) && s[|prefix| + 1..] == rest
  {
    if j > 0 {
      assert s[j - 1] == prefix[j - 1];
    }
    SinkDone(x, prefix, j, key);
    InsertPermutes(x, prefix, key);
    assert s == Insert(x, prefix, key) + rest;
  }

  lemma SinkStep<T>(x: T, prefix: seq<T>, j: int, key: T -> int)
    requires 0 < j <= |prefix| && key(prefix[j - 1]) < key(x)
    ensures Insert(x, prefix[..j], key) + prefix[j..] == Insert(x, prefix[..j - 1], key) + prefix[j - 1..]
  {
    assert prefix[..j][..j - 1] == prefix[..j - 1];
    assert prefix[j - 1..] == [prefix[j - 1]] + prefix[j..];
  }

  /** Where the sinking stops, `x` simply follows the elements before it. */
  lemma SinkDone<T>(x: T, prefix: seq<T>, j: int, key: T -> int)
    requires 0 <= j <= |prefix| && (j == 0 || key(prefix[j - 1]) >= key(x))
    ensures Insert(x, prefix[..j], key) == prefix[..j] + [x]
  {
    if j > 0 {
      assert prefix[..j][j - 1] == prefix[j - 1];
    }
  }

  /** Swapping `x` with its left neighbour moves the gap one place left. */
  lemma SwapStep<T>(p: seq<T>, x: T, r: seq<T>, j: int)
    requires 0 < j <= |p|
    ensures var s := p[..j] + [x] + p[j..] + r;
      s[j - 1 := x][j := s[j - 1]] == p[..j - 1] + [x] + p[j - 1..] + r
  {
    var s := p[..j] + [x] + p[j..] + r;
    var t := p[..j - 1] + [x] + p[j - 1..] + r;
    assert s[j - 1] == p[j - 1];
    forall k | 0 <= k < |t|
      ensures s[j - 1 := x][j := s[j - 1]][k] == t[k]
    {
      if k < j - 1 {
      } else if k == j - 1 || k == j {
      } else if k < |p| + 1 {
        assert t[k] == p[k - 1];
      }
    }
  }
}
