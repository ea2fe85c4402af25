/** The library's stable sort by a key, and removal of one element. */
module Sorting {

  ghost predicate SortedBy<T>(s: seq<T>, key: T -> int) {
    forall i, j :: 0 <= i <= j < |s| ==> key(s[i]) <= key(s[j])
  }

  /** Inserts behind the elements with the same key. */
  function InsertBy<T>(s: seq<T>, x: T, key: T -> int): seq<T> {
    if s == [] then [x]
    else if key(x) < key(s[0]) then [x] + s
    else [s[0]] + InsertBy(s[1..], x, key)
  }

  function SortBy<T>(s: seq<T>, key: T -> int): (r: seq<T>)
    ensures multiset(r) == multiset(s) && SortedBy(r, key) && |r| == |s|
  {
    if s == [] then [] else
    var sorted, last := SortBy(s[..|s| - 1], key), s[|s| - 1];
    InsertIsSort(s, sorted, key);
    InsertBy(sorted, last, key)
  }

  lemma InsertIsSort<T>(s: seq<T>, sorted: seq<T>, key: T -> int)
    requires s != [] && SortedBy(sorted, key) && multiset(sorted) == multiset(s[..|s| - 1]) && |sorted| == |s| - 1
    ensures var r := InsertBy(sorted, s[|s| - 1], key);
            multiset(r) == multiset(s) && SortedBy(r, key) && |r| == |s|
  {
    InsertPermutes(sorted, s[|s| - 1], key);
    InsertSorts(sorted, s[|s| - 1], key);
    hide InsertBy, SortedBy;
    assert s == s[..|s| - 1] + [s[|s| - 1]];
  }

  lemma {:induction false} InsertPermutes<T>(s: seq<T>, x: T, key: T -> int)
    ensures multiset(InsertBy(s, x, key)) == multiset(s) + multiset{x}
    ensures |InsertBy(s, x, key)| == |s| + 1
  {
    if s != [] {
      assert s == [s[0]] + s[1..];
      if key(x) >= key(s[0]) {
        InsertPermutes(s[1..], x, key);
      }
    }
  }

  lemma {:induction false} InsertSorts<T>(s: seq<T>, x: T, key: T -> int)
    requires SortedBy(s, key)
    ensures SortedBy(InsertBy(s, x, key), key)
  {
    if s != [] && key(x) >= key(s[0]) {
      var rest := InsertBy(s[1..], x, key);
      InsertSorts(s[1..], x, key);
      InsertPermutes(s[1..], x, key);
      forall j | 0 <= j < |rest|
        ensures key(s[0]) <= key(rest[j])
      {
        assert rest[j] in multiset(rest);
        if rest[j] != x {
          assert rest[j] in s[1..];
        }
      }
    }
  }

  function RemoveAt<T>(s: seq<T>, i: nat): seq<T>
    requires i < |s|
  {
    s[..i] + s[i + 1..]
  }

  lemma RemoveAtMultiset<T>(s: seq<T>, i: nat)
    requires i < |s|
    ensures multiset(RemoveAt(s, i)) == multiset(s) - multiset{s[i]}
    ensures multiset(s) == multiset(RemoveAt(s, i)) + multiset{s[i]}
  {
    assert s == s[..i] + [s[i]] + s[i + 1..];
  }

  lemma PositionOf<T>(s: seq<T>, x: T) returns (i: nat)
    requires x in multiset(s)
    ensures i < |s| && s[i] == x
  {
    i :| 0 <= i < |s| && s[i] == x;
  }

  // ---------------------------------------------------------------- sums

  ghost function SumBy<T>(s: seq<T>, f: T -> int): int {
    if s == [] then 0 else SumBy(s[..|s| - 1], f) + f(s[|s| - 1])
  }

  ghost predicate NonNegative<T>(s: seq<T>, f: T -> int) {
    forall x :: x in s ==> f(x) >= 0
  }

  lemma {:induction false} SumOfConcat<T>(a: seq<T>, b: seq<T>, f: T -> int)
    ensures SumBy(a + b, f) == SumBy(a, f) + SumBy(b, f)
  {
    if b == [] {
      assert a + b == a;
    } else {
      assert (a + b)[..|a + b| - 1] == a + b[..|b| - 1];
      SumOfConcat(a, b[..|b| - 1], f);
    }
  }

  lemma {:induction false} SumIsNonNegative<T>(s: seq<T>, f: T -> int)
    requires NonNegative(s, f)
    ensures SumBy(s, f) >= 0
  {
    if s != [] {
      assert s[|s| - 1] in s;
      SumIsNonNegative(s[..|s| - 1], f);
    }
  }

  lemma SumOfPrefix<T>(s: seq<T>, k: nat, f: T -> int)
    requires k <= |s| && NonNegative(s, f)
    ensures 0 <= SumBy(s[..k], f) <= SumBy(s, f)
  {
    assert s == s[..k] + s[k..];
    SumOfConcat(s[..k], s[k..], f);
    SumIsNonNegative(s[..k], f);
    SumIsNonNegative(s[k..], f);
  }

  lemma SumRemove<T>(s: seq<T>, i: nat, f: T -> int)
    requires i < |s|
    ensures SumBy(s, f) == f(s[i]) + SumBy(RemoveAt(s, i), f)
  {
    SplitAt(s, i);
    hide SumBy;
    SumOfOne(s[i], f);
    SumOfConcat(s[..i] + [s[i]], s[i + 1..], f);
    SumOfConcat(s[..i], [s[i]], f);
    SumOfConcat(s[..i], s[i + 1..], f);
  }

  lemma SplitAt<T>(s: seq<T>, i: nat)
    requires i < |s|
    ensures s == s[..i] + [s[i]] + s[i + 1..]
  {
  }

  lemma SumOfOne<T>(x: T, f: T -> int)
    ensures SumBy([x], f) == f(x)
  {
    assert [x][..0] == [];
  }

  lemma {:induction false} SumOfPermutation<T>(s: seq<T>, t: seq<T>, f: T -> int)
    requires multiset(s) == multiset(t)
    ensures SumBy(s, f) == SumBy(t, f)
    decreases |s|
  {
    if s == [] {
      assert |multiset(t)| == 0;
    } else {
      var last := |s| - 1;
      assert s[last] in multiset(t);
      var i := PositionOf(t, s[last]);
      RemoveAtMultiset(s, last);
      RemoveAtMultiset(t, i);
      assert RemoveAt(s, last) == s[..last];
      hide *;
      SumOfPermutation(s[..last], RemoveAt(t, i), f);
      SumRemove(t, i, f);
      SumRemove(s, last, f);
    }
  }

  /** No sub-collection of the same size is worth more than the front of the sequence sorted by falling worth. */
  lemma {:induction false} FrontIsWorthMost<T>(s: seq<T>, t: seq<T>, key: T -> int, worth: T -> int)
    requires SortedBy(s, key) && forall x :: x in s ==> key(x) == -worth(x)
    requires multiset(t) <= multiset(s)
    ensures |t| <= |s| && SumBy(t, worth) <= SumBy(s[..|t|], worth)
    decreases |s|
  {
    SubsetIsSmaller(t, s);
    if t == [] {
      assert s[..0] == [];
    } else {
      var init, last := s[..|s| - 1], s[|s| - 1];
      var n := |t| - 1;
      InitIsRanked(s, n, key, worth);
      hide *;
      if last in t {
        var rest := WithoutLast(s, t, worth);
        FrontIsWorthMost(init, rest, key, worth);
        PrefixOfInit(s, n);
        SumOfNextPrefix(s, n, worth);
      } else {
        SubsetWithoutLast(s, t);
        FrontIsWorthMost(init, t, key, worth);
        PrefixOfInit(s, |t|);
      }
    }
  }

  lemma PrefixOfInit<T>(s: seq<T>, n: nat)
    requires n < |s|
    ensures s[..|s| - 1][..n] == s[..n]
  {
  }

  lemma InitIsRanked<T>(s: seq<T>, n: nat, key: T -> int, worth: T -> int)
    requires n < |s| && SortedBy(s, key) && forall x :: x in s ==> key(x) == -worth(x)
    ensures worth(s[|s| - 1]) <= worth(s[n])
    ensures var init := s[..|s| - 1]; SortedBy(init, key) && forall x :: x in init ==> key(x) == -worth(x)
  {
  }

  lemma WithoutLast<T>(s: seq<T>, t: seq<T>, f: T -> int) returns (rest: seq<T>)
    requires s != [] && s[|s| - 1] in t && multiset(t) <= multiset(s)
    ensures multiset(rest) <= multiset(s[..|s| - 1]) && |rest| == |t| - 1
    ensures SumBy(t, f) == SumBy(rest, f) + f(s[|s| - 1])
  {
    var i := PositionOf(t, s[|s| - 1]);
    rest := RemoveAt(t, i);
    RemoveAtMultiset(t, i);
    RemoveAtMultiset(s, |s| - 1);
    assert RemoveAt(s, |s| - 1) == s[..|s| - 1];
    SumRemove(t, i, f);
  }

  lemma SumOfNextPrefix<T>(s: seq<T>, k: nat, f: T -> int)
    requires k < |s|
    ensures SumBy(s[..k + 1], f) == SumBy(s[..k], f) + f(s[k])
  {
    assert s[..k + 1][..k] == s[..k];
  }

  lemma SubsetWithoutLast<T>(s: seq<T>, t: seq<T>)
    requires s != [] && multiset(t) <= multiset(s) && s[|s| - 1] !in t
    ensures multiset(t) <= multiset(s[..|s| - 1])
  {
    assert s == s[..|s| - 1] + [s[|s| - 1]];
    forall x | x in multiset(t)
      ensures multiset(t)[x] <= multiset(s[..|s| - 1])[x]
    {
    }
  }

  lemma SubsetIsSmaller<T>(t: seq<T>, s: seq<T>)
    requires multiset(t) <= multiset(s)
    ensures |t| <= |s|
  {
    assert multiset(s) == multiset(t) + (multiset(s) - multiset(t));
    assert |multiset(s)| == |multiset(t)| + |multiset(s) - multiset(t)|;
  }

  /** The same for any longer front. */
  lemma LongerFrontIsWorthMost<T>(s: seq<T>, t: seq<T>, k: nat, key: T -> int, worth: T -> int)
    requires SortedBy(s, key) && forall x :: x in s ==> key(x) == -worth(x)
    requires NonNegative(s, worth)
    requires multiset(t) <= multiset(s) && |t| <= k <= |s|
    ensures SumBy(t, worth) <= SumBy(s[..k], worth)
  {
    FrontIsWorthMost(s, t, key, worth);
    hide SortedBy, SumBy;
    assert s[..k][..|t|] == s[..|t|];
    SumOfPrefix(s[..k], |t|, worth);
  }
}
