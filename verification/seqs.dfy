/** Sequence operations the source performs with `Array.prototype.filter`,
    `map` and `sort`, with the facts about them the model relies on. */
module Seqs {

  /** `s.filter(p)`: the elements satisfying `p`, in their original order. */
  function Filter<T>(p: T -> bool, s: seq<T>): seq<T>
    decreases |s|
  {
    if |s| == 0 then []
    else (if p(s[0]) then [s[0]] else []) + Filter(p, s[1..])
  }

  /** `a` is obtained from `b` by deleting elements, keeping the rest in order. */
  predicate Subseq<T(==)>(a: seq<T>, b: seq<T>)
    decreases |b|
  {
    if |a| == 0 then true
    else if |b| == 0 then false
    else (a[0] == b[0] && Subseq(a[1..], b[1..])) || Subseq(a, b[1..])
  }

  /** Each element survives `filter` as many times as it occurs, when it satisfies `p`. */
  lemma {:induction false} FilterCount<T>(p: T -> bool, s: seq<T>, x: T)
    ensures multiset(Filter(p, s))[x] == if p(x) then multiset(s)[x] else 0
    decreases |s|
  {
    if |s| > 0 {
      FilterCount(p, s[1..], x);
      assert s == [s[0]] + s[1..];
      assert multiset(s) == multiset{s[0]} + multiset(s[1..]);
      assert Filter(p, s) == (if p(s[0]) then [s[0]] else []) + Filter(p, s[1..]);
      assert multiset(Filter(p, s)) == multiset(if p(s[0]) then [s[0]] else []) + multiset(Filter(p, s[1..]));
    }
  }

  lemma FilterMember<T>(p: T -> bool, s: seq<T>, x: T)
    ensures x in Filter(p, s) <==> x in s && p(x)
  {
    FilterCount(p, s, x);
  }

  lemma {:induction false} FilterIsSubseq<T>(p: T -> bool, s: seq<T>)
    ensures Subseq(Filter(p, s), s)
    decreases |s|
  {
    if |s| > 0 {
      FilterIsSubseq(p, s[1..]);
      var f := Filter(p, s);
      if p(s[0]) {
        assert f == [s[0]] + Filter(p, s[1..]);
        assert f[0] == s[0] && f[1..] == Filter(p, s[1..]);
      } else {
        assert f == Filter(p, s[1..]);
      }
    }
  }

  /** Two successive filters are one filter by the conjunction of their predicates. */
  lemma {:induction false} FilterFuse<T>(p: T -> bool, q: T -> bool, pq: T -> bool, s: seq<T>)
    requires forall x :: pq(x) == (p(x) && q(x))
    ensures Filter(q, Filter(p, s)) == Filter(pq, s)
    decreases |s|
  {
    if |s| > 0 {
      FilterFuse(p, q, pq, s[1..]);
      if p(s[0]) {
        assert Filter(p, s) == [s[0]] + Filter(p, s[1..]);
        assert Filter(q, Filter(p, s)) == Filter(q, [s[0]]) + Filter(q, Filter(p, s[1..])) by {
          FilterAppend(q, [s[0]], Filter(p, s[1..]));
        }
        assert Filter(q, [s[0]]) == (if q(s[0]) then [s[0]] else []) + Filter(q, []);
      } else {
        assert Filter(p, s) == Filter(p, s[1..]);
      }
      assert Filter(pq, s) == (if pq(s[0]) then [s[0]] else []) + Filter(pq, s[1..]);
    }
  }

  lemma {:induction false} FilterAppend<T>(p: T -> bool, a: seq<T>, b: seq<T>)
    ensures Filter(p, a + b) == Filter(p, a) + Filter(p, b)
    decreases |a|
  {
    if |a| > 0 {
      assert (a + b)[0] == a[0] && (a + b)[1..] == a[1..] + b;
      FilterAppend(p, a[1..], b);
      var h := if p(a[0]) then [a[0]] else [];
      assert Filter(p, a + b) == h + Filter(p, a[1..] + b);
      assert Filter(p, a) == h + Filter(p, a[1..]);
    } else {
      assert a + b == b;
    }
  }

  /** A filter every element passes returns its input. */
  lemma {:induction false} FilterKeepsAll<T>(p: T -> bool, s: seq<T>)
    requires forall i :: 0 <= i < |s| ==> p(s[i])
    ensures Filter(p, s) == s
    decreases |s|
  {
    if |s| > 0 {
      FilterKeepsAll(p, s[1..]);
    }
  }

  /** Filtering out the one element the predicate rejects is splicing it out. */
  lemma {:induction false} FilterOne<T>(keep: T -> bool, s: seq<T>, i: nat)
    requires i < |s| && !keep(s[i])
    requires forall j :: 0 <= j < |s| && j != i ==> keep(s[j])
    ensures Filter(keep, s) == s[..i] + s[i + 1..]
  {
    var pre, mid, rest := s[..i], [s[i]], s[i + 1..];
    assert s == pre + mid + rest;
    FilterAppend(keep, pre + mid, rest);
    FilterAppend(keep, pre, mid);
    forall j | 0 <= j < |pre| ensures keep(pre[j]) {
      assert pre[j] == s[j];
    }
    FilterKeepsAll(keep, pre);
    forall j | 0 <= j < |rest| ensures keep(rest[j]) {
      assert rest[j] == s[i + 1 + j];
    }
    FilterKeepsAll(keep, rest);
    assert Filter(keep, mid) == Filter(keep, mid[1..]);
  }

  /** No element occurs twice. */
  predicate NoDup<T(==)>(s: seq<T>) {
    forall i, j :: 0 <= i < j < |s| ==> s[i] != s[j]
  }

  lemma {:induction false} NoDupIff<T>(s: seq<T>)
    ensures NoDup(s) <==> forall x :: multiset(s)[x] <= 1
    decreases |s|
  {
    if |s| > 0 {
      NoDupIff(s[1..]);
      assert s == [s[0]] + s[1..];
      if NoDup(s) {
        forall k | 0 <= k < |s[1..]| ensures s[1..][k] != s[0] {
          assert s[1..][k] == s[k + 1];
        }
        assert s[0] !in s[1..];
        assert NoDup(s[1..]) by {
          forall i, j | 0 <= i < j < |s[1..]| ensures s[1..][i] != s[1..][j] {
            assert s[1..][i] == s[i + 1] && s[1..][j] == s[j + 1];
          }
        }
      } else {
        var i, j :| 0 <= i < j < |s| && s[i] == s[j];
        if i == 0 {
          assert s[j] == s[1..][j - 1];
          assert s[0] in s[1..];
          assert multiset(s)[s[0]] == 1 + multiset(s[1..])[s[0]];
        } else {
          assert s[1..][i - 1] == s[i] && s[1..][j - 1] == s[j];
          assert !NoDup(s[1..]);
          var x :| multiset(s[1..])[x] > 1;
          assert multiset(s) == multiset{s[0]} + multiset(s[1..]);
          assert multiset(s)[x] > 1;
        }
      }
    }
  }

  /** Strictly sorted: every later element comes after every earlier one. */
  predicate StrictlySorted<T>(after: (T, T) -> bool, s: seq<T>) {
    forall i, j :: 0 <= i < j < |s| ==> after(s[j], s[i])
  }

  /** Sorted: no earlier element comes after a later one. */
  predicate Sorted<T>(after: (T, T) -> bool, s: seq<T>) {
    forall i, j :: 0 <= i < j < |s| ==> !after(s[i], s[j])
  }

  /** On the elements of `s`, `after` is a strict weak order: asymmetric, and
      "does not come after" is transitive. */
  predicate StrictWeakOn<T(==)>(after: (T, T) -> bool, s: seq<T>) {
    && (forall a, b :: a in s && b in s && after(a, b) ==> !after(b, a))
    && (forall a, b, c :: a in s && b in s && c in s && !after(a, b) && !after(b, c) ==> !after(a, c))
  }

  /** Any two different elements of `s` are ordered one way or the other. */
  predicate ConnectedOn<T(==)>(after: (T, T) -> bool, s: seq<T>) {
    forall a, b :: a in s && b in s && a != b ==> after(a, b) || after(b, a)
  }

  /** Puts `x` in front of the first element it does not come after. */
  function Insert<T>(after: (T, T) -> bool, x: T, s: seq<T>): seq<T>
    decreases |s|
  {
    if |s| == 0 then [x]
    else if after(x, s[0]) then [s[0]] + Insert(after, x, s[1..])
    else [x] + s
  }

  /** `s.sort(cmp)` where `cmp(a, b) > 0` exactly when `after(a, b)`. */
  function InsertionSort<T>(after: (T, T) -> bool, s: seq<T>): seq<T>
    decreases |s|
  {
    if |s| == 0 then [] else Insert(after, s[0], InsertionSort(after, s[1..]))
  }

  lemma {:induction false} InsertPermutes<T>(after: (T, T) -> bool, x: T, s: seq<T>)
    ensures multiset(Insert(after, x, s)) == multiset(s) + multiset{x}
    decreases |s|
  {
    if |s| > 0 && after(x, s[0]) {
      InsertPermutes(after, x, s[1..]);
      assert s == [s[0]] + s[1..];
    }
  }

  /** Sorting only reorders: the result holds each element as often as the input. */
  lemma {:induction false} SortPermutes<T>(after: (T, T) -> bool, s: seq<T>)
    ensures multiset(InsertionSort(after, s)) == multiset(s)
    decreases |s|
  {
    if |s| > 0 {
      SortPermutes(after, s[1..]);
      InsertPermutes(after, s[0], InsertionSort(after, s[1..]));
      assert s == [s[0]] + s[1..];
    }
  }

  lemma {:induction false} InsertSorted<T>(after: (T, T) -> bool, x: T, s: seq<T>, dom: seq<T>)
    requires Sorted(after, s) && StrictWeakOn(after, dom)
    requires x in dom && forall y :: y in s ==> y in dom
    ensures Sorted(after, Insert(after, x, s))
    decreases |s|
  {
    InsertPermutes(after, x, s);
    if |s| > 0 {
      if after(x, s[0]) {
        assert Sorted(after, s[1..]) by {
          forall i, j | 0 <= i < j < |s[1..]| ensures !after(s[1..][i], s[1..][j]) {
            assert s[1..][i] == s[i + 1] && s[1..][j] == s[j + 1];
          }
        }
        forall y | y in s[1..] ensures y in dom {
          assert y in s;
        }
        InsertSorted(after, x, s[1..], dom);
        var rest := Insert(after, x, s[1..]);
        InsertPermutes(after, x, s[1..]);
        forall k | 0 <= k < |rest| ensures !after(s[0], rest[k]) {
          assert rest[k] in multiset(rest);
          if rest[k] == x {
            assert s[0] in s;
          } else {
            assert rest[k] in s[1..];
            var m :| 0 <= m < |s[1..]| && s[1..][m] == rest[k];
            assert s[m + 1] == rest[k];
          }
        }
        var r := [s[0]] + rest;
        forall i, j | 0 <= i < j < |r| ensures !after(r[i], r[j]) {
          if i > 0 {
            assert r[i] == rest[i - 1] && r[j] == rest[j - 1];
          } else {
            assert r[j] == rest[j - 1];
          }
        }
      } else {
        var r := [x] + s;
        forall j | 0 < j < |r| ensures !after(x, r[j]) {
          assert r[j] == s[j - 1];
          if j > 1 {
            assert s[0] in s && s[j - 1] in s;
            assert !after(s[0], s[j - 1]);
          }
        }
        forall i, j | 0 <= i < j < |r| ensures !after(r[i], r[j]) {
          if i > 0 {
            assert r[i] == s[i - 1] && r[j] == s[j - 1];
          }
        }
      }
    }
  }

  lemma {:induction false} SortSortedOn<T>(after: (T, T) -> bool, s: seq<T>, dom: seq<T>)
    requires StrictWeakOn(after, dom) && forall y :: y in s ==> y in dom
    ensures Sorted(after, InsertionSort(after, s))
    decreases |s|
  {
    if |s| > 0 {
      forall y | y in s[1..] ensures y in dom {
        assert y in s;
      }
      SortSortedOn(after, s[1..], dom);
      SortPermutes(after, s[1..]);
      forall y | y in InsertionSort(after, s[1..]) ensures y in dom {
        assert y in multiset(InsertionSort(after, s[1..]));
        assert y in s[1..];
      }
      InsertSorted(after, s[0], InsertionSort(after, s[1..]), dom);
    }
  }

  /** Under a strict weak order no element of the sorted result comes after a later one. */
  lemma SortSorted<T>(after: (T, T) -> bool, s: seq<T>)
    requires StrictWeakOn(after, s)
    ensures Sorted(after, InsertionSort(after, s))
  {
    SortSortedOn(after, s, s);
  }

  /** With a strict total order on distinct elements, the sorted result is strictly ascending. */
  lemma SortStrictlySorted<T>(after: (T, T) -> bool, s: seq<T>)
    requires StrictWeakOn(after, s) && ConnectedOn(after, s) && NoDup(s)
    ensures StrictlySorted(after, InsertionSort(after, s))
  {
    var r := InsertionSort(after, s);
    SortSorted(after, s);
    SortPermutes(after, s);
    NoDupIff(s);
    NoDupIff(r);
    forall i, j | 0 <= i < j < |r| ensures after(r[j], r[i]) {
      assert r[i] in multiset(r) && r[j] in multiset(r);
      assert r[i] in s && r[j] in s;
    }
  }

  /** Reversal. */
  function Reverse<T>(s: seq<T>): (r: seq<T>)
    ensures |r| == |s| && forall i :: 0 <= i < |s| ==> r[i] == s[|s| - 1 - i]
    decreases |s|
  {
    if |s| == 0 then [] else Reverse(s[1..]) + [s[0]]
  }

  lemma {:induction false} ReversePermutes<T>(s: seq<T>)
    ensures multiset(Reverse(s)) == multiset(s)
    decreases |s|
  {
    if |s| > 0 {
      ReversePermutes(s[1..]);
      assert s == [s[0]] + s[1..];
    }
  }

  /** In a strictly sorted sequence every other element comes after the first. */
  lemma HeadIsFirst<T>(after: (T, T) -> bool, a: seq<T>, x: T)
    requires StrictlySorted(after, a) && x in a && x != a[0]
    ensures after(x, a[0])
  {
    var i :| 0 <= i < |a| && a[i] == x;
  }

  lemma TailStrictlySorted<T>(after: (T, T) -> bool, a: seq<T>)
    requires StrictlySorted(after, a) && |a| > 0
    ensures StrictlySorted(after, a[1..])
  {
    forall i, j | 0 <= i < j < |a[1..]| ensures after(a[1..][j], a[1..][i]) {
      assert a[1..][j] == a[j + 1] && a[1..][i] == a[i + 1];
    }
  }

  /** Two strictly sorted arrangements of the same elements start alike. */
  lemma SameHead<T>(after: (T, T) -> bool, a: seq<T>, b: seq<T>)
    requires StrictlySorted(after, a) && StrictlySorted(after, b)
    requires multiset(a) == multiset(b) && |a| > 0
    requires forall x, y :: x in a && y in a && after(x, y) ==> !after(y, x)
    ensures |b| > 0 && a[0] == b[0]
  {
    assert a[0] in multiset(b);
    assert |b| > 0 && b[0] in multiset(a);
    if a[0] != b[0] {
      HeadIsFirst(after, a, b[0]);
      HeadIsFirst(after, b, a[0]);
      assert false;
    }
  }

  lemma TailMultiset<T>(a: seq<T>)
    requires |a| > 0
    ensures multiset(a[1..]) == multiset(a) - multiset{a[0]}
  {
    assert a == [a[0]] + a[1..];
  }

  lemma TailAsymmetric<T>(after: (T, T) -> bool, a: seq<T>)
    requires |a| > 0 && forall x, y :: x in a && y in a && after(x, y) ==> !after(y, x)
    ensures forall x, y :: x in a[1..] && y in a[1..] && after(x, y) ==> !after(y, x)
  {
    forall x, y | x in a[1..] && y in a[1..] && after(x, y) ensures !after(y, x) {
      assert x in a && y in a;
    }
  }

  /** The tails of two strictly sorted arrangements of the same elements
      are again such arrangements. */
  lemma TailsAgree<T>(after: (T, T) -> bool, a: seq<T>, b: seq<T>)
    requires StrictlySorted(after, a) && StrictlySorted(after, b)
    requires multiset(a) == multiset(b) && |a| > 0
    requires forall x, y :: x in a && y in a && after(x, y) ==> !after(y, x)
    ensures |b| > 0 && a[0] == b[0]
    ensures StrictlySorted(after, a[1..]) && StrictlySorted(after, b[1..])
    ensures multiset(a[1..]) == multiset(b[1..])
    ensures forall x, y :: x in a[1..] && y in a[1..] && after(x, y) ==> !after(y, x)
  {
    SameHead(after, a, b);
    TailMultiset(a);
    TailMultiset(b);
    TailAsymmetric(after, a);
    TailStrictlySorted(after, a);
    TailStrictlySorted(after, b);
  }

  lemma HeadTailEqual<T>(a: seq<T>, b: seq<T>)
    requires |a| > 0 && |b| > 0 && a[0] == b[0] && a[1..] == b[1..]
    ensures a == b
  {
    assert a == [a[0]] + a[1..];
    assert b == [b[0]] + b[1..];
  }

  /** Two strictly sorted arrangements of the same elements are the same sequence. */
  lemma {:induction false} StrictlySortedUnique<T>(after: (T, T) -> bool, a: seq<T>, b: seq<T>)
    requires StrictlySorted(after, a) && StrictlySorted(after, b)
    requires multiset(a) == multiset(b)
    requires forall x, y :: x in a && y in a && after(x, y) ==> !after(y, x)
    ensures a == b
    decreases |a|
  {
    assert |a| == |multiset(a)| == |multiset(b)| == |b|;
    if |a| > 0 {
      TailsAgree(after, a, b);
      StrictlySortedUnique(after, a[1..], b[1..]);
      HeadTailEqual(a, b);
    }
  }
}
