/** Sorting by a number, as std::sort does it: what is kept, what is ordered, and what ties leave open. */
module Sorting {

  ghost predicate AtLeast<T(!new)>(bound: int, s: seq<T>, key: T -> int) { forall x :: x in s ==> bound <= key(x) }

  ghost predicate InOrder<T(!new)>(s: seq<T>, key: T -> int) {
    s == [] || (AtLeast(key(s[0]), s[1..], key) && InOrder(s[1..], key))
  }

  lemma {:induction false} InOrderIsPairwise<T(!new)>(s: seq<T>, key: T -> int, i: nat, j: nat)
    requires InOrder(s, key) && i < j < |s|
    ensures key(s[i]) <= key(s[j])
    decreases |s|
  {
    if i == 0 {
      assert s[1..][j - 1] in s[1..];
    } else {
      InOrderIsPairwise(s[1..], key, i - 1, j - 1);
    }
  }

  ghost predicate DistinctKeys<T(!new)>(m: multiset<T>, key: T -> int) {
    forall x, y :: x in m && y in m && key(x) == key(y) ==> x == y
  }

  /** What std::sort may leave: the elements in ascending order, equal ones in any order. */
  ghost predicate IsArrangement<T(!new)>(sorted: seq<T>, s: seq<T>, key: T -> int) {
    multiset(sorted) == multiset(s) && InOrder(sorted, key)
  }

  function Insert<T>(x: T, s: seq<T>, key: T -> int): (r: seq<T>)
    decreases |s|
  {
    if s == [] || key(x) <= key(s[0]) then [x] + s else [s[0]] + Insert(x, s[1..], key)
  }

  /** One of the arrangements: equal elements keep their order. */
  function SortBy<T(!new)>(s: seq<T>, key: T -> int): (r: seq<T>)
    ensures IsArrangement(r, s, key)
    decreases |s|
  {
    if s == [] then []
    else
      assert s == [s[0]] + s[1..];
      InsertArranges(s[0], SortBy(s[1..], key), key);
      Insert(s[0], SortBy(s[1..], key), key)
  }

  lemma {:induction false} InsertArranges<T(!new)>(x: T, s: seq<T>, key: T -> int)
    requires InOrder(s, key)
    ensures IsArrangement(Insert(x, s, key), [x] + s, key)
    decreases |s|
  {
    assert ([x] + s)[1..] == s;
    if s != [] {
      if key(x) <= key(s[0]) {
        assert forall y :: y in s ==> y == s[0] || y in s[1..];
      } else {
        InsertArranges(x, s[1..], key);
        var rest := Insert(x, s[1..], key);
        assert s == [s[0]] + s[1..] && ([s[0]] + rest)[1..] == rest;
        forall y | y in rest ensures key(s[0]) <= key(y) {
          assert y in multiset(rest);
          assert y in multiset([x] + s[1..]);
          assert y in [x] + s[1..];
        }
      }
    }
  }

  /** Taking out one element. */
  lemma TakeOut<T>(s: seq<T>, k: nat)
    requires k < |s|
    ensures multiset(s) == multiset{s[k]} + multiset(s[..k] + s[k + 1..])
    ensures multiset(s[..k] + s[k + 1..]) == multiset(s) - multiset{s[k]}
  {
    assert s == s[..k] + [s[k]] + s[k + 1..];
  }

  lemma TakeFirst<T>(s: seq<T>)
    requires s != []
    ensures multiset(s[1..]) == multiset(s) - multiset{s[0]}
  {
    assert s == [s[0]] + s[1..];
  }

  /** A first element is somewhere in every permutation; the rest is a permutation of what is left there. */
  lemma FindFirst<T>(a: seq<T>, b: seq<T>) returns (k: nat)
    requires multiset(a) == multiset(b) && a != []
    ensures k < |b| && b[k] == a[0] && multiset(a[1..]) == multiset(b[..k] + b[k + 1..])
  {
    assert a[0] in multiset(b);
    k :| 0 <= k < |b| && b[k] == a[0];
    TakeFirst(a);
    TakeOut(b, k);
  }

  /** Elements with distinct keys have one arrangement. */
  lemma {:induction false} OneArrangement<T(!new)>(a: seq<T>, b: seq<T>, key: T -> int)
    requires multiset(a) == multiset(b) && InOrder(a, key) && InOrder(b, key) && DistinctKeys(multiset(a), key)
    ensures a == b
    decreases |a|
  {
    assert |multiset(a)| == |multiset(b)|;
    if a != [] {
      SameFirst(a, b, key);
      TakeFirst(a);
      TakeFirst(b);
      hide InOrder, AtLeast;
      SubsetDistinct(multiset(a), multiset(a[1..]), key);
      OneArrangement(a[1..], b[1..], key);
      assert a == [a[0]] + a[1..] && b == [b[0]] + b[1..];
    }
  }

  lemma SubsetDistinct<T(!new)>(m: multiset<T>, part: multiset<T>, key: T -> int)
    requires part <= m && DistinctKeys(m, key)
    ensures DistinctKeys(part, key)
  {
  }

  lemma SameFirst<T(!new)>(a: seq<T>, b: seq<T>, key: T -> int)
    requires multiset(a) == multiset(b) && InOrder(a, key) && InOrder(b, key) && DistinctKeys(multiset(a), key)
    requires a != [] && b != []
    ensures a[0] == b[0]
  {
  }
}
