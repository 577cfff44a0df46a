/** The LINQ operators the queries use: `Where` (filtering in order) and `OrderBy` /
    `OrderByDescending` on an integer key, a stable sort. The sort is modelled as insertion
    sort, which places each element before the first later element of no smaller key and so
    keeps equal keys in their original order. */
module Enumerable {

  /** The elements of `s` that satisfy `p`, in order. */
  function Where<T>(s: seq<T>, p: T -> bool): (r: seq<T>)
    ensures |r| <= |s|
    ensures forall i :: 0 <= i < |r| ==> r[i] in s && p(r[i])
    ensures forall i :: 0 <= i < |s| && p(s[i]) ==> s[i] in r
  {
    if s == [] then []
    else (if p(s[0]) then [s[0]] else []) + Where(s[1..], p)
  }

  lemma WhereMembers<T>(s: seq<T>, p: T -> bool, x: T)
    ensures x in Where(s, p) <==> x in s && p(x)
  {
  }

  /** Filtering keeps a list ordered. */
  lemma {:induction false} WhereSorted<T>(s: seq<T>, p: T -> bool, key: T -> int)
    requires SortedBy(s, key)
    ensures SortedBy(Where(s, p), key)
  {
    if s != [] {
      WhereSorted(s[1..], p, key);
      var rest := Where(s[1..], p);
      if p(s[0]) {
        forall j | 0 < j < |[s[0]] + rest| ensures key(s[0]) <= key(([s[0]] + rest)[j]) {
          assert ([s[0]] + rest)[j] == rest[j - 1];
          assert rest[j - 1] in s[1..];
        }
      }
    }
  }

  /** Filtering keeps no element more often than the input holds it. */
  lemma {:induction false} WhereSubMultiset<T>(s: seq<T>, p: T -> bool)
    ensures multiset(Where(s, p)) <= multiset(s)
  {
    if s != [] {
      WhereSubMultiset(s[1..], p);
      assert s == [s[0]] + s[1..];
    }
  }

  /** Filtering a list with one more element at the end. */
  lemma {:induction false} WhereSnoc<T>(s: seq<T>, x: T, p: T -> bool)
    ensures Where(s + [x], p) == Where(s, p) + (if p(x) then [x] else [])
  {
    if s == [] {
      assert [x][1..] == [];
      assert [] + [x] == [x];
    } else {
      assert (s + [x])[0] == s[0];
      assert (s + [x])[1..] == s[1..] + [x];
      WhereSnoc(s[1..], x, p);
    }
  }

  /** No element occurs twice. */
  predicate NoRepeats<T(==)>(s: seq<T>) {
    forall x | x in s :: multiset(s)[x] <= 1
  }

  /** Two lists without repeats that share no element concatenate without repeats. */
  lemma NoRepeatsConcat<T>(a: seq<T>, b: seq<T>)
    requires NoRepeats(a) && NoRepeats(b) && forall x :: x in a ==> x !in b
    ensures NoRepeats(a + b)
  {
    assert multiset(a + b) == multiset(a) + multiset(b);
    forall x | x in a + b ensures multiset(a + b)[x] <= 1 {
      if x in a {
        assert multiset(b)[x] == 0;
      } else {
        assert multiset(a)[x] == 0;
      }
    }
  }

  lemma NoRepeatsAt<T>(s: seq<T>, i: nat, j: nat)
    requires NoRepeats(s) && i < j < |s|
    ensures s[i] != s[j]
  {
    assert s == s[..j] + s[j..];
    assert s[i] in s[..j];
    assert s[j] in s[j..];
    assert multiset(s)[s[j]] == multiset(s[..j])[s[j]] + multiset(s[j..])[s[j]];
  }

  predicate SortedBy<T>(s: seq<T>, key: T -> int) {
    forall i, j :: 0 <= i < j < |s| ==> key(s[i]) <= key(s[j])
  }

  function Insert<T>(x: T, s: seq<T>, key: T -> int): (r: seq<T>)
    ensures multiset(r) == multiset(s) + multiset{x}
    ensures |r| == |s| + 1
  {
    if s == [] || key(x) <= key(s[0]) then [x] + s
    else
      assert s == [s[0]] + s[1..];
      [s[0]] + Insert(x, s[1..], key)
  }

  /** The elements of `s` in ascending key order, equal keys in their original order. */
  function SortBy<T>(s: seq<T>, key: T -> int): (r: seq<T>)
    ensures multiset(r) == multiset(s)
    ensures |r| == |s|
  {
    if s == [] then []
    else
      assert s == [s[0]] + s[1..];
      Insert(s[0], SortBy(s[1..], key), key)
  }

  lemma {:induction false} InsertSorted<T>(x: T, s: seq<T>, key: T -> int)
    requires SortedBy(s, key)
    ensures SortedBy(Insert(x, s, key), key)
    ensures Insert(x, s, key) != [] && (Insert(x, s, key)[0] == x || Insert(x, s, key)[0] == s[0])
  {
    if s != [] && key(x) > key(s[0]) {
      InsertSorted(x, s[1..], key);
    }
  }

  /** The result of `SortBy` is ordered by the key. */
  lemma {:induction false} SortBySorted<T>(s: seq<T>, key: T -> int)
    ensures SortedBy(SortBy(s, key), key)
  {
    if s != [] {
      SortBySorted(s[1..], key);
      InsertSorted(s[0], SortBy(s[1..], key), key);
    }
  }

  /** Sorting a list that is already in key order leaves it as it is. */
  lemma {:induction false} SortBySortedIdentity<T>(s: seq<T>, key: T -> int)
    requires SortedBy(s, key)
    ensures SortBy(s, key) == s
  {
    if s != [] {
      SortBySortedIdentity(s[1..], key);
    }
  }

  /** Sorting keeps exactly the elements of the input. */
  lemma SortByMembers<T>(s: seq<T>, key: T -> int, x: T)
    ensures x in SortBy(s, key) <==> x in s
  {
    assert x in multiset(SortBy(s, key)) <==> x in multiset(s);
  }
}
