/** Keyed reconciliation of a collection against a target list, as `User.UpdateRoles` and
    `Role.UpdateRolePermissions` perform it: both index the current and the target list by key
    (`ToDictionary`, which fails on a repeated key), remove the current elements whose key the
    target lacks and append the target elements whose key is new. The definitions here are the
    specification the two in-place loops are proved against. */
module Reconciliation {

  /** Message of the `ArgumentException` that `ToDictionary` throws on a repeated key. */
  const DuplicateKey := "An item with the same key has already been added."

  /** The set of keys occurring in `s`. */
  function KeysOf<T, K(==)>(s: seq<T>, key: T -> K): (ks: set<K>)
    ensures forall i :: 0 <= i < |s| ==> key(s[i]) in ks
    ensures forall k :: k in ks ==> exists i :: 0 <= i < |s| && key(s[i]) == k
  {
    if s == [] then {} else KeysOf(s[..|s| - 1], key) + {key(s[|s| - 1])}
  }

  /** No two elements of `s` share a key: the condition under which `ToDictionary` succeeds. */
  predicate DistinctKeys<T, K(==)>(s: seq<T>, key: T -> K) {
    forall i, j :: 0 <= i < j < |s| ==> key(s[i]) != key(s[j])
  }

  /** The elements of `s` whose key is in `ks`, in order. */
  function Keep<T, K(==)>(s: seq<T>, key: T -> K, ks: set<K>): (r: seq<T>)
    ensures |r| <= |s|
    ensures forall i :: 0 <= i < |r| ==> r[i] in s && key(r[i]) in ks
    ensures forall i :: 0 <= i < |s| && key(s[i]) in ks ==> s[i] in r
  {
    if s == [] then []
    else Keep(s[..|s| - 1], key, ks) + (if key(s[|s| - 1]) in ks then [s[|s| - 1]] else [])
  }

  /** The elements of `s` whose key is not in `ks`, in order. */
  function Drop<T, K(==)>(s: seq<T>, key: T -> K, ks: set<K>): (r: seq<T>)
    ensures |r| <= |s|
    ensures forall i :: 0 <= i < |r| ==> r[i] in s && key(r[i]) !in ks
    ensures forall i :: 0 <= i < |s| && key(s[i]) !in ks ==> s[i] in r
  {
    if s == [] then []
    else Drop(s[..|s| - 1], key, ks) + (if key(s[|s| - 1]) !in ks then [s[|s| - 1]] else [])
  }

  /** The collection after reconciliation: the current elements whose key the target still
      holds, in their current order, followed by the target elements whose key is new, in
      target order. */
  function Reconciled<T, K(==)>(current: seq<T>, target: seq<T>, key: T -> K): seq<T> {
    Keep(current, key, KeysOf(target, key)) + Drop(target, key, KeysOf(current, key))
  }

  /** `List.Remove(x)`: drops the first occurrence of `x`, if any. */
  function RemoveFirst<T(==)>(s: seq<T>, x: T): (r: seq<T>)
    ensures x in s ==> |r| == |s| - 1
    ensures x !in s ==> r == s
    ensures forall i :: 0 <= i < |r| ==> r[i] in s
  {
    if s == [] then [] else if s[0] == x then s[1..] else [s[0]] + RemoveFirst(s[1..], x)
  }

  lemma {:induction false} RemoveFirstAt<T>(a: seq<T>, x: T, b: seq<T>)
    requires x !in a
    ensures RemoveFirst(a + [x] + b, x) == a + b
  {
    if a != [] {
      assert (a + [x] + b)[1..] == a[1..] + [x] + b;
      RemoveFirstAt(a[1..], x, b);
    }
  }

  /** One step of the removal pass over `current`: the element at `i` is removed (first
      occurrence) when the target lacks its key, and kept otherwise. */
  lemma RemovalStep<T, K>(current: seq<T>, i: nat, key: T -> K, targetKeys: set<K>)
    requires DistinctKeys(current, key) && i < |current|
    ensures var before := Keep(current[..i], key, targetKeys) + current[i..];
            (if key(current[i]) in targetKeys then before else RemoveFirst(before, current[i]))
            == Keep(current[..i + 1], key, targetKeys) + current[i + 1..]
  {
    if key(current[i]) in targetKeys {
      KeptStep(current, i, key, targetKeys);
    } else {
      DroppedStep(current, i, key, targetKeys);
    }
  }

  lemma KeptStep<T, K>(current: seq<T>, i: nat, key: T -> K, targetKeys: set<K>)
    requires i < |current| && key(current[i]) in targetKeys
    ensures Keep(current[..i], key, targetKeys) + current[i..] == Keep(current[..i + 1], key, targetKeys) + current[i + 1..]
  {
    var kept := Keep(current[..i], key, targetKeys);
    KeepExtend(current, i, key, targetKeys);
    assert current[i..] == [current[i]] + current[i + 1..];
    assert kept + current[i..] == (kept + [current[i]]) + current[i + 1..];
  }

  lemma DroppedStep<T, K>(current: seq<T>, i: nat, key: T -> K, targetKeys: set<K>)
    requires DistinctKeys(current, key) && i < |current| && key(current[i]) !in targetKeys
    ensures RemoveFirst(Keep(current[..i], key, targetKeys) + current[i..], current[i])
            == Keep(current[..i + 1], key, targetKeys) + current[i + 1..]
  {
    var x := current[i];
    var kept := Keep(current[..i], key, targetKeys);
    var rest := current[i + 1..];
    KeepExtend(current, i, key, targetKeys);
    assert Keep(current[..i + 1], key, targetKeys) == kept;
    NotYetKept(current, i, key, targetKeys);
    assert current[i..] == [x] + rest;
    assert kept + current[i..] == kept + [x] + rest;
    RemoveFirstAt(kept, x, rest);
  }

  lemma KeepExtend<T, K>(s: seq<T>, i: nat, key: T -> K, ks: set<K>)
    requires i < |s|
    ensures Keep(s[..i + 1], key, ks) == Keep(s[..i], key, ks) + (if key(s[i]) in ks then [s[i]] else [])
  {
    assert s[..i + 1][..i] == s[..i];
  }

  /** With distinct keys, the element at `i` is not among those kept from before `i`. */
  lemma NotYetKept<T, K>(current: seq<T>, i: nat, key: T -> K, targetKeys: set<K>)
    requires DistinctKeys(current, key) && i < |current|
    ensures current[i] !in Keep(current[..i], key, targetKeys)
  {
    var kept := Keep(current[..i], key, targetKeys);
    forall m | 0 <= m < |kept| ensures kept[m] != current[i] {
      assert kept[m] in current[..i];
      var n :| 0 <= n < i && current[..i][n] == kept[m];
      assert key(current[n]) != key(current[i]);
    }
  }

  /** One step of the addition pass over `target`. */
  lemma AdditionStep<T, K>(target: seq<T>, j: nat, key: T -> K, currentKeys: set<K>)
    requires j < |target|
    ensures Drop(target[..j + 1], key, currentKeys)
            == Drop(target[..j], key, currentKeys)
               + (if key(target[j]) !in currentKeys then [target[j]] else [])
  {
    assert target[..j + 1][..j] == target[..j];
  }

  lemma {:induction false} KeysOfKeep<T, K>(s: seq<T>, key: T -> K, ks: set<K>)
    ensures KeysOf(Keep(s, key, ks), key) == KeysOf(s, key) * ks
  {
    if s != [] {
      KeysOfKeep(s[..|s| - 1], key, ks);
      KeysOfAppend(Keep(s[..|s| - 1], key, ks), if key(s[|s| - 1]) in ks then [s[|s| - 1]] else [], key);
    }
  }

  lemma {:induction false} KeysOfDrop<T, K>(s: seq<T>, key: T -> K, ks: set<K>)
    ensures KeysOf(Drop(s, key, ks), key) == KeysOf(s, key) - ks
  {
    if s != [] {
      KeysOfDrop(s[..|s| - 1], key, ks);
      KeysOfAppend(Drop(s[..|s| - 1], key, ks), if key(s[|s| - 1]) !in ks then [s[|s| - 1]] else [], key);
    }
  }

  lemma KeysOfAppend<T, K>(a: seq<T>, b: seq<T>, key: T -> K)
    ensures KeysOf(a + b, key) == KeysOf(a, key) + KeysOf(b, key)
  {
    var ab := a + b;
    forall k | k in KeysOf(ab, key) ensures k in KeysOf(a, key) + KeysOf(b, key) {
      var i :| 0 <= i < |ab| && key(ab[i]) == k;
      if i < |a| { assert ab[i] == a[i]; } else { assert ab[i] == b[i - |a|]; }
    }
    forall k | k in KeysOf(a, key) + KeysOf(b, key) ensures k in KeysOf(ab, key) {
      if k in KeysOf(a, key) {
        var i :| 0 <= i < |a| && key(a[i]) == k;
        assert ab[i] == a[i];
      } else {
        var i :| 0 <= i < |b| && key(b[i]) == k;
        assert ab[|a| + i] == b[i];
      }
    }
  }

  /** After reconciliation the collection holds exactly the target's keys. */
  lemma ReconciledKeys<T, K>(current: seq<T>, target: seq<T>, key: T -> K)
    ensures KeysOf(Reconciled(current, target, key), key) == KeysOf(target, key)
  {
    var kc, kt := KeysOf(current, key), KeysOf(target, key);
    KeysOfAppend(Keep(current, key, kt), Drop(target, key, kc), key);
    KeysOfKeep(current, key, kt);
    KeysOfDrop(target, key, kc);
  }

  /** An element survives or enters reconciliation exactly when it is a current element whose
      key the target holds (kept as it is, not replaced by the target's element) or a target
      element whose key is new. */
  lemma ReconciledMembers<T, K>(current: seq<T>, target: seq<T>, key: T -> K, x: T)
    ensures x in Reconciled(current, target, key) <==>
              (x in current && key(x) in KeysOf(target, key))
              || (x in target && key(x) !in KeysOf(current, key))
  {
  }

  /** Reconciling two lists whose keys are distinct yields a list whose keys are distinct. */
  lemma ReconciledDistinct<T, K>(current: seq<T>, target: seq<T>, key: T -> K)
    requires DistinctKeys(current, key) && DistinctKeys(target, key)
    ensures DistinctKeys(Reconciled(current, target, key), key)
  {
    var kc, kt := KeysOf(current, key), KeysOf(target, key);
    var a, b := Keep(current, key, kt), Drop(target, key, kc);
    KeepDistinct(current, key, kt);
    DropDistinct(target, key, kc);
    var r := a + b;
    forall i, j | 0 <= i < j < |r| ensures key(r[i]) != key(r[j]) {
      if j < |a| {
        assert r[i] == a[i] && r[j] == a[j];
      } else if i >= |a| {
        assert r[i] == b[i - |a|] && r[j] == b[j - |a|];
      } else {
        assert r[i] == a[i] && r[j] == b[j - |a|];
        assert a[i] in a && b[j - |a|] in b;
      }
    }
  }

  lemma {:induction false} KeepDistinct<T, K>(s: seq<T>, key: T -> K, ks: set<K>)
    requires DistinctKeys(s, key)
    ensures DistinctKeys(Keep(s, key, ks), key)
  {
    if s != [] {
      var init := s[..|s| - 1];
      KeepDistinct(init, key, ks);
      var r := Keep(s, key, ks);
      var k := Keep(init, key, ks);
      forall i, j | 0 <= i < j < |r| ensures key(r[i]) != key(r[j]) {
        if j >= |k| {
          assert r[i] == k[i] && k[i] in init;
          var m :| 0 <= m < |init| && init[m] == k[i];
          assert r[j] == s[|s| - 1] && s[m] == init[m];
        }
      }
    }
  }

  lemma {:induction false} DropDistinct<T, K>(s: seq<T>, key: T -> K, ks: set<K>)
    requires DistinctKeys(s, key)
    ensures DistinctKeys(Drop(s, key, ks), key)
  {
    if s != [] {
      var init := s[..|s| - 1];
      DropDistinct(init, key, ks);
      var r := Drop(s, key, ks);
      var k := Drop(init, key, ks);
      forall i, j | 0 <= i < j < |r| ensures key(r[i]) != key(r[j]) {
        if j >= |k| {
          assert r[i] == k[i] && k[i] in init;
          var m :| 0 <= m < |init| && init[m] == k[i];
          assert r[j] == s[|s| - 1] && s[m] == init[m];
        }
      }
    }
  }

  lemma {:induction false} KeepAll<T, K>(s: seq<T>, key: T -> K, ks: set<K>)
    requires KeysOf(s, key) <= ks
    ensures Keep(s, key, ks) == s
  {
    if s != [] {
      var init, last := s[..|s| - 1], s[|s| - 1];
      assert KeysOf(s, key) == KeysOf(init, key) + {key(last)};
      KeepAll(init, key, ks);
      assert Keep(s, key, ks) == init + [last];
      assert init + [last] == s;
    }
  }

  lemma {:induction false} DropAll<T, K>(s: seq<T>, key: T -> K, ks: set<K>)
    requires KeysOf(s, key) <= ks
    ensures Drop(s, key, ks) == []
  {
    if s != [] {
      DropAll(s[..|s| - 1], key, ks);
    }
  }

  /** A second reconciliation against the same target changes nothing. */
  lemma ReconciledIdempotent<T, K>(current: seq<T>, target: seq<T>, key: T -> K)
    ensures Reconciled(Reconciled(current, target, key), target, key) == Reconciled(current, target, key)
  {
    var r := Reconciled(current, target, key);
    ReconciledKeys(current, target, key);
    KeepAll(r, key, KeysOf(target, key));
    DropAll(target, key, KeysOf(r, key));
  }

  /** Reconciling against a target with the same keys leaves the collection as it is. */
  lemma ReconciledSameKeys<T, K>(current: seq<T>, target: seq<T>, key: T -> K)
    requires KeysOf(current, key) == KeysOf(target, key)
    ensures Reconciled(current, target, key) == current
  {
    KeepAll(current, key, KeysOf(target, key));
    DropAll(target, key, KeysOf(current, key));
  }
}
