/** Stand-ins for the two pieces of the Rust standard library whose order the model relies on:
    the ascending key order in which a `BTreeMap` yields its entries, and the stable
    `sort_by_key` of a `Vec`. */
module Ordering {

  /** Strictly increasing ids: the order of a `BTreeMap`'s keys. */
  predicate IdsAscending<T>(s: seq<T>, id: T -> int)
  {
    forall i, j :: 0 <= i < j < |s| ==> id(s[i]) < id(s[j])
  }

  /** Non-decreasing by `key`: what `sort_by_key` guarantees. */
  predicate SortedBy<T>(s: seq<T>, key: T -> nat)
  {
    forall i, j :: 0 <= i < j < |s| ==> key(s[i]) <= key(s[j])
  }

  /** Strictly increasing by `key`, equal keys ordered by increasing `id`. */
  predicate LexSortedBy<T>(s: seq<T>, key: T -> nat, id: T -> int)
  {
    forall i, j :: 0 <= i < j < |s| ==>
      key(s[i]) < key(s[j]) || (key(s[i]) == key(s[j]) && id(s[i]) < id(s[j]))
  }

  /** An element of a non-empty set (the solver needs this step spelled out). */
  lemma Pick<T>(s: set<T>) returns (x: T)
    requires s != {}
    ensures x in s
  {
    if forall y :: y !in s {
      assert false;
    }
    x :| x in s;
  }

  lemma {:induction false} MinExists(keys: set<int>)
    requires keys != {}
    ensures exists m :: m in keys && forall k :: k in keys ==> m <= k
    decreases |keys|
  {
    var x := Pick(keys);
    var rest := keys - {x};
    if rest == {} {
      assert keys == {x};
    } else {
      MinExists(rest);
      var m :| m in rest && forall k :: k in rest ==> m <= k;
      var least := if x < m then x else m;
      forall k | k in keys ensures least <= k {
        if k != x { assert k in rest; }
      }
    }
  }

  /** The least element of a non-empty set of ids. */
  function MinOf(keys: set<int>): (m: int)
    requires keys != {}
    ensures m in keys && forall k :: k in keys ==> m <= k
  {
    MinExists(keys);
    var m :| m in keys && forall k :: k in keys ==> m <= k;
    m
  }

  /** The keys of a map in the order a `BTreeMap` iterates them: each key once, ascending. */
  function AscendingKeys(keys: set<int>): (r: seq<int>)
    ensures IdsAscending(r, k => k)
    ensures forall k :: k in r <==> k in keys
    ensures |r| == |keys|
    decreases keys
  {
    if keys == {} then []
    else
      var m := MinOf(keys);
      var rest := AscendingKeys(keys - {m});
      assert forall k :: k in rest ==> m < k;
      [m] + rest
  }

  /** Inserts `x` before the first element whose key is not smaller: the step of a stable
      insertion sort, in which `x` precedes the elements of `s` with the same key. */
  function Insert<T>(x: T, s: seq<T>, key: T -> nat): seq<T>
  {
    if s == [] || key(x) <= key(s[0]) then [x] + s
    else [s[0]] + Insert(x, s[1..], key)
  }

  lemma {:induction false} InsertMembers<T>(x: T, s: seq<T>, key: T -> nat)
    ensures |Insert(x, s, key)| == |s| + 1
    ensures forall y :: y in Insert(x, s, key) ==> y == x || y in s
    ensures x in Insert(x, s, key) && forall y :: y in s ==> y in Insert(x, s, key)
  {
    if s != [] && key(x) > key(s[0]) {
      InsertMembers(x, s[1..], key);
      assert s == [s[0]] + s[1..];
    }
  }

  lemma {:induction false} InsertPermutes<T>(x: T, s: seq<T>, key: T -> nat)
    ensures multiset(Insert(x, s, key)) == multiset(s) + multiset{x}
  {
    if s != [] && key(x) > key(s[0]) {
      InsertPermutes(x, s[1..], key);
      assert s == [s[0]] + s[1..];
    }
  }

  lemma {:induction false} InsertSorted<T>(x: T, s: seq<T>, key: T -> nat)
    requires SortedBy(s, key)
    ensures SortedBy(Insert(x, s, key), key)
  {
    if s != [] && key(x) > key(s[0]) {
      var rest := s[1..];
      assert SortedBy(rest, key) by {
        forall i, j | 0 <= i < j < |rest| ensures key(rest[i]) <= key(rest[j]) {
          assert rest[i] == s[i + 1] && rest[j] == s[j + 1];
        }
      }
      InsertSorted(x, rest, key);
      InsertMembers(x, rest, key);
      var r := Insert(x, rest, key);
      forall k | 0 <= k < |r| ensures key(s[0]) <= key(r[k]) {
        assert r[k] in r;
        assert r[k] == x || r[k] in rest;
        if r[k] != x {
          var m :| 0 <= m < |rest| && rest[m] == r[k];
          assert s[m + 1] == r[k];
        }
      }
      var full := [s[0]] + r;
      forall i, j | 0 <= i < j < |full| ensures key(full[i]) <= key(full[j]) {
        if i > 0 {
          assert full[i] == r[i - 1] && full[j] == r[j - 1];
        } else {
          assert full[j] == r[j - 1];
        }
      }
    }
  }

  /** `a` comes strictly before `b` in the order of `LexSortedBy`. */
  predicate LexBefore<T>(a: T, b: T, key: T -> nat, id: T -> int)
  {
    key(a) < key(b) || (key(a) == key(b) && id(a) < id(b))
  }

  lemma LexTail<T>(s: seq<T>, key: T -> nat, id: T -> int)
    requires s != [] && LexSortedBy(s, key, id)
    ensures LexSortedBy(s[1..], key, id)
    ensures forall k :: 1 <= k < |s| ==> LexBefore(s[0], s[k], key, id)
  {
    var rest := s[1..];
    forall i, j | 0 <= i < j < |rest| ensures LexBefore(rest[i], rest[j], key, id) {
      assert rest[i] == s[i + 1] && rest[j] == s[j + 1];
    }
  }

  lemma LexCons<T>(h: T, r: seq<T>, key: T -> nat, id: T -> int)
    requires LexSortedBy(r, key, id)
    requires forall k :: 0 <= k < |r| ==> LexBefore(h, r[k], key, id)
    ensures LexSortedBy([h] + r, key, id)
  {
    var full := [h] + r;
    forall i, j | 0 <= i < j < |full| ensures LexBefore(full[i], full[j], key, id) {
      if i > 0 {
        assert full[i] == r[i - 1] && full[j] == r[j - 1];
      } else {
        assert full[j] == r[j - 1];
      }
    }
  }

  lemma {:induction false} InsertLex<T>(x: T, s: seq<T>, key: T -> nat, id: T -> int)
    requires LexSortedBy(s, key, id)
    requires forall y :: y in s ==> id(x) < id(y)
    ensures LexSortedBy(Insert(x, s, key), key, id)
  {
    if s != [] && key(x) > key(s[0]) {
      var rest := s[1..];
      LexTail(s, key, id);
      assert forall y :: y in rest ==> y in s;
      InsertLex(x, rest, key, id);
      InsertMembers(x, rest, key);
      var r := Insert(x, rest, key);
      forall k | 0 <= k < |r| ensures LexBefore(s[0], r[k], key, id) {
        assert r[k] in r;
        assert r[k] == x || r[k] in rest;
        if r[k] != x {
          var m :| 0 <= m < |rest| && rest[m] == r[k];
          assert s[m + 1] == r[k];
        }
      }
      LexCons(s[0], r, key, id);
    }
  }

  /** The stable sort `sort_by_key`: a permutation of `s`, non-decreasing by `key`. */
  function SortByKey<T>(s: seq<T>, key: T -> nat): (r: seq<T>)
    ensures |r| == |s| && multiset(r) == multiset(s)
    ensures SortedBy(r, key)
  {
    if s == [] then []
    else
      var tail := SortByKey(s[1..], key);
      InsertMembers(s[0], tail, key);
      InsertPermutes(s[0], tail, key);
      InsertSorted(s[0], tail, key);
      assert s == [s[0]] + s[1..];
      Insert(s[0], tail, key)
  }

  /** Stability, in the form the model uses it: sorting a sequence whose ids ascend (a
      `BTreeMap`'s order) by `key` orders equal keys by ascending id. */
  lemma {:induction false} SortByKeyIsLex<T>(s: seq<T>, key: T -> nat, id: T -> int)
    requires IdsAscending(s, id)
    ensures LexSortedBy(SortByKey(s, key), key, id)
  {
    if s != [] {
      var tail := SortByKey(s[1..], key);
      SortByKeyIsLex(s[1..], key, id);
      forall y | y in tail ensures id(s[0]) < id(y) {
        assert y in multiset(tail);
        assert y in multiset(s[1..]);
        var m :| 0 <= m < |s[1..]| && s[1..][m] == y;
        assert s[m + 1] == y;
      }
      InsertLex(s[0], tail, key, id);
    }
  }

  /** The elements of `s` in the opposite order. */
  function Reverse<T>(s: seq<T>): (r: seq<T>)
    ensures |r| == |s|
    ensures forall i :: 0 <= i < |s| ==> r[i] == s[|s| - 1 - i]
  {
    if s == [] then [] else Reverse(s[1..]) + [s[0]]
  }

  lemma {:induction false} ReversePermutes<T>(s: seq<T>)
    ensures multiset(Reverse(s)) == multiset(s)
  {
    if s != [] {
      ReversePermutes(s[1..]);
      assert s == [s[0]] + s[1..];
    }
  }
}
