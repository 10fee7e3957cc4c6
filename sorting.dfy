/**
 * `Array.prototype.sort` with a numeric comparator `(a, b) => key(a) - key(b)`, as the
 * client pages use it: a stable sort, written here as an insertion sort on values.
 */
module Sorting {
  import opened Common

  predicate SortedBy<T(!new)>(s: seq<T>, key: T -> int) {
    forall i, j :: 0 <= i < j < |s| ==> key(s[i]) <= key(s[j])
  }

  /** The elements of `s` whose key is `v`, in their order in `s`. */
  function WithKey<T(!new)>(s: seq<T>, key: T -> int, v: int): seq<T> {
    if s == [] then []
    else
      var n := |s| - 1;
      WithKey(s[..n], key, v) + if key(s[n]) == v then [s[n]] else []
  }

  /** The list of key `v` holds exactly the elements of `s` with that key. */
  lemma {:induction false} WithKeyHas<T(!new)>(s: seq<T>, key: T -> int, v: int, x: T)
    ensures x in WithKey(s, key, v) <==> x in s && key(x) == v
  {
    if s != [] {
      var n := |s| - 1;
      WithKeyHas(s[..n], key, v, x);
      assert s == s[..n] + [s[n]];
    }
  }

  /** The number of leading elements of `s` whose key does not exceed `x`'s. */
  function Position<T(!new)>(x: T, s: seq<T>, key: T -> int): (j: nat)
    ensures j <= |s|
    ensures forall i :: 0 <= i < j ==> key(s[i]) <= key(x)
    ensures j < |s| ==> key(x) < key(s[j])
  {
    if s == [] || key(x) < key(s[0]) then 0 else 1 + Position(x, s[1..], key)
  }

  /** `x` placed after every element whose key does not exceed its own. */
  function InsertBy<T(!new)>(x: T, s: seq<T>, key: T -> int): seq<T> {
    var j := Position(x, s, key);
    s[..j] + [x] + s[j..]
  }

  function SortBy<T(!new)>(s: seq<T>, key: T -> int): seq<T> {
    if s == [] then [] else InsertBy(s[|s| - 1], SortBy(s[..|s| - 1], key), key)
  }

  lemma WithKeyConcat<T(!new)>(a: seq<T>, b: seq<T>, key: T -> int, v: int)
    ensures WithKey(a + b, key, v) == WithKey(a, key, v) + WithKey(b, key, v)
    decreases |b|
  {
    if b == [] {
      assert a + b == a;
    } else {
      var n := |b| - 1;
      assert (a + b)[..|a + b| - 1] == a + b[..n];
      WithKeyConcat(a, b[..n], key, v);
    }
  }

  /** Every element after the insertion point has a larger key than `x`. */
  lemma InsertionPoint<T(!new)>(x: T, s: seq<T>, key: T -> int)
    requires SortedBy(s, key)
    ensures forall i :: Position(x, s, key) <= i < |s| ==> key(x) < key(s[i])
  {
    var j := Position(x, s, key);
    forall i | j <= i < |s|
      ensures key(x) < key(s[i])
    {
      assert key(x) < key(s[j]) <= key(s[i]);
    }
  }

  /** The elements of the sequence after inserting `x`: the front, then `x`, then the back shifted by one. */
  lemma InsertByAt<T(!new)>(x: T, s: seq<T>, key: T -> int)
    ensures |InsertBy(x, s, key)| == |s| + 1
    ensures forall i :: 0 <= i < |s| + 1 ==>
      InsertBy(x, s, key)[i] == (if i < Position(x, s, key) then s[i] else if i == Position(x, s, key) then x else s[i - 1])
  {
    var j := Position(x, s, key);
    var front, back := s[..j], s[j..];
    assert InsertBy(x, s, key) == front + [x] + back;
    forall i | 0 <= i < |s| + 1
      ensures InsertBy(x, s, key)[i] == if i < j then s[i] else if i == j then x else s[i - 1]
    {
      if i > j {
        assert (front + [x] + back)[i] == back[i - j - 1] == s[i - 1];
      }
    }
  }

  /** Inserting adds `x` to the elements. */
  lemma InsertByElements<T(!new)>(x: T, s: seq<T>, key: T -> int)
    ensures multiset(InsertBy(x, s, key)) == multiset(s) + multiset{x}
  {
    var j := Position(x, s, key);
    assert s == s[..j] + s[j..];
    assert multiset(s) == multiset(s[..j]) + multiset(s[j..]);
  }

  /** Inserting into a sorted sequence keeps it sorted and adds `x` to its elements. */
  lemma InsertBySorted<T(!new)>(x: T, s: seq<T>, key: T -> int)
    requires SortedBy(s, key)
    ensures SortedBy(InsertBy(x, s, key), key)
    ensures multiset(InsertBy(x, s, key)) == multiset(s) + multiset{x}
  {
    var j := Position(x, s, key);
    InsertionPoint(x, s, key);
    InsertByAt(x, s, key);
    InsertByElements(x, s, key);
    var r := InsertBy(x, s, key);
    forall a, b | 0 <= a < b < |r|
      ensures key(r[a]) <= key(r[b])
    {
      if b < j {
        assert r[a] == s[a] && r[b] == s[b];
      } else if b == j {
        assert r[a] == s[a] && r[b] == x;
      } else if a < j {
        assert r[a] == s[a] && r[b] == s[b - 1];
      } else if a == j {
        assert r[a] == x && r[b] == s[b - 1];
      } else {
        assert r[a] == s[a - 1] && r[b] == s[b - 1];
      }
    }
  }

  /** `x` lands after the elements of its own key, and no other key's list changes. */
  lemma {:induction false} InsertByStable<T(!new)>(x: T, s: seq<T>, key: T -> int, v: int)
    requires forall i :: Position(x, s, key) <= i < |s| ==> key(x) < key(s[i])
    ensures key(x) == v ==> WithKey(InsertBy(x, s, key), key, v) == WithKey(s, key, v) + [x]
    ensures key(x) != v ==> WithKey(InsertBy(x, s, key), key, v) == WithKey(s, key, v)
  {
    var j := Position(x, s, key);
    var front, back := s[..j], s[j..];
    assert s == front + back;
    assert InsertBy(x, s, key) == (front + [x]) + back;
    WithKeyConcat(front + [x], back, key, v);
    WithKeyConcat(front, [x], key, v);
    WithKeyConcat(front, back, key, v);
    WithKeySingle(x, key, v);
    if key(x) == v {
      WithKeyNone(back, key, v);
    }
  }

  lemma WithKeySingle<T(!new)>(x: T, key: T -> int, v: int)
    ensures WithKey([x], key, v) == if key(x) == v then [x] else []
  {
    assert [x][..0] == [];
  }

  /**
   * The sort: the result is sorted by key, a permutation of the input, and stable — the elements
   * of each key keep the order they had.
   */
  lemma {:induction false} SortByProps<T(!new)>(s: seq<T>, key: T -> int)
    ensures SortedBy(SortBy(s, key), key)
    ensures multiset(SortBy(s, key)) == multiset(s)
    ensures forall v :: WithKey(SortBy(s, key), key, v) == WithKey(s, key, v)
  {
    if s != [] {
      var n := |s| - 1;
      var x, sorted := s[n], SortBy(s[..n], key);
      SortByProps(s[..n], key);
      InsertBySorted(x, sorted, key);
      assert s == s[..n] + [x];
      forall v
        ensures WithKey(SortBy(s, key), key, v) == WithKey(s, key, v)
      {
        SortByStep(s, key, v);
      }
    }
  }

  /** One insertion step of the sort keeps each key's list equal to the input's. */
  lemma SortByStep<T(!new)>(s: seq<T>, key: T -> int, v: int)
    requires s != []
    requires WithKey(SortBy(s[..|s| - 1], key), key, v) == WithKey(s[..|s| - 1], key, v)
    requires SortedBy(SortBy(s[..|s| - 1], key), key)
    ensures WithKey(SortBy(s, key), key, v) == WithKey(s, key, v)
  {
    var n := |s| - 1;
    InsertionPoint(s[n], SortBy(s[..n], key), key);
    InsertByStable(s[n], SortBy(s[..n], key), key, v);
  }

  /** A sorted sequence in which no key repeats is strictly increasing by key. */
  lemma {:induction false} SortedUniqueKeys<T(!new)>(s: seq<T>, key: T -> int)
    requires SortedBy(s, key)
    requires forall v :: |WithKey(s, key, v)| <= 1
    ensures forall i, j :: 0 <= i < j < |s| ==> key(s[i]) < key(s[j])
  {
    forall i, j | 0 <= i < j < |s|
      ensures key(s[i]) < key(s[j])
    {
      if key(s[i]) == key(s[j]) {
        TwoWithKey(s, key, i, j);
      }
    }
  }

  /** Two positions with the same key put two elements into that key's list. */
  lemma {:induction false} TwoWithKey<T(!new)>(s: seq<T>, key: T -> int, i: nat, j: nat)
    requires i < j < |s| && key(s[i]) == key(s[j])
    ensures |WithKey(s, key, key(s[j]))| >= 2
  {
    var n := |s| - 1;
    if j < n {
      TwoWithKey(s[..n], key, i, j);
    } else {
      assert s[..n][i] == s[i];
      WithKeyHas(s[..n], key, key(s[j]), s[i]);
    }
  }

  /** When the keys of `s` are pairwise different, each key selects at most one element. */
  lemma {:induction false} DistinctKeysUnique<T(!new)>(s: seq<T>, key: T -> int, v: int)
    requires forall i, j :: 0 <= i < j < |s| ==> key(s[i]) != key(s[j])
    ensures |WithKey(s, key, v)| <= 1
  {
    if s != [] {
      var n := |s| - 1;
      DistinctKeysUnique(s[..n], key, v);
      if key(s[n]) == v {
        WithKeyNone(s[..n], key, v);
      }
    }
  }

  /** No element has key `v`: its list is empty. */
  lemma {:induction false} WithKeyNone<T(!new)>(s: seq<T>, key: T -> int, v: int)
    requires forall i :: 0 <= i < |s| ==> key(s[i]) != v
    ensures WithKey(s, key, v) == []
  {
    if s != [] {
      WithKeyNone(s[..|s| - 1], key, v);
    }
  }
}
