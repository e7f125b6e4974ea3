/** Python's `list.sort(key=...)`: a stable sort. `reverse=True` is still stable (records
    with equal keys keep their original order), so a descending sort is this sort on the
    negated key, not the reverse of the ascending one. */
module StableSort {

  predicate SortedBy<T>(s: seq<T>, key: T -> int)
  {
    forall i, j :: 0 <= i < j < |s| ==> key(s[i]) <= key(s[j])
  }

  /** The elements of `s` whose key is `k`, in their order in `s`. */
  function WithKey<T>(s: seq<T>, key: T -> int, k: int): seq<T>
  {
    if s == [] then []
    else (if key(s[0]) == k then [s[0]] else []) + WithKey(s[1..], key, k)
  }

  /** Puts `x` in front of the first element whose key is not smaller than its own. */
  function Insert<T>(x: T, s: seq<T>, key: T -> int): seq<T>
  {
    if s == [] then [x]
    else if key(x) <= key(s[0]) then [x] + s
    else [s[0]] + Insert(x, s[1..], key)
  }

  /** Insertion sort: the first element is inserted into the sorted rest, in front of
      every element with an equal key, which is what keeps the sort stable. */
  function Sort<T>(s: seq<T>, key: T -> int): seq<T>
  {
    if s == [] then [] else Insert(s[0], Sort(s[1..], key), key)
  }

  lemma {:induction false} InsertPermutes<T>(x: T, s: seq<T>, key: T -> int)
    ensures multiset(Insert(x, s, key)) == multiset(s) + multiset{x}
  {
    if s != [] && key(x) > key(s[0]) {
      InsertPermutes(x, s[1..], key);
      assert s == [s[0]] + s[1..];
    }
  }

  lemma {:induction false} InsertSorted<T>(x: T, s: seq<T>, key: T -> int)
    requires SortedBy(s, key)
    ensures SortedBy(Insert(x, s, key), key)
  {
    if s != [] && key(x) > key(s[0]) {
      var rest := s[1..];
      InsertSorted(x, rest, key);
      InsertPermutes(x, rest, key);
      var r := Insert(x, rest, key);
      forall j | 0 <= j < |r|
        ensures key(s[0]) <= key(r[j])
      {
        assert r[j] in multiset(r);
        assert r[j] in multiset(rest) || r[j] == x;
      }
    }
  }

  lemma {:induction false} WithKeyConcat<T>(a: seq<T>, b: seq<T>, key: T -> int, k: int)
    ensures WithKey(a + b, key, k) == WithKey(a, key, k) + WithKey(b, key, k)
  {
    if a == [] {
      assert a + b == b;
    } else {
      WithKeyConcat(a[1..], b, key, k);
      assert a == [a[0]] + a[1..];
      assert a + b == [a[0]] + (a[1..] + b);
      WithKeyCons(a[0], a[1..] + b, key, k);
      WithKeyCons(a[0], a[1..], key, k);
    }
  }

  lemma WithKeyCons<T>(y: T, t: seq<T>, key: T -> int, k: int)
    ensures WithKey([y] + t, key, k) == (if key(y) == k then [y] else []) + WithKey(t, key, k)
  {
    assert ([y] + t)[0] == y && ([y] + t)[1..] == t;
  }

  /** Inserting `x` adds it in front of the elements that share its key and moves no
      other element past one with the same key. */
  lemma {:induction false} InsertStable<T>(x: T, s: seq<T>, key: T -> int, k: int)
    ensures WithKey(Insert(x, s, key), key, k)
         == (if key(x) == k then [x] else []) + WithKey(s, key, k)
  {
    if s == [] {
      assert Insert(x, s, key) == [x] + [];
      WithKeyCons(x, [], key, k);
    } else if key(x) <= key(s[0]) {
      assert Insert(x, s, key) == [x] + s;
      WithKeyCons(x, s, key, k);
    } else {
      var t := Insert(x, s[1..], key);
      assert Insert(x, s, key) == [s[0]] + t;
      InsertStable(x, s[1..], key, k);
      WithKeyCons(s[0], t, key, k);
      WithKeyCons(s[0], s[1..], key, k);
      assert [s[0]] + s[1..] == s;
      if key(x) == k {
        assert key(s[0]) != k;
      }
    }
  }

  /** `Sort` returns a permutation of its input, ordered by key, in which the elements
      of every key appear in their original order: the stable sort Python promises. */
  lemma {:induction false} SortCorrect<T>(s: seq<T>, key: T -> int)
    ensures SortedBy(Sort(s, key), key)
    ensures multiset(Sort(s, key)) == multiset(s)
    ensures forall k :: WithKey(Sort(s, key), key, k) == WithKey(s, key, k)
  {
    if s != [] {
      var rest := Sort(s[1..], key);
      SortCorrect(s[1..], key);
      InsertSorted(s[0], rest, key);
      InsertPermutes(s[0], rest, key);
      assert s == [s[0]] + s[1..];
      forall k
        ensures WithKey(Sort(s, key), key, k) == WithKey(s, key, k)
      {
        InsertStable(s[0], rest, key, k);
      }
    }
  }

  /** Membership is what a caller of a permutation usually needs. */
  lemma SortMembers<T>(s: seq<T>, key: T -> int)
    ensures |Sort(s, key)| == |s|
    ensures forall x :: x in Sort(s, key) <==> x in s
  {
    SortCorrect(s, key);
    assert |multiset(Sort(s, key))| == |multiset(s)|;
    forall x
      ensures x in Sort(s, key) <==> x in s
    {
      assert x in Sort(s, key) <==> x in multiset(Sort(s, key));
      assert x in s <==> x in multiset(s);
    }
  }

  /** Two elements with different keys come out in key order, whichever came first. */
  lemma SortTwo<T>(x: T, y: T, key: T -> int)
    requires key(x) < key(y)
    ensures Sort([x, y], key) == [x, y] && Sort([y, x], key) == [x, y]
  {
    assert [x, y][1..] == [y] && [y, x][1..] == [x];
    assert [y][1..] == [] && [x][1..] == [];
    assert Sort([y], key) == Insert(y, [], key) == [y];
    assert Sort([x], key) == Insert(x, [], key) == [x];
    assert Insert(y, [x], key) == [x] + Insert(y, [], key);
  }
}
