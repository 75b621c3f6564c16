/** Python's `list.sort(key=f)` on an integer key, as a value: the result is ordered by key
    and elements with equal keys keep their original order (the sort is stable). A sorted
    sequence with the same per-key subsequences as the input is unique, so every stable
    sort, Python's included, returns `SortBy`. */
module StableSort {

  predicate SortedBy<T>(s: seq<T>, key: T -> int) {
    forall i, j :: 0 <= i < j < |s| ==> key(s[i]) <= key(s[j])
  }

  /** The elements whose key is k, in their order in s. */
  function WithKey<T>(s: seq<T>, key: T -> int, k: int): (r: seq<T>)
    ensures |r| <= |s|
    ensures forall i :: 0 <= i < |r| ==> key(r[i]) == k
    decreases |s|
  {
    if s == [] then []
    else (if key(s[0]) == k then [s[0]] else []) + WithKey(s[1..], key, k)
  }

  /** Puts x in front of the first element whose key is at least its own. */
  function Insert<T>(x: T, s: seq<T>, key: T -> int): (r: seq<T>)
    ensures |r| == |s| + 1
    decreases |s|
  {
    if s == [] then [x]
    else if key(x) <= key(s[0]) then [x] + s
    else [s[0]] + Insert(x, s[1..], key)
  }

  /** Insertion sort from the back: the first element goes in front of every later one
      with the same key. */
  function SortBy<T>(s: seq<T>, key: T -> int): (r: seq<T>)
    ensures |r| == |s|
    decreases |s|
  {
    if s == [] then [] else Insert(s[0], SortBy(s[1..], key), key)
  }

  lemma {:induction false} InsertSorted<T>(x: T, s: seq<T>, key: T -> int)
    requires SortedBy(s, key)
    ensures SortedBy(Insert(x, s, key), key)
    ensures forall i :: 0 <= i < |Insert(x, s, key)| ==>
      Insert(x, s, key)[i] == x || Insert(x, s, key)[i] in s
    decreases |s|
  {
    if s != [] && key(x) > key(s[0]) {
      InsertSorted(x, s[1..], key);
      var t := Insert(x, s[1..], key);
      forall i | 0 <= i < |t| ensures key(s[0]) <= key(t[i]) {
        if t[i] != x {
          var j :| 0 <= j < |s[1..]| && s[1..][j] == t[i];
          assert s[1 + j] == t[i];
        }
      }
    }
  }

  lemma {:induction false} InsertWithKey<T>(x: T, s: seq<T>, key: T -> int, k: int)
    ensures WithKey(Insert(x, s, key), key, k) ==
      (if key(x) == k then [x] else []) + WithKey(s, key, k)
    decreases |s|
  {
    if s == [] {
    } else if key(x) <= key(s[0]) {
      assert ([x] + s)[1..] == s;
    } else {
      InsertWithKey(x, s[1..], key, k);
      assert ([s[0]] + Insert(x, s[1..], key))[1..] == Insert(x, s[1..], key);
    }
  }

  lemma {:induction false} InsertMultiset<T>(x: T, s: seq<T>, key: T -> int)
    ensures multiset(Insert(x, s, key)) == multiset(s) + multiset{x}
    decreases |s|
  {
    if s == [] {
    } else if key(x) <= key(s[0]) {
    } else {
      InsertMultiset(x, s[1..], key);
      assert s == [s[0]] + s[1..];
    }
  }

  /** The result is ordered by key. */
  lemma {:induction false} SortBySorted<T>(s: seq<T>, key: T -> int)
    ensures SortedBy(SortBy(s, key), key)
    decreases |s|
  {
    if s != [] {
      SortBySorted(s[1..], key);
      InsertSorted(s[0], SortBy(s[1..], key), key);
    }
  }

  /** The result is a permutation of the input. */
  lemma {:induction false} SortByPermutes<T>(s: seq<T>, key: T -> int)
    ensures multiset(SortBy(s, key)) == multiset(s)
    decreases |s|
  {
    if s != [] {
      SortByPermutes(s[1..], key);
      InsertMultiset(s[0], SortBy(s[1..], key), key);
      assert s == [s[0]] + s[1..];
    }
  }

  /** Stability: for every key, the elements with that key appear in their input order. */
  lemma {:induction false} SortByStable<T>(s: seq<T>, key: T -> int, k: int)
    ensures WithKey(SortBy(s, key), key, k) == WithKey(s, key, k)
    decreases |s|
  {
    if s != [] {
      SortByStable(s[1..], key, k);
      InsertWithKey(s[0], SortBy(s[1..], key), key, k);
    }
  }

  lemma {:induction false} WithKeyHead<T>(s: seq<T>, key: T -> int)
    requires s != []
    ensures WithKey(s, key, key(s[0])) == [s[0]] + WithKey(s[1..], key, key(s[0]))
    ensures forall k :: k != key(s[0]) ==> WithKey(s, key, k) == WithKey(s[1..], key, k)
  {
  }

  lemma {:induction false} WithKeyEmpty<T>(s: seq<T>, key: T -> int, k: int)
    requires SortedBy(s, key) && s != [] && k < key(s[0])
    ensures WithKey(s, key, k) == []
    decreases |s|
  {
    if |s| > 1 {
      WithKeyEmpty(s[1..], key, k);
    }
  }

  /** Two key-sorted sequences with the same per-key subsequences are equal. */
  lemma {:induction false} SortedWithSameKeysEqual<T>(r1: seq<T>, r2: seq<T>, key: T -> int)
    requires SortedBy(r1, key) && SortedBy(r2, key)
    requires |r1| == |r2|
    requires forall k :: WithKey(r1, key, k) == WithKey(r2, key, k)
    ensures r1 == r2
    decreases |r1|
  {
    if r1 != [] {
      var k1, k2 := key(r1[0]), key(r2[0]);
      WithKeyHead(r1, key);
      WithKeyHead(r2, key);
      if k1 < k2 {
        WithKeyEmpty(r2, key, k1);
        assert false;
      }
      if k2 < k1 {
        WithKeyEmpty(r1, key, k2);
        assert false;
      }
      assert WithKey(r1, key, k1) == WithKey(r2, key, k1);
      assert r1[0] == WithKey(r1, key, k1)[0] == WithKey(r2, key, k1)[0] == r2[0];
      forall k ensures WithKey(r1[1..], key, k) == WithKey(r2[1..], key, k) {
        assert WithKey(r1, key, k) == WithKey(r2, key, k);
        if k == k1 {
          assert WithKey(r1[1..], key, k) == WithKey(r1, key, k)[1..];
          assert WithKey(r2[1..], key, k) == WithKey(r2, key, k)[1..];
        }
      }
      SortedWithSameKeysEqual(r1[1..], r2[1..], key);
      assert r1 == [r1[0]] + r1[1..] && r2 == [r2[0]] + r2[1..];
    }
  }

  /** Any stable sort of s by key returns `SortBy(s, key)`. */
  lemma StableSortIsSortBy<T>(s: seq<T>, r: seq<T>, key: T -> int)
    requires |r| == |s| && SortedBy(r, key)
    requires forall k :: WithKey(r, key, k) == WithKey(s, key, k)
    ensures r == SortBy(s, key)
  {
    SortBySorted(s, key);
    forall k ensures WithKey(r, key, k) == WithKey(SortBy(s, key), key, k) {
      SortByStable(s, key, k);
    }
    SortedWithSameKeysEqual(r, SortBy(s, key), key);
  }

  /** Keys that differ by the same constant on every element compare alike, so they
      insert alike. */
  lemma {:induction false} InsertKeyShift<T>(x: T, s: seq<T>, key1: T -> int, key2: T -> int, c: int)
    requires key1(x) == key2(x) + c
    requires forall y :: y in s ==> key1(y) == key2(y) + c
    ensures Insert(x, s, key1) == Insert(x, s, key2)
    decreases |s|
  {
    if s != [] {
      assert s[0] in s;
      assert forall y :: y in s[1..] ==> y in s;
      InsertKeyShift(x, s[1..], key1, key2, c);
    }
  }

  /** Sorting by a key shifted by a constant gives the same order. */
  lemma {:induction false} SortByKeyShift<T>(s: seq<T>, key1: T -> int, key2: T -> int, c: int)
    requires forall y :: y in s ==> key1(y) == key2(y) + c
    ensures SortBy(s, key1) == SortBy(s, key2)
    decreases |s|
  {
    if s != [] {
      assert s[0] in s;
      assert forall y :: y in s[1..] ==> y in s;
      SortByKeyShift(s[1..], key1, key2, c);
      var t := SortBy(s[1..], key2);
      SortByPermutes(s[1..], key2);
      assert forall y :: y in t ==> y in multiset(s[1..]);
      InsertKeyShift(s[0], t, key1, key2, c);
    }
  }
}
