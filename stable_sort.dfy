/**
  Python's `sorted(xs, key=f)` and `list.sort(key=f)`: a stable sort by a key.
  Every key used by the matcher is a tuple of integers (a time, or
  (subject, hadm, icustay, time)), so a key here is a sequence of integers
  compared lexicographically, as Python compares tuples.

  SortBy is an insertion sort. What makes it a model of any stable sort is
  StableSortUnique: a sequence that is sorted by the key and keeps, for every
  key value, the input's elements with that key in input order, is SortBy's
  result and nothing else.
 */
module StableSort {

  /** Lexicographic order on integer tuples; a proper prefix is smaller. */
  predicate LexLe(a: seq<int>, b: seq<int>)
  {
    a == [] || (b != [] && (a[0] < b[0] || (a[0] == b[0] && LexLe(a[1..], b[1..]))))
  }

  lemma {:induction false} LexLeReflexive(a: seq<int>)
    ensures LexLe(a, a)
  {
    if a != [] {
      LexLeReflexive(a[1..]);
    }
  }

  lemma {:induction false} LexLeTotal(a: seq<int>, b: seq<int>)
    ensures LexLe(a, b) || LexLe(b, a)
  {
    if a != [] && b != [] && a[0] == b[0] {
      LexLeTotal(a[1..], b[1..]);
    }
  }

  lemma {:induction false} LexLeTransitive(a: seq<int>, b: seq<int>, c: seq<int>)
    requires LexLe(a, b) && LexLe(b, c)
    ensures LexLe(a, c)
  {
    if a != [] && b != [] && c != [] && a[0] == b[0] == c[0] {
      LexLeTransitive(a[1..], b[1..], c[1..]);
    }
  }

  lemma {:induction false} LexLeAntisymmetric(a: seq<int>, b: seq<int>)
    requires LexLe(a, b) && LexLe(b, a)
    ensures a == b
  {
    if a != [] {
      LexLeAntisymmetric(a[1..], b[1..]);
      assert a == [a[0]] + a[1..];
      assert b == [b[0]] + b[1..];
    }
  }

  /** On one-element tuples the order is the order of integers. */
  lemma LexLeSingleton(x: int, y: int)
    ensures LexLe([x], [y]) <==> x <= y
  {
    assert [x][1..] == [];
  }

  /** Every earlier element's key is at most every later element's key. */
  ghost predicate SortedBy<T>(s: seq<T>, key: T -> seq<int>)
  {
    forall i, j :: 0 <= i < j < |s| ==> LexLe(key(s[i]), key(s[j]))
  }

  /** The elements of `s` whose key is `k`, in their order in `s`. */
  function WithKey<T>(s: seq<T>, key: T -> seq<int>, k: seq<int>): (r: seq<T>)
    ensures |r| <= |s|
    ensures forall x :: x in r ==> x in s && key(x) == k
  {
    if s == [] then []
    else if key(s[0]) == k then [s[0]] + WithKey(s[1..], key, k)
    else WithKey(s[1..], key, k)
  }

  lemma {:induction false} WithKeyFindsAll<T>(s: seq<T>, key: T -> seq<int>, j: nat)
    requires j < |s|
    ensures s[j] in WithKey(s, key, key(s[j]))
  {
    if j > 0 {
      WithKeyFindsAll(s[1..], key, j - 1);
    }
  }

  /** Puts `x` in front of the first element whose key is not smaller than its own. */
  function Insert<T>(x: T, s: seq<T>, key: T -> seq<int>): (r: seq<T>)
    ensures |r| == |s| + 1
    ensures multiset(r) == multiset(s) + multiset{x}
  {
    if s == [] || LexLe(key(x), key(s[0])) then [x] + s
    else
      assert s == [s[0]] + s[1..];
      [s[0]] + Insert(x, s[1..], key)
  }

  /** Stable insertion sort: each element is inserted in front of the equal keys that follow it in the input. */
  function SortBy<T>(s: seq<T>, key: T -> seq<int>): (r: seq<T>)
    ensures |r| == |s|
    ensures multiset(r) == multiset(s)
  {
    if s == [] then []
    else
      assert s == [s[0]] + s[1..];
      Insert(s[0], SortBy(s[1..], key), key)
  }

  lemma {:induction false} InsertSorted<T>(x: T, s: seq<T>, key: T -> seq<int>)
    requires SortedBy(s, key)
    ensures SortedBy(Insert(x, s, key), key)
  {
    var r := Insert(x, s, key);
    if s == [] {
    } else if LexLe(key(x), key(s[0])) {
      forall i, j | 0 <= i < j < |r| ensures LexLe(key(r[i]), key(r[j])) {
        if i == 0 && j > 1 {
          LexLeTransitive(key(x), key(s[0]), key(s[j - 1]));
        }
      }
    } else {
      var tail := Insert(x, s[1..], key);
      InsertSorted(x, s[1..], key);
      LexLeTotal(key(x), key(s[0]));
      forall j | 0 <= j < |tail| ensures LexLe(key(s[0]), key(tail[j])) {
        assert tail[j] in multiset(tail);
        assert tail[j] == x || tail[j] in s[1..];
      }
      assert r == [s[0]] + tail;
    }
  }

  /** SortBy's result is sorted by the key. */
  lemma {:induction false} SortBySorted<T>(s: seq<T>, key: T -> seq<int>)
    ensures SortedBy(SortBy(s, key), key)
  {
    if s != [] {
      SortBySorted(s[1..], key);
      InsertSorted(s[0], SortBy(s[1..], key), key);
    }
  }

  /** Inserting `x` adds it in front of the elements with its key and leaves the other keys' runs alone. */
  lemma {:induction false} InsertWithKey<T>(x: T, s: seq<T>, key: T -> seq<int>, k: seq<int>)
    ensures WithKey(Insert(x, s, key), key, k) == (if key(x) == k then [x] else []) + WithKey(s, key, k)
  {
    if s == [] || LexLe(key(x), key(s[0])) {
      assert ([x] + s)[1..] == s;
    } else {
      LexLeReflexive(key(x));
      assert key(s[0]) != key(x);
      InsertWithKey(x, s[1..], key, k);
      assert ([s[0]] + Insert(x, s[1..], key))[1..] == Insert(x, s[1..], key);
    }
  }

  /** Stability: for every key value, SortBy keeps the elements with that key in input order. */
  lemma {:induction false} SortByStable<T>(s: seq<T>, key: T -> seq<int>, k: seq<int>)
    ensures WithKey(SortBy(s, key), key, k) == WithKey(s, key, k)
  {
    if s != [] {
      SortByStable(s[1..], key, k);
      InsertWithKey(s[0], SortBy(s[1..], key), key, k);
    }
  }

  /** The first element of a sorted sequence has the smallest key. */
  lemma FirstIsLeast<T>(s: seq<T>, key: T -> seq<int>, j: nat)
    requires SortedBy(s, key) && j < |s|
    ensures LexLe(key(s[0]), key(s[j]))
  {
    if j == 0 {
      LexLeReflexive(key(s[0]));
    }
  }

  /** Sequences that agree on every key's subsequence are both empty or both not. */
  lemma AgreeOnEmpty<T>(r1: seq<T>, r2: seq<T>, key: T -> seq<int>)
    requires forall k :: WithKey(r1, key, k) == WithKey(r2, key, k)
    ensures r1 == [] <==> r2 == []
  {
    if r1 != [] {
      WithKeyFindsAll(r1, key, 0);
    }
    if r2 != [] {
      WithKeyFindsAll(r2, key, 0);
    }
  }

  /**
    A stable sort is determined by its input: two sequences that are both sorted
    by the key and agree, key value by key value, on the subsequence carrying
    that key are equal.
   */
  lemma {:induction false} StableSortUnique<T>(r1: seq<T>, r2: seq<T>, key: T -> seq<int>)
    requires SortedBy(r1, key) && SortedBy(r2, key)
    requires forall k :: WithKey(r1, key, k) == WithKey(r2, key, k)
    ensures r1 == r2
  {
    AgreeOnEmpty(r1, r2, key);
    if r1 != [] {
      var a, b := r1[0], r2[0];
      WithKeyFindsAll(r1, key, 0);
      WithKeyFindsAll(r2, key, 0);
      // r2 holds an element with a's key, so b's key is at most a's key, and vice versa.
      assert a in WithKey(r2, key, key(a));
      var j :| 0 <= j < |r2| && r2[j] == a;
      FirstIsLeast(r2, key, j);
      assert b in WithKey(r1, key, key(b));
      var i :| 0 <= i < |r1| && r1[i] == b;
      FirstIsLeast(r1, key, i);
      LexLeAntisymmetric(key(a), key(b));
      assert WithKey(r1, key, key(a))[0] == a;
      assert WithKey(r2, key, key(a))[0] == b;
      TailsAgree(r1, r2, key);
      StableSortUnique(r1[1..], r2[1..], key);
      assert r1 == [a] + r1[1..];
      assert r2 == [b] + r2[1..];
    }
  }

  /** Dropping equal first elements keeps two sequences agreeing key by key. */
  lemma TailsAgree<T>(r1: seq<T>, r2: seq<T>, key: T -> seq<int>)
    requires r1 != [] && r2 != [] && r1[0] == r2[0]
    requires forall k :: WithKey(r1, key, k) == WithKey(r2, key, k)
    ensures forall k :: WithKey(r1[1..], key, k) == WithKey(r2[1..], key, k)
  {
    forall k ensures WithKey(r1[1..], key, k) == WithKey(r2[1..], key, k) {
      assert WithKey(r1, key, k) == WithKey(r2, key, k);
      if key(r1[0]) == k {
        assert WithKey(r1, key, k)[1..] == WithKey(r1[1..], key, k);
        assert WithKey(r2, key, k)[1..] == WithKey(r2[1..], key, k);
      }
    }
  }

  /**
    SortBy is THE stable sort: any sequence that is sorted by the key and keeps
    each key's elements in input order equals SortBy of the input.
   */
  lemma SortByCharacterized<T>(s: seq<T>, r: seq<T>, key: T -> seq<int>)
    requires SortedBy(r, key)
    requires forall k :: WithKey(r, key, k) == WithKey(s, key, k)
    ensures r == SortBy(s, key)
  {
    SortBySorted(s, key);
    forall k ensures WithKey(r, key, k) == WithKey(SortBy(s, key), key, k) {
      SortByStable(s, key, k);
    }
    StableSortUnique(r, SortBy(s, key), key);
  }
}
