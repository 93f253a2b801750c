/** Python's `sorted(s, key = key)` for a real-valued key: a stable sort. */
module Sorting {

  predicate SortedBy<T>(s: seq<T>, key: T -> real)
  {
    forall i, j :: 0 <= i < j < |s| ==> key(s[i]) <= key(s[j])
  }

  /** The elements of `s` whose key is `k`, in their order in `s`. */
  function WithKey<T>(s: seq<T>, key: T -> real, k: real): seq<T>
  {
    if |s| == 0 then []
    else (if key(s[0]) == k then [s[0]] else []) + WithKey(s[1..], key, k)
  }

  /** Puts `x` in front of the first element whose key is not smaller. */
  function Insert<T>(x: T, s: seq<T>, key: T -> real): seq<T>
  {
    if |s| == 0 || key(x) <= key(s[0]) then [x] + s
    else [s[0]] + Insert(x, s[1..], key)
  }

  /** Insertion sort, taking elements from the back so that equal keys keep
      their original order. */
  function SortBy<T>(s: seq<T>, key: T -> real): seq<T>
  {
    if |s| == 0 then [] else Insert(s[0], SortBy(s[1..], key), key)
  }

  lemma {:induction false} InsertCount<T>(x: T, s: seq<T>, key: T -> real)
    ensures |Insert(x, s, key)| == |s| + 1
    ensures multiset(Insert(x, s, key)) == multiset([x]) + multiset(s)
    decreases |s|
  {
    if |s| > 0 && key(x) > key(s[0]) {
      InsertCount(x, s[1..], key);
      assert s == [s[0]] + s[1..];
    }
  }

  /** A lower bound on the keys of `x` and of `s` bounds the keys after insertion. */
  lemma {:induction false} InsertLowerBound<T>(x: T, s: seq<T>, key: T -> real, b: real)
    requires b <= key(x)
    requires forall j :: 0 <= j < |s| ==> b <= key(s[j])
    ensures forall j :: 0 <= j < |Insert(x, s, key)| ==> b <= key(Insert(x, s, key)[j])
    decreases |s|
  {
    if |s| > 0 && key(x) > key(s[0]) {
      InsertLowerBound(x, s[1..], key, b);
      var r := Insert(x, s, key);
      forall j | 0 <= j < |r| ensures b <= key(r[j]) {
        if j > 0 { assert r[j] == Insert(x, s[1..], key)[j - 1]; }
      }
    }
  }

  lemma {:induction false} InsertSorted<T>(x: T, s: seq<T>, key: T -> real)
    requires SortedBy(s, key)
    ensures SortedBy(Insert(x, s, key), key)
    decreases |s|
  {
    var r := Insert(x, s, key);
    if |s| == 0 || key(x) <= key(s[0]) {
      forall i, j | 0 <= i < j < |r| ensures key(r[i]) <= key(r[j]) {
        assert r[j] == s[j - 1];
        if i > 0 { assert r[i] == s[i - 1]; }
      }
    } else {
      var t := Insert(x, s[1..], key);
      assert SortedBy(s[1..], key) by {
        forall i, j | 0 <= i < j < |s[1..]| ensures key(s[1..][i]) <= key(s[1..][j]) {
          assert s[1..][i] == s[i + 1] && s[1..][j] == s[j + 1];
        }
      }
      InsertSorted(x, s[1..], key);
      assert forall j :: 0 <= j < |s[1..]| ==> key(s[0]) <= key(s[1..][j]) by {
        forall j | 0 <= j < |s[1..]| ensures key(s[0]) <= key(s[1..][j]) {
          assert s[1..][j] == s[j + 1];
        }
      }
      InsertLowerBound(x, s[1..], key, key(s[0]));
      forall i, j | 0 <= i < j < |r| ensures key(r[i]) <= key(r[j]) {
        assert r[j] == t[j - 1];
        if i > 0 { assert r[i] == t[i - 1]; }
      }
    }
  }

  /** Inserting `x` adds it in front of the other elements with its key. */
  lemma {:induction false} InsertWithKey<T>(x: T, s: seq<T>, key: T -> real, k: real)
    ensures WithKey(Insert(x, s, key), key, k) == (if key(x) == k then [x] else []) + WithKey(s, key, k)
    decreases |s|
  {
    var r := Insert(x, s, key);
    if |s| == 0 || key(x) <= key(s[0]) {
      assert r[1..] == s;
    } else {
      var t := Insert(x, s[1..], key);
      InsertWithKey(x, s[1..], key, k);
      assert r[1..] == t;
      assert WithKey(r, key, k) == (if key(s[0]) == k then [s[0]] else []) + WithKey(t, key, k);
    }
  }

  /** The key-`k` elements are a subsequence of `s`: each one is in `s`. */
  lemma {:induction false} WithKeyMembers<T>(s: seq<T>, key: T -> real, k: real, i: nat)
    requires i < |WithKey(s, key, k)|
    ensures key(WithKey(s, key, k)[i]) == k
    ensures exists j :: 0 <= j < |s| && s[j] == WithKey(s, key, k)[i]
    decreases |s|
  {
    var w := WithKey(s, key, k);
    if key(s[0]) == k && i == 0 {
      assert w[0] == s[0];
    } else {
      var i' := if key(s[0]) == k then i - 1 else i;
      assert w[i] == WithKey(s[1..], key, k)[i'];
      WithKeyMembers(s[1..], key, k, i');
      var j :| 0 <= j < |s[1..]| && s[1..][j] == WithKey(s[1..], key, k)[i'];
      assert s[j + 1] == s[1..][j];
    }
  }

  /** `sorted` returns a permutation of its input, sorted by key, in which the
      elements with equal keys keep their input order (Python's sort is stable). */
  lemma {:induction false} SortByIsStableSort<T>(s: seq<T>, key: T -> real)
    ensures |SortBy(s, key)| == |s|
    ensures multiset(SortBy(s, key)) == multiset(s)
    ensures SortedBy(SortBy(s, key), key)
    ensures forall k :: WithKey(SortBy(s, key), key, k) == WithKey(s, key, k)
    decreases |s|
  {
    if |s| > 0 {
      SortByIsStableSort(s[1..], key);
      InsertCount(s[0], SortBy(s[1..], key), key);
      InsertSorted(s[0], SortBy(s[1..], key), key);
      assert s == [s[0]] + s[1..];
      forall k ensures WithKey(SortBy(s, key), key, k) == WithKey(s, key, k) {
        InsertWithKey(s[0], SortBy(s[1..], key), key, k);
      }
    }
  }

  /** Being sorted and keeping the order of equal keys determines the result:
      any other stable sort of the same input returns the same sequence. */
  lemma {:induction false} StableSortUnique<T>(r1: seq<T>, r2: seq<T>, key: T -> real)
    requires SortedBy(r1, key) && SortedBy(r2, key)
    requires forall k :: WithKey(r1, key, k) == WithKey(r2, key, k)
    ensures r1 == r2
    decreases |r1|
  {
    if |r1| > 0 {
      var k1 := key(r1[0]);
      assert WithKey(r1, key, k1) != [];
      assert |r2| > 0;
      var k2 := key(r2[0]);
      assert WithKey(r2, key, k2) != [];
      if k1 < k2 {
        WithKeyMembers(r2, key, k1, 0);
      } else if k2 < k1 {
        WithKeyMembers(r1, key, k2, 0);
      }
      assert k1 == k2;
      assert WithKey(r1, key, k1)[0] == r1[0];
      assert WithKey(r2, key, k1)[0] == r2[0];
      assert SortedBy(r1[1..], key) by {
        forall i, j | 0 <= i < j < |r1[1..]| ensures key(r1[1..][i]) <= key(r1[1..][j]) {
          assert r1[1..][i] == r1[i + 1] && r1[1..][j] == r1[j + 1];
        }
      }
      assert SortedBy(r2[1..], key) by {
        forall i, j | 0 <= i < j < |r2[1..]| ensures key(r2[1..][i]) <= key(r2[1..][j]) {
          assert r2[1..][i] == r2[i + 1] && r2[1..][j] == r2[j + 1];
        }
      }
      forall k ensures WithKey(r1[1..], key, k) == WithKey(r2[1..], key, k) {
        assert WithKey(r1, key, k) == WithKey(r2, key, k);
        assert WithKey(r1, key, k) == (if k1 == k then [r1[0]] else []) + WithKey(r1[1..], key, k);
        assert WithKey(r2, key, k) == (if k1 == k then [r2[0]] else []) + WithKey(r2[1..], key, k);
        if k1 == k {
          assert WithKey(r1[1..], key, k) == WithKey(r1, key, k)[1..];
          assert WithKey(r2[1..], key, k) == WithKey(r2, key, k)[1..];
        } else {
          assert WithKey(r1[1..], key, k) == WithKey(r1, key, k);
          assert WithKey(r2[1..], key, k) == WithKey(r2, key, k);
        }
      }
      StableSortUnique(r1[1..], r2[1..], key);
      assert r1 == [r1[0]] + r1[1..];
      assert r2 == [r2[0]] + r2[1..];
    }
  }
}
