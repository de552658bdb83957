/**
 * Python's `sorted(xs, key=k, reverse=True)`: a stable sort into
 * non-increasing key order. Stability is stated without positions: for every
 * key value, the elements carrying that key appear in the output in the same
 * order as in the input. Together with the ordering this pins the result down
 * uniquely (`SortedUnique`), so the insertion sort here and Python's Timsort
 * give the same sequence.
 */
module StableSort {

  ghost predicate NonIncreasing<T>(s: seq<T>, key: T -> int) {
    forall i, j :: 0 <= i < j < |s| ==> key(s[i]) >= key(s[j])
  }

  /** The elements of `s` whose key is `k`, in their order in `s`. */
  function WithKey<T>(s: seq<T>, key: T -> int, k: int): (r: seq<T>)
    ensures |r| <= |s|
  {
    if s == [] then []
    else (if key(s[0]) == k then [s[0]] else []) + WithKey(s[1..], key, k)
  }

  /** `t` is a stable rearrangement of `s`: every key class keeps its order. */
  ghost predicate SameKeyClasses<T>(s: seq<T>, t: seq<T>, key: T -> int) {
    forall k :: WithKey(s, key, k) == WithKey(t, key, k)
  }

  /** Insert `x` in front of the first element whose key is not larger. */
  function Insert<T>(x: T, s: seq<T>, key: T -> int): (r: seq<T>)
    ensures |r| == |s| + 1
    ensures multiset(r) == multiset(s) + multiset{x}
  {
    if s == [] || key(s[0]) <= key(x) then [x] + s
    else
      assert s == [s[0]] + s[1..];
      [s[0]] + Insert(x, s[1..], key)
  }

  /** Stable sort into non-increasing key order. */
  function SortDesc<T>(s: seq<T>, key: T -> int): (r: seq<T>)
    ensures |r| == |s|
    ensures multiset(r) == multiset(s)
    ensures NonIncreasing(r, key)
    ensures SameKeyClasses(s, r, key)
  {
    if s == [] then []
    else
      var t := SortDesc(s[1..], key);
      SortStep(s, t, key);
      Insert(s[0], t, key)
  }

  /** Inserting the head into the sorted tail sorts the whole sequence stably. */
  lemma SortStep<T>(s: seq<T>, t: seq<T>, key: T -> int)
    requires |s| > 0 && multiset(t) == multiset(s[1..])
    requires NonIncreasing(t, key) && SameKeyClasses(s[1..], t, key)
    ensures var r := Insert(s[0], t, key);
      multiset(r) == multiset(s) && NonIncreasing(r, key) && SameKeyClasses(s, r, key)
  {
    InsertSorted(s[0], t, key);
    assert s == [s[0]] + s[1..];
    SortStepClasses(s, t, key);
  }

  lemma SortStepClasses<T>(s: seq<T>, t: seq<T>, key: T -> int)
    requires |s| > 0 && NonIncreasing(t, key) && SameKeyClasses(s[1..], t, key)
    ensures SameKeyClasses(s, Insert(s[0], t, key), key)
  {
    InsertKeyClasses(s[0], t, key);
    forall k ensures WithKey(s, key, k) == (if key(s[0]) == k then [s[0]] else []) + WithKey(s[1..], key, k) {
      WithKeyCons(s[0], s[1..], key, k);
      assert [s[0]] + s[1..] == s;
    }
  }

  lemma {:induction false} InsertSorted<T>(x: T, s: seq<T>, key: T -> int)
    requires NonIncreasing(s, key)
    ensures NonIncreasing(Insert(x, s, key), key)
    ensures |s| > 0 ==> key(Insert(x, s, key)[0]) == (if key(s[0]) <= key(x) then key(x) else key(s[0]))
  {
    if s != [] && key(s[0]) > key(x) {
      InsertSorted(x, s[1..], key);
      var r := Insert(x, s[1..], key);
      assert Insert(x, s, key) == [s[0]] + r;
      if |s| > 1 {
        assert key(s[1]) <= key(s[0]);
      }
      assert key(r[0]) <= key(s[0]);
    }
  }

  lemma {:induction false} InsertKeyClasses<T>(x: T, s: seq<T>, key: T -> int)
    requires NonIncreasing(s, key)
    ensures forall k :: WithKey(Insert(x, s, key), key, k) == (if key(x) == k then [x] else []) + WithKey(s, key, k)
  {
    if s == [] || key(s[0]) <= key(x) {
      forall k ensures WithKey(Insert(x, s, key), key, k) == (if key(x) == k then [x] else []) + WithKey(s, key, k) {
        WithKeyCons(x, s, key, k);
      }
    } else {
      var t := Insert(x, s[1..], key);
      InsertKeyClasses(x, s[1..], key);
      forall k
        ensures WithKey([s[0]] + t, key, k) == (if key(x) == k then [x] else []) + WithKey(s, key, k)
      {
        WithKeyCons(s[0], t, key, k);
        WithKeyCons(s[0], s[1..], key, k);
        assert [s[0]] + s[1..] == s;
      }
    }
  }

  lemma HeadKeyClass<T>(s: seq<T>, key: T -> int)
    requires |s| > 0
    ensures WithKey(s, key, key(s[0])) != []
  {
  }

  lemma WithKeyCons<T>(x: T, s: seq<T>, key: T -> int, k: int)
    ensures WithKey([x] + s, key, k) == (if key(x) == k then [x] else []) + WithKey(s, key, k)
  {
    assert ([x] + s)[1..] == s;
  }

  /** Sortedness plus stability determine the result: any two non-increasing
      arrangements with the same key classes are equal. */
  lemma {:induction false} SortedUnique<T>(a: seq<T>, b: seq<T>, key: T -> int)
    requires NonIncreasing(a, key) && NonIncreasing(b, key)
    requires SameKeyClasses(a, b, key)
    ensures a == b
    decreases |a|
  {
    if a == [] || b == [] {
      // An empty side has every key class empty, so the other side is empty too.
      if a != [] {
        HeadKeyClass(a, key);
        assert false;
      } else if b != [] {
        HeadKeyClass(b, key);
        assert false;
      }
    } else {
      var ka, kb := key(a[0]), key(b[0]);
      assert WithKey(a, key, ka) == [a[0]] + WithKey(a[1..], key, ka);
      assert WithKey(b, key, kb) == [b[0]] + WithKey(b[1..], key, kb);
      if ka > kb {
        NoLargerKey(b, key, ka);
        assert false;
      } else if kb > ka {
        NoLargerKey(a, key, kb);
        assert false;
      }
      assert WithKey(a, key, ka) == WithKey(b, key, ka);
      assert a[0] == WithKey(a, key, ka)[0] == WithKey(b, key, kb)[0] == b[0];
      forall k ensures WithKey(a[1..], key, k) == WithKey(b[1..], key, k) {
        assert WithKey(a, key, k) == WithKey(b, key, k);
        WithKeyCons(a[0], a[1..], key, k);
        WithKeyCons(b[0], b[1..], key, k);
        assert [a[0]] + a[1..] == a && [b[0]] + b[1..] == b;
        var head := if ka == k then [a[0]] else [];
        assert WithKey(a[1..], key, k) == WithKey(a, key, k)[|head|..];
        assert WithKey(b[1..], key, k) == WithKey(b, key, k)[|head|..];
      }
      SortedUnique(a[1..], b[1..], key);
      assert a == [a[0]] + a[1..] && b == [b[0]] + b[1..];
    }
  }

  /** A non-empty non-increasing sequence has no element with a key above its head's. */
  lemma NoLargerKey<T>(s: seq<T>, key: T -> int, k: int)
    requires NonIncreasing(s, key) && |s| > 0 && key(s[0]) < k
    ensures WithKey(s, key, k) == []
  {
    assert forall i :: 0 < i < |s| ==> key(s[i]) <= key(s[0]);
    WithKeyEmpty(s, key, k);
  }

  lemma {:induction false} WithKeyEmpty<T>(s: seq<T>, key: T -> int, k: int)
    requires forall i :: 0 <= i < |s| ==> key(s[i]) != k
    ensures WithKey(s, key, k) == []
  {
    if s != [] {
      WithKeyEmpty(s[1..], key, k);
    }
  }

  /** The sort is the only stable non-increasing arrangement. */
  lemma SortDescUnique<T>(s: seq<T>, r: seq<T>, key: T -> int)
    requires NonIncreasing(r, key) && SameKeyClasses(s, r, key)
    ensures r == SortDesc(s, key)
  {
    var t := SortDesc(s, key);
    assert SameKeyClasses(t, r, key) by {
      forall k ensures WithKey(t, key, k) == WithKey(r, key, k) {
        assert WithKey(s, key, k) == WithKey(t, key, k);
      }
    }
    SortedUnique(t, r, key);
  }

  /** The head of a non-empty sorted sequence carries the largest key, and it is
      the first element of the input with that key. */
  lemma SortDescHead<T>(s: seq<T>, key: T -> int)
    requires |s| > 0
    ensures var r := SortDesc(s, key);
      && (forall i :: 0 <= i < |s| ==> key(s[i]) <= key(r[0]))
      && exists i :: 0 <= i < |s| && s[i] == r[0] && forall j :: 0 <= j < i ==> key(s[j]) < key(r[0])
  {
    var r := SortDesc(s, key);
    var m := key(r[0]);
    forall i | 0 <= i < |s| ensures key(s[i]) <= m {
      assert s[i] in multiset(s);
      KeyBelowHead(r, key, s[i]);
    }
    assert WithKey(r, key, m) == [r[0]] + WithKey(r[1..], key, m);
    assert WithKey(s, key, m) == WithKey(r, key, m);
    FirstWithKey(s, key, m);
  }

  /** Every element of a non-increasing sequence has a key no larger than its head's. */
  lemma KeyBelowHead<T>(r: seq<T>, key: T -> int, v: T)
    requires NonIncreasing(r, key) && v in multiset(r)
    ensures key(v) <= key(r[0])
  {
    var j :| 0 <= j < |r| && r[j] == v;
  }

  /** The head of `WithKey(s, key, k)`, when it exists, is the first element of `s` with key `k`. */
  lemma {:induction false} FirstWithKey<T>(s: seq<T>, key: T -> int, k: int)
    requires |WithKey(s, key, k)| > 0
    ensures exists i :: (0 <= i < |s| && s[i] == WithKey(s, key, k)[0] && key(s[i]) == k
      && forall j :: 0 <= j < i ==> key(s[j]) != k)
  {
    if key(s[0]) != k {
      FirstWithKey(s[1..], key, k);
      var i :| 0 <= i < |s[1..]| && s[1..][i] == WithKey(s[1..], key, k)[0] && key(s[1..][i]) == k
        && forall j :: 0 <= j < i ==> key(s[1..][j]) != k;
      assert s[i + 1] == s[1..][i];
      forall j | 0 <= j < i + 1 ensures key(s[j]) != k {
        if j > 0 {
          assert s[j] == s[1..][j - 1];
        }
      }
    } else {
      assert s[0] == WithKey(s, key, k)[0];
    }
  }
}
