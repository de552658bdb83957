/**
 * The integer statistics the report computes over lists of durations:
 * sum, maximum, minimum, ascending sort, median and the percentile indices.
 */
module Stats {
  import StableSort

  function Sum(s: seq<nat>): nat {
    if s == [] then 0 else s[0] + Sum(s[1..])
  }

  /** Python's `max(s)`: an element no smaller than any other. */
  function Max(s: seq<nat>): (m: nat)
    requires |s| > 0
    ensures m in s
    ensures forall i :: 0 <= i < |s| ==> s[i] <= m
  {
    if |s| == 1 then s[0]
    else
      var m := Max(s[1..]);
      assert forall i :: 1 <= i < |s| ==> s[i] == s[1..][i - 1];
      if s[0] >= m then s[0] else m
  }

  /** Python's `min(s)`: an element no larger than any other. */
  function Min(s: seq<nat>): (m: nat)
    requires |s| > 0
    ensures m in s
    ensures forall i :: 0 <= i < |s| ==> m <= s[i]
  {
    if |s| == 1 then s[0]
    else
      var m := Min(s[1..]);
      assert forall i :: 1 <= i < |s| ==> s[i] == s[1..][i - 1];
      if s[0] <= m then s[0] else m
  }

  /** How many elements of `s` satisfy `p` (Python's `sum(1 for d in s if p(d))`). */
  function Count(s: seq<nat>, p: nat -> bool): (n: nat)
    ensures n <= |s|
  {
    if s == [] then 0 else (if p(s[0]) then 1 else 0) + Count(s[1..], p)
  }

  ghost predicate Ascending(s: seq<nat>) {
    forall i, j :: 0 <= i < j < |s| ==> s[i] <= s[j]
  }

  function Negated(x: nat): int {
    -(x as int)
  }

  /** Python's `sorted(s)` on durations: ascending, a permutation of `s`. */
  function SortAsc(s: seq<nat>): (r: seq<nat>)
    ensures |r| == |s| && multiset(r) == multiset(s)
    ensures Ascending(r)
  {
    var r := StableSort.SortDesc(s, Negated);
    assert forall i, j :: 0 <= i < j < |r| ==> Negated(r[i]) >= Negated(r[j]);
    r
  }

  /** Reordering does not change a sum, so summing the sorted list (as the
      report does) gives the total of the durations in log order. */
  lemma {:induction false} SumPermutation(s: seq<nat>, t: seq<nat>)
    requires multiset(s) == multiset(t)
    ensures Sum(s) == Sum(t)
    decreases |s|
  {
    if s != [] {
      var i := MatchFirst(s, t);
      SumPermutation(s[1..], t[..i] + t[i + 1..]);
      SumRemove(t, i);
    } else {
      assert |t| == |multiset(t)| == 0;
    }
  }

  /** In a permutation of `s`, some position holds `s[0]`, and the rest of `s`
      is a permutation of what remains without it. */
  lemma MatchFirst(s: seq<nat>, t: seq<nat>) returns (i: nat)
    requires s != [] && multiset(s) == multiset(t)
    ensures i < |t| && t[i] == s[0]
    ensures multiset(s[1..]) == multiset(t[..i] + t[i + 1..])
  {
    assert s[0] in multiset(t);
    i :| 0 <= i < |t| && t[i] == s[0];
    var a, b := t[..i], t[i + 1..];
    assert t == a + [t[i]] + b;
    assert multiset(t) == multiset(a) + multiset{s[0]} + multiset(b);
    assert s == [s[0]] + s[1..];
    assert multiset(s) == multiset{s[0]} + multiset(s[1..]);
    assert multiset(s[1..]) == multiset(t) - multiset{s[0]} == multiset(a) + multiset(b);
    assert multiset(a + b) == multiset(a) + multiset(b);
  }

  /** Removing element `i` takes exactly its value off the sum. */
  lemma {:induction false} SumRemove(t: seq<nat>, i: nat)
    requires i < |t|
    ensures Sum(t) == t[i] + Sum(t[..i] + t[i + 1..])
  {
    if i == 0 {
      assert t[..0] + t[1..] == t[1..];
    } else {
      SumRemove(t[1..], i - 1);
      assert t[1..][..i - 1] + t[1..][i..] == (t[..i] + t[i + 1..])[1..];
    }
  }

  function MedianIndex(n: nat): nat {
    n / 2
  }

  /** `int(n * 0.95)`, read in exact arithmetic. */
  function P95Index(n: nat): nat {
    n * 95 / 100
  }

  function MinInt(a: int, b: int): int {
    if a <= b then a else b
  }

  /** `min(int(n * 0.99), n - 1)`, read in exact arithmetic. */
  function P99Index(n: nat): int {
    MinInt(n * 99 / 100, n - 1)
  }

  /** For a non-empty list the three indices are in bounds and in order. */
  lemma PercentileIndices(n: nat)
    requires n > 0
    ensures 0 <= MedianIndex(n) <= P95Index(n) <= P99Index(n) < n
  {
  }

  /** Element `cnt // 2` of the sorted list. */
  function Median(s: seq<nat>): nat
    requires |s| > 0
  {
    SortAsc(s)[MedianIndex(|s|)]
  }

  /** The median is one of the values and lies between the minimum and the maximum. */
  lemma MedianBetween(s: seq<nat>)
    requires |s| > 0
    ensures Median(s) in s
    ensures Min(s) <= Median(s) <= Max(s)
  {
    var r := SortAsc(s);
    assert r[MedianIndex(|s|)] in multiset(r);
  }

  /** Maximum and minimum do not depend on the order of the values. */
  lemma MaxMinPermutation(s: seq<nat>, t: seq<nat>)
    requires |s| > 0 && multiset(s) == multiset(t)
    ensures |t| > 0 && Max(s) == Max(t) && Min(s) == Min(t)
  {
    assert |t| == |multiset(t)| == |multiset(s)| == |s|;
    assert Max(s) in multiset(t) && Max(t) in multiset(s);
    assert Min(s) in multiset(t) && Min(t) in multiset(s);
  }

  /** The first and last elements of the sorted list are the minimum and the maximum. */
  lemma SortAscEnds(s: seq<nat>)
    requires |s| > 0
    ensures SortAsc(s)[0] == Min(s) && SortAsc(s)[|s| - 1] == Max(s)
  {
    var r := SortAsc(s);
    MaxMinPermutation(r, s);
    AscendingEnds(r);
  }

  /** An ascending list starts with its minimum and ends with its maximum. */
  lemma AscendingEnds(r: seq<nat>)
    requires |r| > 0 && Ascending(r)
    ensures r[0] == Min(r) && r[|r| - 1] == Max(r)
  {
    AscendingMin(r);
    AscendingMax(r);
  }

  lemma AscendingMin(r: seq<nat>)
    requires |r| > 0 && Ascending(r)
    ensures r[0] == Min(r)
  {
    var i :| 0 <= i < |r| && r[i] == Min(r);
    assert r[0] <= r[i];
  }

  lemma AscendingMax(r: seq<nat>)
    requires |r| > 0 && Ascending(r)
    ensures r[|r| - 1] == Max(r)
  {
    var j :| 0 <= j < |r| && r[j] == Max(r);
    assert r[j] <= r[|r| - 1];
  }
}
