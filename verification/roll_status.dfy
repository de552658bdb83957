/**
 * The duration thresholds of the segment-roll report: the three-way status
 * of a roll, the matching duration-cell style, the dashboard's status
 * breakdown and the nine-bucket distribution histogram.
 */
module RollStatus {
  import Stats

  const ModerateMs: nat := 100
  const SlowMs: nat := 1000

  datatype Status = Ok | Moderate | Slow

  /** `style_status`: SLOW from 1000 ms, MODERATE from 100 ms, OK below. */
  function StatusOf(d: nat): (s: Status)
    ensures s == Slow <==> d >= 1000
    ensures s == Moderate <==> 100 <= d < 1000
    ensures s == Ok <==> d < 100
  {
    if d >= SlowMs then Slow
    else if d >= ModerateMs then Moderate
    else Ok
  }

  /** The look of a duration cell in `style_duration`. */
  datatype DurationStyle = WarnStyle | ModerateStyle | PlainStyle

  function StyleDuration(d: nat): DurationStyle {
    if d >= 1000 then WarnStyle
    else if d >= 100 then ModerateStyle
    else PlainStyle
  }

  /** The style a status calls for. */
  function StyleFor(s: Status): DurationStyle {
    match s
    case Slow => WarnStyle
    case Moderate => ModerateStyle
    case Ok => PlainStyle
  }

  /** `style_duration` and `style_status` use the same thresholds: a duration
      cell is styled as its status. */
  lemma StyleAgreesWithStatus(d: nat)
    ensures StyleDuration(d) == StyleFor(StatusOf(d))
    ensures StyleDuration(d) == WarnStyle <==> StatusOf(d) == Slow
  {
  }

  predicate IsOk(d: nat) { d < 100 }
  predicate IsModerate(d: nat) { 100 <= d < 1000 }
  predicate IsSlow(d: nat) { d >= 1000 }

  /** The dashboard's status breakdown: OK (< 100 ms), MODERATE (100-999 ms), SLOW (>= 1000 ms). */
  datatype Breakdown = Breakdown(ok: nat, moderate: nat, slow: nat)

  function BreakdownOf(ds: seq<nat>): (b: Breakdown)
    ensures b.ok + b.moderate + b.slow == |ds|
  {
    BreakdownTotal(ds);
    Breakdown(Stats.Count(ds, IsOk), Stats.Count(ds, IsModerate), Stats.Count(ds, IsSlow))
  }

  lemma {:induction false} BreakdownTotal(ds: seq<nat>)
    ensures Stats.Count(ds, IsOk) + Stats.Count(ds, IsModerate) + Stats.Count(ds, IsSlow) == |ds|
  {
    if ds != [] {
      BreakdownTotal(ds[1..]);
    }
  }

  /** The breakdown's ranges are the classifier's: each count is the number of
      durations with that status. */
  lemma {:induction false} BreakdownMatchesStatus(ds: seq<nat>)
    ensures BreakdownOf(ds).ok == Stats.Count(ds, (d: nat) => StatusOf(d) == Ok)
    ensures BreakdownOf(ds).moderate == Stats.Count(ds, (d: nat) => StatusOf(d) == Moderate)
    ensures BreakdownOf(ds).slow == Stats.Count(ds, (d: nat) => StatusOf(d) == Slow)
  {
    if ds != [] {
      BreakdownMatchesStatus(ds[1..]);
    }
  }

  /** One histogram range: `lo <= d <= hi`, with no upper end for the last one. */
  datatype Bucket = Bucket(name: string, lo: nat, hi: HiBound)
  datatype HiBound = Upto(n: nat) | Infinity

  predicate InBucket(d: nat, b: Bucket) {
    b.lo <= d && (b.hi.Infinity? || d <= b.hi.n)
  }

  const Buckets: seq<Bucket> := [
    Bucket("0-2 ms", 0, Upto(2)),
    Bucket("3-5 ms", 3, Upto(5)),
    Bucket("6-10 ms", 6, Upto(10)),
    Bucket("11-50 ms", 11, Upto(50)),
    Bucket("51-100 ms", 51, Upto(100)),
    Bucket("101-500 ms", 101, Upto(500)),
    Bucket("501-1000 ms", 501, Upto(1000)),
    Bucket("1001-5000 ms", 1001, Upto(5000)),
    Bucket("5000+ ms", 5001, Infinity)
  ]

  /** The bucket a duration falls in, found by scanning the ranges in order. */
  function BucketIndex(d: nat): (k: nat)
    ensures k < |Buckets| && InBucket(d, Buckets[k])
  {
    if d <= 2 then 0
    else if d <= 5 then 1
    else if d <= 10 then 2
    else if d <= 50 then 3
    else if d <= 100 then 4
    else if d <= 500 then 5
    else if d <= 1000 then 6
    else if d <= 5000 then 7
    else 8
  }

  /** The nine buckets are disjoint and cover every duration: a duration lies in
      bucket `k` exactly when `k` is its index. In particular 5000 ms counts as
      "1001-5000 ms" and not as "5000+ ms". */
  lemma BucketsPartition(d: nat)
    ensures forall k :: 0 <= k < |Buckets| ==> (InBucket(d, Buckets[k]) <==> k == BucketIndex(d))
  {
  }

  /** The count column of the distribution sheet. */
  function Histogram(ds: seq<nat>): (h: seq<nat>)
    ensures |h| == |Buckets|
  {
    seq(|Buckets|, k requires 0 <= k < |Buckets| => Stats.Count(ds, (d: nat) => InBucket(d, Buckets[k])))
  }

  /** Every duration is counted in exactly one bucket, so the counts add up to
      the number of durations. */
  lemma HistogramTotal(ds: seq<nat>)
    ensures Stats.Sum(Histogram(ds)) == |ds|
  {
    HistogramCounts(ds);
  }

  /** Bucket counts grow by one in the duration's own bucket per duration. */
  lemma {:induction false} HistogramCounts(ds: seq<nat>)
    ensures Stats.Sum(Histogram(ds)) == |ds|
  {
    if ds != [] {
      HistogramCounts(ds[1..]);
      var h, h' := Histogram(ds), Histogram(ds[1..]);
      var k := BucketIndex(ds[0]);
      BucketsPartition(ds[0]);
      forall i | 0 <= i < |Buckets|
        ensures h[i] == h'[i] + (if i == k then 1 else 0)
      {
        var p := (d: nat) => InBucket(d, Buckets[i]);
        assert h[i] == Stats.Count(ds, p) && h'[i] == Stats.Count(ds[1..], p);
      }
      assert h == h'[k := h'[k] + 1];
      SumBump(h', k);
    } else {
      SumZero(Histogram(ds));
    }
  }

  lemma {:induction false} SumZero(s: seq<nat>)
    requires forall k :: 0 <= k < |s| ==> s[k] == 0
    ensures Stats.Sum(s) == 0
  {
    if s != [] {
      SumZero(s[1..]);
    }
  }

  lemma {:induction false} SumBump(s: seq<nat>, k: nat)
    requires k < |s|
    ensures Stats.Sum(s[k := s[k] + 1]) == Stats.Sum(s) + 1
  {
    if k > 0 {
      SumBump(s[1..], k - 1);
      assert s[k := s[k] + 1][1..] == s[1..][k - 1 := s[k] + 1];
    }
  }
}
