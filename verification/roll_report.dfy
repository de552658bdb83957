/**
 * The segment-roll report as data: the by-duration sheet, the dashboard
 * figures, the distribution counts, and the command's outcome. Fonts, fills,
 * column widths, charts and the workbook file itself are presentation and are
 * not modelled; every figure the sheets show is.
 */
module RollReport {
  import opened Wrappers
  import opened SegmentLog
  import Stats
  import StableSort
  import RollStatus
  import PartitionSummary

  /** The sort key of the by-duration sheet. */
  function Duration(e: Entry): int {
    e.duration
  }

  /** The durations of the entries, in log order. */
  function Durations(es: seq<Entry>): (ds: seq<nat>)
    ensures |ds| == |es|
    ensures forall i :: 0 <= i < |es| ==> ds[i] == es[i].duration
  {
    if es == [] then [] else [es[0].duration] + Durations(es[1..])
  }

  /** `ts.strftime("%Y-%m-%d")` and `ts.strftime("%H:%M:%S")` on the parsed
      timestamp: the captured digit strings, without the fraction. */
  function DateText(t: Timestamp): string {
    t.year + "-" + t.month + "-" + t.day
  }

  function TimeText(t: Timestamp): string {
    t.hour + ":" + t.minute + ":" + t.second
  }

  /** One row of the "Rolled Segments (By Duration)" sheet (the seconds column
      is a spreadsheet formula on the duration and is not modelled). */
  datatype DurationRow = DurationRow(
    rank: nat, partition: string, duration: nat, offset: nat,
    date: string, time: string, status: RollStatus.Status)

  function RowOf(e: Entry, rank: nat): DurationRow {
    DurationRow(rank, e.partition, e.duration, e.offset,
      DateText(e.timestamp), TimeText(e.timestamp), RollStatus.StatusOf(e.duration))
  }

  /** `sorted(entries, key=duration_ms, reverse=True)`. */
  function SortedEntries(es: seq<Entry>): seq<Entry> {
    StableSort.SortDesc(es, Duration)
  }

  /** The by-duration sheet, ranked from 1. */
  function ByDuration(es: seq<Entry>): seq<DurationRow> {
    var sorted := SortedEntries(es);
    seq(|sorted|, i requires 0 <= i < |sorted| => RowOf(sorted[i], i + 1))
  }

  /** The by-duration sheet lists every entry once, slowest first, ranked 1,
      2, ...; entries of equal duration stay in log order; each row's status
      is the status of its duration. */
  lemma ByDurationSpec(es: seq<Entry>)
    ensures var rows := ByDuration(es); var sorted := SortedEntries(es);
      && |rows| == |es|
      && multiset(sorted) == multiset(es)
      && StableSort.SameKeyClasses(es, sorted, Duration)
      && (forall i :: 0 <= i < |rows| ==> rows[i] == RowOf(sorted[i], i + 1))
      && (forall i :: 0 <= i < |rows| ==> rows[i].rank == i + 1 && rows[i].status == RollStatus.StatusOf(rows[i].duration))
      && (forall i, j :: 0 <= i < j < |rows| ==> rows[i].duration >= rows[j].duration)
  {
    var rows := ByDuration(es);
    var sorted := SortedEntries(es);
    forall i, j | 0 <= i < j < |rows| ensures rows[i].duration >= rows[j].duration {
      assert Duration(sorted[i]) >= Duration(sorted[j]);
    }
  }

  /** The dashboard's figures (the averages, the seconds conversions and the
      time range are not modelled). */
  datatype Dashboard = Dashboard(
    totalEvents: nat, uniquePartitions: nat,
    minimum: nat, maximum: nat, median: nat, p95: nat, p99: nat, totalTime: nat,
    slowest: Entry, breakdown: RollStatus.Breakdown)

  /** The dashboard block, drawn only when there are entries. */
  function DashboardOf(es: seq<Entry>): (r: Option<Dashboard>)
    ensures r.None? <==> es == []
  {
    if es == [] then None
    else
      var all := Stats.SortAsc(Durations(es));
      var n := |all|;
      Stats.PercentileIndices(n);
      Some(Dashboard(
        |es|, |PartitionSummary.GroupByPartition(es)|,
        Stats.Min(all), Stats.Max(all), all[Stats.MedianIndex(n)],
        all[Stats.P95Index(n)], all[Stats.P99Index(n)], Stats.Sum(all),
        SortedEntries(es)[0], RollStatus.BreakdownOf(all)))
  }

  /** The dashboard's figures, in terms of the entries: the counts, the extremes
      of the durations, the ordered median and percentiles, the total, and the
      status breakdown that accounts for every roll. */
  lemma DashboardFigures(es: seq<Entry>)
    requires es != []
    ensures var d := DashboardOf(es).value; var ds := Durations(es);
      && d.totalEvents == |es|
      && d.uniquePartitions == |PartitionSummary.PartitionSet(es)|
      && d.minimum in ds && d.maximum in ds
      && (forall i :: 0 <= i < |es| ==> d.minimum <= es[i].duration <= d.maximum)
      && d.minimum <= d.median <= d.p95 <= d.p99 <= d.maximum
      && d.median == Stats.Median(ds)
      && d.totalTime == Stats.Sum(ds)
      && d.breakdown.ok + d.breakdown.moderate + d.breakdown.slow == |es|
  {
    var ds := Durations(es);
    var all := Stats.SortAsc(ds);
    var n := |all|;
    PartitionSummary.UniquePartitions(es);
    Stats.MaxMinPermutation(all, ds);
    Stats.SumPermutation(all, ds);
    Stats.PercentileIndices(n);
    Stats.SortAscEnds(all);
    OrderedPicks(all, Stats.MedianIndex(n), Stats.P95Index(n), Stats.P99Index(n));
    var d := DashboardOf(es).value;
    assert d.minimum == Stats.Min(all) && d.maximum == Stats.Max(all);
    assert d.median == all[Stats.MedianIndex(n)] && d.totalTime == Stats.Sum(all);
  }

  /** Picks from an ascending list at ordered positions are ordered and lie
      between its ends. */
  lemma OrderedPicks(s: seq<nat>, a: int, b: int, c: int)
    requires Stats.Ascending(s) && 0 <= a <= b <= c < |s|
    ensures s[0] <= s[a] <= s[b] <= s[c] <= s[|s| - 1]
  {
  }

  /** The slowest-partition block shows an entry of the log with the highest
      duration, and the earliest such entry when several tie. */
  lemma DashboardSlowest(es: seq<Entry>)
    requires es != []
    ensures var d := DashboardOf(es).value;
      && d.slowest.duration == d.maximum
      && exists i :: (0 <= i < |es| && es[i] == d.slowest
        && forall j :: 0 <= j < i ==> es[j].duration < d.slowest.duration)
  {
    var ds := Durations(es);
    var all := Stats.SortAsc(ds);
    var d := DashboardOf(es).value;
    StableSort.SortDescHead(es, Duration);
    Stats.MaxMinPermutation(all, ds);
    var i :| 0 <= i < |es| && es[i] == d.slowest;
    assert d.slowest.duration == ds[i];
  }

  /** The counts of the "Duration Distribution" sheet. */
  function Distribution(es: seq<Entry>): seq<nat> {
    RollStatus.Histogram(Durations(es))
  }

  /** The length of a bar in the "Visual" column for a bucket of `count`
      rolls when the fullest bucket holds `peak`, in exact arithmetic. */
  function BarLength(count: nat, peak: nat): nat
    requires peak > 0
  {
    count * 30 / peak
  }

  /** With at least one entry the fullest bucket is not empty, so the bar
      lengths never divide by zero, and the fullest bucket's bar is 30 long. */
  lemma DistributionPeak(es: seq<Entry>)
    requires es != []
    ensures var h := Distribution(es);
      && |h| == |RollStatus.Buckets|
      && Stats.Sum(h) == |es|
      && Stats.Max(h) > 0
      && BarLength(Stats.Max(h), Stats.Max(h)) == 30
      && forall k :: 0 <= k < |h| ==> BarLength(h[k], Stats.Max(h)) <= 30
  {
    var h := Distribution(es);
    RollStatus.HistogramTotal(Durations(es));
    PeakPositive(h);
    BarsBounded(h);
  }

  /** A list of counts with a positive total has a positive maximum. */
  lemma PeakPositive(h: seq<nat>)
    requires Stats.Sum(h) > 0
    ensures |h| > 0 && Stats.Max(h) > 0
  {
    if h == [] || Stats.Max(h) == 0 {
      SumOfZeros(h);
      assert false;
    }
  }

  lemma BarsBounded(h: seq<nat>)
    requires |h| > 0 && Stats.Max(h) > 0
    ensures BarLength(Stats.Max(h), Stats.Max(h)) == 30
    ensures forall k :: 0 <= k < |h| ==> BarLength(h[k], Stats.Max(h)) <= 30
  {
    var peak := Stats.Max(h);
    BarFull(peak);
    forall k | 0 <= k < |h| ensures BarLength(h[k], peak) <= 30 {
      BarBound(h[k], peak);
    }
  }

  /** The fullest bucket's bar is full length. */
  lemma BarFull(peak: nat)
    requires 0 < peak
    ensures BarLength(peak, peak) == 30
  {
    var x := peak * 30;
    var q, r := x / peak, x % peak;
    assert x == q * peak + r && 0 <= r < peak;
    assert x == 30 * peak;
    if q > 30 {
      MulLe(31, q, peak);
      assert false;
    }
    if q < 30 {
      MulLe(q + 1, 30, peak);
      assert false;
    }
  }

  /** No bar is longer than the fullest one. */
  lemma BarBound(count: nat, peak: nat)
    requires 0 < peak && count <= peak
    ensures BarLength(count, peak) <= 30
  {
    var x := count * 30;
    var q, r := x / peak, x % peak;
    assert x == q * peak + r && 0 <= r < peak;
    assert x <= peak * 30 by {
      MulLe(count, peak, 30);
    }
    if q > 30 {
      MulLe(31, q, peak);
      assert false;
    }
  }

  lemma MulLe(a: nat, b: nat, c: nat)
    requires a <= b
    ensures a * c <= b * c
  {
  }

  lemma {:induction false} SumOfZeros(s: seq<nat>)
    requires forall i :: 0 <= i < |s| ==> s[i] == 0
    ensures Stats.Sum(s) == 0
  {
    if s != [] {
      SumOfZeros(s[1..]);
    }
  }

  /** Everything the workbook shows, sheet by sheet. */
  datatype Report = Report(
    byDuration: seq<DurationRow>,
    partitions: seq<PartitionSummary.PartitionRow>,
    dashboard: Dashboard,
    distribution: seq<nat>)

  /** Why the command exits with status 1. */
  datatype AnalyzeError = FileNotFound | NoEntries

  /** The command on a log file: `logExists` stands for `os.path.exists`,
      `lines` for the file's lines. */
  function Analyze(logExists: bool, lines: seq<string>): (r: Result<Report, AnalyzeError>)
    ensures r.Failure? <==> !logExists || ParseLog(lines) == []
    ensures r.Failure? ==> r.error == (if logExists then NoEntries else FileNotFound)
  {
    if !logExists then Failure(FileNotFound)
    else
      var es := ParseLog(lines);
      if es == [] then Failure(NoEntries)
      else
        Success(Report(ByDuration(es), PartitionSummary.RankedPartitions(es),
          DashboardOf(es).value, Distribution(es)))
  }

  /** The command succeeds exactly when the file exists and one of its lines
      holds a roll event, and then every sheet speaks of the same entries. */
  lemma AnalyzeSpec(logExists: bool, lines: seq<string>)
    ensures var r := Analyze(logExists, lines); var es := ParseLog(lines);
      && (r.Success? <==> logExists && exists k :: 0 <= k < |lines| && ParseLine(lines[k]).Some?)
      && (r.Success? ==>
        && |r.value.byDuration| == |es|
        && r.value.dashboard.totalEvents == |es|
        && Stats.Sum(r.value.distribution) == |es|
        && |r.value.partitions| == |PartitionSummary.PartitionSet(es)|)
  {
    var es := ParseLog(lines);
    ParseLogEmpty(lines);
    if logExists && es != [] {
      ByDurationSpec(es);
      DistributionPeak(es);
      PartitionSummary.RankedPartitionsSpec(es);
      PartitionSummary.UniquePartitions(es);
    }
  }
}
