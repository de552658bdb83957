/**
 * The partition-summary sheet: roll events grouped by partition in order of
 * first appearance (Python's insertion-ordered `defaultdict`), per-partition
 * count, max, min, median and total, and the ranking by highest single roll.
 */
module PartitionSummary {
  import opened SegmentLog
  import Stats
  import StableSort
  import RollStatus

  /** The durations one partition collected, in log order. */
  datatype Group = Group(partition: string, durations: seq<nat>)

  /** The durations of the entries of partition `p`, in log order. */
  function DurationsOf(es: seq<Entry>, p: string): seq<nat> {
    if es == [] then []
    else DurationsOf(es[..|es| - 1], p) + (if es[|es| - 1].partition == p then [es[|es| - 1].duration] else [])
  }

  /** Index of the first element whose partition, as `partitionOf` reads
      it, is `p` (|xs| if there is none). */
  function FirstWith<T>(xs: seq<T>, partitionOf: T -> string, p: string): (i: nat)
    ensures i <= |xs|
    ensures forall j :: 0 <= j < i ==> partitionOf(xs[j]) != p
    ensures i < |xs| ==> partitionOf(xs[i]) == p
  {
    if xs == [] then 0
    else if partitionOf(xs[0]) == p then 0
    else 1 + FirstWith(xs[1..], partitionOf, p)
  }

  function EntryPartition(e: Entry): string { e.partition }

  function GroupPartition(g: Group): string { g.partition }

  /** Index of the first entry of partition `p` (|es| if there is none). */
  function FirstOf(es: seq<Entry>, p: string): nat {
    FirstWith(es, EntryPartition, p)
  }

  /** Position of the group of partition `p` (|gs| if there is none). */
  function FindGroup(gs: seq<Group>, p: string): nat {
    FirstWith(gs, GroupPartition, p)
  }

  /** `part_stats[e["partition"]]["durations"].append(e["duration_ms"])`. */
  function AddEntry(gs: seq<Group>, e: Entry): seq<Group> {
    var i := FindGroup(gs, e.partition);
    if i == |gs| then gs + [Group(e.partition, [e.duration])]
    else gs[i := Group(gs[i].partition, gs[i].durations + [e.duration])]
  }

  function GroupByPartition(es: seq<Entry>): seq<Group> {
    if es == [] then [] else AddEntry(GroupByPartition(es[..|es| - 1]), es[|es| - 1])
  }

  ghost predicate DistinctPartitions(gs: seq<Group>) {
    forall i, j :: 0 <= i < j < |gs| ==> gs[i].partition != gs[j].partition
  }

  /** What the grouping promises: one group per partition that occurs, each
      holding exactly that partition's durations in log order, the groups in
      order of first appearance. */
  ghost predicate GroupsOf(es: seq<Entry>, gs: seq<Group>) {
    && DistinctPartitions(gs)
    && (forall i :: 0 <= i < |gs| ==> gs[i].durations == DurationsOf(es, gs[i].partition))
    && (forall i :: 0 <= i < |gs| ==> FirstOf(es, gs[i].partition) < |es|)
    && (forall k :: 0 <= k < |es| ==> FindGroup(gs, es[k].partition) < |gs|)
    && (forall i, j :: 0 <= i < j < |gs| ==> FirstOf(es, gs[i].partition) < FirstOf(es, gs[j].partition))
  }

  lemma DurationsOfAbsent(es: seq<Entry>, p: string)
    requires forall k :: 0 <= k < |es| ==> es[k].partition != p
    ensures DurationsOf(es, p) == []
  {
    if es != [] {
      DurationsOfAbsent(es[..|es| - 1], p);
    }
  }

  /** First appearances are the same in a log and in the log with one more
      line, for partitions already present; a new partition first appears on
      the added line. */
  lemma FirstOfExtend(es: seq<Entry>, e: Entry, p: string)
    ensures FirstOf(es, p) < |es| ==> FirstOf(es + [e], p) == FirstOf(es, p)
    ensures FirstOf(es, p) == |es| ==> FirstOf(es + [e], p) == (if e.partition == p then |es| else |es| + 1)
  {
    var es' := es + [e];
    var i := FirstOf(es', p);
    var i0 := FirstOf(es, p);
    assert forall j :: 0 <= j < |es| ==> es'[j] == es[j];
    assert es'[|es|] == e;
    if i0 < |es| {
      assert i <= i0;
      assert i >= i0;
    } else if e.partition == p {
      assert i <= |es|;
    } else {
      assert i > |es|;
    }
  }

  /** A group found at position `j` is found no later than `j`. */
  lemma FindGroupAt(gs: seq<Group>, p: string, j: nat)
    requires j < |gs| && gs[j].partition == p
    ensures FindGroup(gs, p) <= j
  {
  }

  lemma DurationsOfSnoc(pre: seq<Entry>, e: Entry, p: string)
    ensures DurationsOf(pre + [e], p) == DurationsOf(pre, p) + (if e.partition == p then [e.duration] else [])
  {
    assert (pre + [e])[..|pre|] == pre;
  }

  lemma AddEntryDistinct(gs: seq<Group>, e: Entry)
    requires DistinctPartitions(gs)
    ensures DistinctPartitions(AddEntry(gs, e))
  {
  }

  lemma AddEntryDurations(pre: seq<Entry>, e: Entry, gs: seq<Group>)
    requires GroupsOf(pre, gs)
    ensures var gs' := AddEntry(gs, e);
      forall i :: 0 <= i < |gs'| ==> gs'[i].durations == DurationsOf(pre + [e], gs'[i].partition)
  {
    var gs' := AddEntry(gs, e);
    var i := FindGroup(gs, e.partition);
    forall j | 0 <= j < |gs'| ensures gs'[j].durations == DurationsOf(pre + [e], gs'[j].partition) {
      DurationsOfSnoc(pre, e, gs'[j].partition);
      if i == |gs| && j == |gs| {
        assert forall k :: 0 <= k < |pre| ==> pre[k].partition != e.partition;
        DurationsOfAbsent(pre, e.partition);
      }
    }
  }

  lemma AddEntryFirst(pre: seq<Entry>, e: Entry, gs: seq<Group>)
    requires forall i :: 0 <= i < |gs| ==> FirstOf(pre, gs[i].partition) < |pre|
    requires forall i, j :: 0 <= i < j < |gs| ==> FirstOf(pre, gs[i].partition) < FirstOf(pre, gs[j].partition)
    requires forall k :: 0 <= k < |pre| ==> FindGroup(gs, pre[k].partition) < |gs|
    ensures var gs' := AddEntry(gs, e);
      && (forall i :: 0 <= i < |gs'| ==> FirstOf(pre + [e], gs'[i].partition) < |pre| + 1)
      && (forall i, j :: 0 <= i < j < |gs'| ==> FirstOf(pre + [e], gs'[i].partition) < FirstOf(pre + [e], gs'[j].partition))
  {
    var gs' := AddEntry(gs, e);
    AddEntryShape(gs, e);
    forall j | 0 <= j < |gs'|
      ensures FirstOf(pre + [e], gs'[j].partition) == (if j < |gs| then FirstOf(pre, gs[j].partition) else |pre|)
    {
      FirstOfExtend(pre, e, gs'[j].partition);
      if j == |gs| {
        assert forall k :: 0 <= k < |pre| ==> pre[k].partition != e.partition;
      }
    }
  }

  /** Adding a line keeps the partitions of the groups in place, and adds a
      group for the line's partition at the end exactly when it had none. */
  lemma AddEntryShape(gs: seq<Group>, e: Entry)
    ensures var gs' := AddEntry(gs, e);
      && |gs| <= |gs'| <= |gs| + 1
      && (forall j :: 0 <= j < |gs| ==> gs'[j].partition == gs[j].partition)
      && (|gs'| == |gs| + 1 <==> FindGroup(gs, e.partition) == |gs|)
      && (|gs'| == |gs| + 1 ==> gs'[|gs|].partition == e.partition)
  {
  }

  lemma AddEntryCovers(pre: seq<Entry>, e: Entry, gs: seq<Group>)
    requires GroupsOf(pre, gs)
    ensures var gs' := AddEntry(gs, e);
      forall k :: 0 <= k < |pre| + 1 ==> FindGroup(gs', (pre + [e])[k].partition) < |gs'|
  {
    var gs' := AddEntry(gs, e);
    var i := FindGroup(gs, e.partition);
    forall k | 0 <= k < |pre| + 1 ensures FindGroup(gs', (pre + [e])[k].partition) < |gs'| {
      var p := (pre + [e])[k].partition;
      if k < |pre| {
        assert p == pre[k].partition;
        var j := FindGroup(gs, p);
        assert gs'[j].partition == p;
        FindGroupAt(gs', p, j);
      } else {
        assert p == e.partition;
        FindGroupAt(gs', p, i);
      }
    }
  }

  /** Adding one line keeps the grouping's promise. */
  lemma AddEntrySpec(pre: seq<Entry>, e: Entry, gs: seq<Group>)
    requires GroupsOf(pre, gs)
    ensures GroupsOf(pre + [e], AddEntry(gs, e))
  {
    AddEntryDistinct(gs, e);
    AddEntryDurations(pre, e, gs);
    AddEntryFirst(pre, e, gs);
    AddEntryCovers(pre, e, gs);
  }

  lemma {:induction false} GroupByPartitionSpec(es: seq<Entry>)
    ensures GroupsOf(es, GroupByPartition(es))
  {
    if es != [] {
      var pre, e := es[..|es| - 1], es[|es| - 1];
      assert es == pre + [e];
      GroupByPartitionSpec(pre);
      AddEntrySpec(pre, e, GroupByPartition(pre));
    }
  }

  /** Number of rolls over all groups. */
  function TotalCount(gs: seq<Group>): nat {
    if gs == [] then 0 else |gs[0].durations| + TotalCount(gs[1..])
  }

  lemma {:induction false} TotalCountAppend(gs: seq<Group>, g: Group)
    ensures TotalCount(gs + [g]) == TotalCount(gs) + |g.durations|
  {
    if gs != [] {
      assert (gs + [g])[1..] == gs[1..] + [g];
      TotalCountAppend(gs[1..], g);
    }
  }

  lemma {:induction false} TotalCountUpdate(gs: seq<Group>, i: nat, g: Group)
    requires i < |gs|
    ensures TotalCount(gs[i := g]) == TotalCount(gs) - |gs[i].durations| + |g.durations|
  {
    if i > 0 {
      assert gs[i := g][1..] == gs[1..][i - 1 := g];
      TotalCountUpdate(gs[1..], i - 1, g);
    }
  }

  /** Every entry lands in exactly one group: the group counts add up to the
      number of entries. */
  lemma {:induction false} GroupCountsSum(es: seq<Entry>)
    ensures TotalCount(GroupByPartition(es)) == |es|
  {
    if es != [] {
      var pre, e := es[..|es| - 1], es[|es| - 1];
      GroupCountsSum(pre);
      var gs := GroupByPartition(pre);
      var i := FindGroup(gs, e.partition);
      if i == |gs| {
        TotalCountAppend(gs, Group(e.partition, [e.duration]));
      } else {
        TotalCountUpdate(gs, i, Group(gs[i].partition, gs[i].durations + [e.duration]));
      }
    }
  }

  /** The set of partitions named in the log. */
  function PartitionSet(es: seq<Entry>): set<string> {
    set k | 0 <= k < |es| :: es[k].partition
  }

  /** `len(part_stats)`: the number of groups is the number of distinct partitions. */
  lemma UniquePartitions(es: seq<Entry>)
    ensures |GroupByPartition(es)| == |PartitionSet(es)|
  {
    var gs := GroupByPartition(es);
    GroupByPartitionSpec(es);
    var ps := seq(|gs|, i requires 0 <= i < |gs| => gs[i].partition);
    SameSet(es, gs, ps);
    DistinctCard(ps);
  }

  /** The groups' partitions are the partitions of the log when every line
      has a group and every group's partition occurs in the log. */
  lemma SameSet(es: seq<Entry>, gs: seq<Group>, ps: seq<string>)
    requires |ps| == |gs| && forall i :: 0 <= i < |gs| ==> ps[i] == gs[i].partition
    requires forall i :: 0 <= i < |gs| ==> FirstOf(es, gs[i].partition) < |es|
    requires forall k :: 0 <= k < |es| ==> FindGroup(gs, es[k].partition) < |gs|
    ensures PartitionSet(es) == set i | 0 <= i < |ps| :: ps[i]
  {
    forall p | p in PartitionSet(es) ensures p in set i | 0 <= i < |ps| :: ps[i] {
      var k :| 0 <= k < |es| && es[k].partition == p;
      var i := FindGroup(gs, p);
      assert ps[i] == p;
    }
    forall p | p in set i | 0 <= i < |ps| :: ps[i] ensures p in PartitionSet(es) {
      var i :| 0 <= i < |ps| && ps[i] == p;
      var k := FirstOf(es, p);
      assert es[k].partition == p;
    }
  }

  lemma {:induction false} DistinctCard(ps: seq<string>)
    requires forall i, j :: 0 <= i < j < |ps| ==> ps[i] != ps[j]
    ensures |set i | 0 <= i < |ps| :: ps[i]| == |ps|
  {
    if ps != [] {
      var rest := ps[..|ps| - 1];
      DistinctCard(rest);
      var s := set i | 0 <= i < |ps| :: ps[i];
      var r := set i | 0 <= i < |rest| :: rest[i];
      assert s == r + {ps[|ps| - 1]};
      assert ps[|ps| - 1] !in r;
    }
  }

  /** One row of the partition-summary sheet (the average, a float, is not modelled). */
  datatype PartitionRow = PartitionRow(
    rank: nat, partition: string, count: nat,
    max: nat, min: nat, median: nat, total: nat,
    status: RollStatus.Status)

  /** The largest duration of a group (groups are never empty; 0 would stand for an empty one). */
  function Peak(g: Group): int {
    if g.durations == [] then 0 else Stats.Max(g.durations)
  }

  /** The statistics row for one group, computed on its sorted durations. */
  function RowFor(g: Group, rank: nat): PartitionRow
    requires |g.durations| > 0
  {
    var d := Stats.SortAsc(g.durations);
    var cnt := |d|;
    var maxD := Stats.Max(d);
    PartitionRow(rank, g.partition, cnt, maxD, Stats.Min(d), d[cnt / 2], Stats.Sum(d),
      RollStatus.StatusOf(maxD))
  }

  /** A row's figures are those of the group's durations: the count, a max and
      min that bound them all and occur among them, a median between the two,
      the total, and the status of the highest roll. */
  lemma RowForFacts(g: Group, rank: nat)
    requires |g.durations| > 0
    ensures var r := RowFor(g, rank);
      && r.count == |g.durations|
      && r.max == Peak(g) && r.max in g.durations
      && (forall i :: 0 <= i < |g.durations| ==> r.min <= g.durations[i] <= r.max)
      && r.min in g.durations
      && r.min <= r.median <= r.max
      && r.median == Stats.Median(g.durations)
      && r.total == Stats.Sum(g.durations)
      && r.status == RollStatus.StatusOf(Peak(g))
  {
    var d := Stats.SortAsc(g.durations);
    Stats.MaxMinPermutation(d, g.durations);
    Stats.MedianBetween(g.durations);
    Stats.SumPermutation(d, g.durations);
  }

  ghost predicate AllNonEmpty(gs: seq<Group>) {
    forall i :: 0 <= i < |gs| ==> |gs[i].durations| > 0
  }

  /** Rows for groups already in sheet order, ranked from 1. */
  function RankRows(sorted: seq<Group>): seq<PartitionRow>
    requires AllNonEmpty(sorted)
  {
    seq(|sorted|, i requires 0 <= i < |sorted| => RowFor(sorted[i], i + 1))
  }

  lemma RankRowsFacts(sorted: seq<Group>)
    requires AllNonEmpty(sorted)
    ensures var rows := RankRows(sorted);
      && |rows| == |sorted|
      && forall i :: 0 <= i < |rows| ==>
        rows[i].rank == i + 1 && rows[i].partition == sorted[i].partition && rows[i].max == Peak(sorted[i])
  {
    forall i | 0 <= i < |sorted| ensures RankRows(sorted)[i].max == Peak(sorted[i]) {
      RowForFacts(sorted[i], i + 1);
    }
  }

  /** Reordering groups keeps them non-empty. */
  lemma AllNonEmptyPermutation(gs: seq<Group>, hs: seq<Group>)
    requires AllNonEmpty(gs) && multiset(gs) == multiset(hs)
    ensures AllNonEmpty(hs)
  {
    forall i | 0 <= i < |hs| ensures |hs[i].durations| > 0 {
      assert hs[i] in multiset(gs);
      var j :| 0 <= j < |gs| && gs[j] == hs[i];
    }
  }

  /** `sorted(part_stats.items(), key=max durations, reverse=True)`, ranked from 1. */
  function RankedPartitions(es: seq<Entry>): (rows: seq<PartitionRow>)
  {
    var gs := GroupByPartition(es);
    var sorted := StableSort.SortDesc(gs, Peak);
    NonEmptyGroups(es);
    AllNonEmptyPermutation(gs, sorted);
    RankRows(sorted)
  }

  lemma NonEmptyGroups(es: seq<Entry>)
    ensures AllNonEmpty(GroupByPartition(es))
  {
    var gs := GroupByPartition(es);
    GroupByPartitionSpec(es);
    forall i | 0 <= i < |gs| ensures |gs[i].durations| > 0 {
      var p := gs[i].partition;
      DurationsOfPresent(es, p, FirstOf(es, p));
    }
  }

  lemma {:induction false} DurationsOfPresent(es: seq<Entry>, p: string, k: nat)
    requires k < |es| && es[k].partition == p
    ensures |DurationsOf(es, p)| > 0
  {
    if k < |es| - 1 {
      DurationsOfPresent(es[..|es| - 1], p, k);
    }
  }

  /** The ranking: rows carry ranks 1, 2, ...; their highest rolls never
      increase down the sheet; the rows are the groups' rows, each group once;
      and partitions with the same highest roll keep their order of first
      appearance. */
  lemma RankedPartitionsSpec(es: seq<Entry>)
    ensures var rows := RankedPartitions(es);
      var gs := GroupByPartition(es);
      var sorted := StableSort.SortDesc(gs, Peak);
      && |rows| == |gs|
      && multiset(sorted) == multiset(gs)
      && StableSort.SameKeyClasses(gs, sorted, Peak)
      && (forall i :: 0 <= i < |rows| ==> rows[i].rank == i + 1 && rows[i].partition == sorted[i].partition)
      && (forall i, j :: 0 <= i < j < |rows| ==> rows[i].max >= rows[j].max)
  {
    var gs := GroupByPartition(es);
    var sorted := StableSort.SortDesc(gs, Peak);
    NonEmptyGroups(es);
    AllNonEmptyPermutation(gs, sorted);
    RankRowsFacts(sorted);
    RankRowsOrdered(sorted);
    assert RankedPartitions(es) == RankRows(sorted);
  }

  lemma RankRowsOrdered(sorted: seq<Group>)
    requires AllNonEmpty(sorted) && StableSort.NonIncreasing(sorted, Peak)
    ensures var rows := RankRows(sorted);
      forall i, j :: 0 <= i < j < |rows| ==> rows[i].max >= rows[j].max
  {
    var rows := RankRows(sorted);
    RankRowsFacts(sorted);
    forall i, j | 0 <= i < j < |rows| ensures rows[i].max >= rows[j].max {
      assert rows[i].max == Peak(sorted[i]) && rows[j].max == Peak(sorted[j]);
    }
  }
}
