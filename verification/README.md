# Kafka segment-roll report and topic dump, modelled in Dafny

This project models two small Kafka operations tools.

**The segment-roll analyser** (`kafka-segment-roll-ms.py`) reads a broker log. Its steps are:

- It picks out the `Rolled new log segment at offset N in M ms.` lines of the `MergedLog` component.
- It turns each such line into an entry: a timestamp, the partition, the directory, the offset and the duration.
- It builds a four-sheet report:
  - every roll, sorted by duration and ranked;
  - a per-partition summary with count, max, min, median and total, ranked by the partition's slowest roll;
  - a dashboard of overall figures;
  - a nine-bucket duration histogram.
- Every roll is classified OK (< 100 ms), MODERATE (100–999 ms) or SLOW (>= 1000 ms).

**The topic dump** (`kafka_dump.py`) does the following:

- It resolves a (cluster, environment) pair to a bootstrap server.
- It builds a consumer in the group `kafka-dump-<topic>` that reads from the earliest offset.
- It drains the topic into `<topic>.jsonl`, one JSON record per message, until a poll comes back empty.
- It writes `metadata.json` with the message count.
- It tars and encrypts the work directory to `<request_id>.tar.enc`.
- It uploads the result to `<base>/kafka-dump/<env>/<topic>/<request_id>/<file>`.

The model keeps everything the report and the dump compute: the entries, the rows, the figures, the counts, the records, the names and the URL. Presentation, the clock, the file system, the Kafka client, the subprocesses and the HTTP call are either parameters or left out.

Modules, in dependency order:

| module | file | what it holds |
|---|---|---|
| `Wrappers` | wrappers.dfy | `Option` and `Result` |
| `Text` | text.dfy | ASCII character classes, `int()` of digit runs, `in`, `strip`, `rstrip`, `lower` |
| `Pattern` | pattern.dfy | A small regular-expression engine: a sequence of atoms, a greedy scanner, and `re.search` |
| `SegmentLog` | segment_log.dfy | `LINE_PATTERN`, the entry a match yields, `parse_log` |
| `StableSort` | stable_sort.dfy | `sorted(..., key=..., reverse=True)` as a stable sort |
| `Stats` | stats.dfy | `sum`, `max`, `min`, `sorted`, the median and percentile indices |
| `RollStatus` | roll_status.dfy | The status thresholds, the status breakdown, the histogram buckets |
| `PartitionSummary` | partition_summary.dfy | `part_stats` grouping and the ranked partition rows |
| `RollReport` | roll_report.dfy | The by-duration sheet, the dashboard, the distribution, and the command's outcome |
| `DumpConsumer` | dump_consumer.dfy | The bootstrap table and the consumer settings |
| `DumpDrain` | dump_drain.dfy | `dump_messages` and record shaping |
| `PosixPath` | posix_path.dfy | `os.path.join`, `os.path.basename`, and splitting at '/' |
| `DumpArtifacts` | dump_artifacts.dfy | The file and archive names, the metadata, the upload URL, and `main` |

**How the regular expression is modelled.** The expression is written as a sequence of atoms: literals, fixed-length digit fields, and runs of a character class.

- The engine is a greedy scanner with no backtracking.
- `Pattern.MatchSeqComplete` proves it complete for "separated" patterns: patterns in which every run is followed by an atom that cannot start with a character of the run's class. `LINE_PATTERN` is such a pattern.
- Under that condition, the match at a position is unique. So the lazy `+?` of the partition group captures the same text as a greedy run would.
- `re.search` becomes the leftmost match position.

**How the consumer is modelled.** The consumer is a sequence of poll outcomes. Running off the end of that sequence counts as an empty poll. A message's key and value are raw payloads: bytes that are valid UTF-8 (with the text they spell), or bytes that are not. `.decode("utf-8")` raises on the latter, and the exception ends `main` before the metadata, the archive or the upload.

**What `kafka_dump.py` does with the archive and the upload.**

- `tar_and_encrypt` passes the passphrase to `openssl` on its command line, with `-k` (kafka_dump.py:86-90).
- The archive and the encrypted file are written to the current directory, and the encrypted file's absolute path is returned (kafka_dump.py:79-92).
- Only `raise_for_status` checks the upload's response (kafka_dump.py:105).
- `main` calls `dump_messages` without a message cap (kafka_dump.py:123).
- The printed JSON holds only the status and the URL (kafka_dump.py:130).

## Model

| member | source | states |
|---|---|---|
| Pattern.MatchSeqComplete | kafka-segment-roll-ms.py:17-24 | On a separated pattern, every way of matching at a position is the one the greedy scanner finds. So the match at a position is unique, and lazy and greedy quantifiers capture the same groups. |
| Pattern.SearchSpec | kafka-segment-roll-ms.py:53 | `re.search` finds a match exactly when the pattern occurs somewhere in the line. What it returns is the leftmost occurrence, with its unique pieces. |
| Pattern.SearchFromLeftmost | kafka-segment-roll-ms.py:53 | Scanning forward from a start position, the first position returned is one where the pattern matches, and it matches at no earlier position from the start onwards. If nothing is returned, it matches nowhere from the start onwards. |
| Pattern.RunEndExact | kafka-segment-roll-ms.py:20-23 | A run of class characters that stops at a character outside the class (or at the end of the line) is the longest such run, which is the one the scanner takes. |
| SegmentLog.LinePatternSeparated | kafka-segment-roll-ms.py:17-24 | Every `\s+`, `\d+`, `[\w.-]+?` and `[^\]]+` of the line pattern is followed by an element that cannot start with a character of its class. |
| SegmentLog.ParseLineSpec | kafka-segment-roll-ms.py:47-66 | A line yields an entry if and only if the pattern occurs in it. The entry comes from the leftmost occurrence, and the pieces of that occurrence are unique. |
| SegmentLog.PreFilterRedundant | kafka-segment-roll-ms.py:51-54 | The `"Rolled new log segment at" not in line` test never changes the outcome, because every match of the pattern contains that text. |
| SegmentLog.ParsedEntryShape | kafka-segment-roll-ms.py:55-65 | Every parsed entry has a well-formed timestamp: 4 digits, then 2-digit fields, then a non-empty fraction. Its partition is non-empty, uses only `[A-Za-z0-9_.-]` and has no ','. Its directory has no ']' and is stripped. Its offset and duration are the decimal values of digit runs of the line. |
| SegmentLog.FormatParseRoundTrip | kafka-segment-roll-ms.py:17-24 | The line the broker writes for a well-formed entry, followed by any text, is recognised and yields exactly that entry. |
| SegmentLog.ParseLogAppend | kafka-segment-roll-ms.py:48-66 | Lines are scanned one by one. The entries of a split log are the entries of its first half followed by those of its second. |
| SegmentLog.ParseLogLine | kafka-segment-roll-ms.py:50-65 | A single line contributes its entry if it has one, and nothing otherwise. |
| Text.DecimalValueOfDigits | kafka-segment-roll-ms.py:63-64 | `int()` of the canonical decimal spelling of a number gives the number back. |
| Text.Strip | kafka-segment-roll-ms.py:62 | `directory.strip()` is an infix of the input. It neither starts nor ends with whitespace, and everything dropped at both ends is whitespace. |
| Text.StripFixed | kafka-segment-roll-ms.py:62 | Stripping a string that is already stripped changes nothing. |
| RollStatus.StatusOf | kafka-segment-roll-ms.py:69-82 | SLOW if and only if d >= 1000; MODERATE if and only if 100 <= d < 1000; OK if and only if d < 100. The three cases are exclusive and total. |
| RollStatus.StyleAgreesWithStatus | kafka-segment-roll-ms.py:85-94 | A duration cell gets the warning, moderate or plain style exactly when its status is SLOW, MODERATE or OK. |
| RollStatus.BreakdownTotal | kafka-segment-roll-ms.py:285-287 | The OK, MODERATE and SLOW counts add up to the number of durations. |
| RollStatus.BreakdownMatchesStatus | kafka-segment-roll-ms.py:285-287 | Each breakdown count is the number of durations that the classifier gives that status. |
| RollStatus.BucketIndex | kafka-segment-roll-ms.py:321-325 | Every duration lies in one of the nine buckets. |
| RollStatus.BucketsPartition | kafka-segment-roll-ms.py:321-325 | The buckets are disjoint and cover every duration: a duration lies in bucket k exactly when k is its index. So 5000 ms is counted as "1001-5000 ms". |
| RollStatus.HistogramTotal | kafka-segment-roll-ms.py:337 | The nine bucket counts add up to the number of durations. |
| StableSort.SortDesc | kafka-segment-roll-ms.py:138 | The sorted list is a permutation of the input and is non-increasing in the key. For every key value, the elements with that key keep their input order. |
| StableSort.SortDescUnique | kafka-segment-roll-ms.py:138 | Exactly one list is a non-increasing, order-keeping rearrangement. So the model's sort and Python's sort give the same list. |
| StableSort.SortDescHead | kafka-segment-roll-ms.py:262 | The first element of the sorted list has the largest key. It is the earliest element of the input that carries that key. |
| Stats.Max | kafka-segment-roll-ms.py:199 | `max` returns an element of the list that is no smaller than any other. |
| Stats.Min | kafka-segment-roll-ms.py:208 | `min` returns an element of the list that is no larger than any other. |
| Stats.SortAsc | kafka-segment-roll-ms.py:197 | `sorted(durations)` is an ascending permutation of the durations. |
| Stats.SumPermutation | kafka-segment-roll-ms.py:214 | Reordering durations does not change their sum. |
| Stats.PercentileIndices | kafka-segment-roll-ms.py:259-261 | For a non-empty list, 0 <= n//2 <= P95 index <= P99 index < n. So every pick is in bounds, and the clamp keeps P99 below n. |
| Stats.MedianBetween | kafka-segment-roll-ms.py:212 | The median `d[cnt // 2]` is one of the durations and lies between their minimum and maximum. |
| Stats.MaxMinPermutation | kafka-segment-roll-ms.py:199-208 | The maximum and the minimum do not depend on the order of the durations. |
| Stats.SortAscEnds | kafka-segment-roll-ms.py:259-271 | The sorted list starts with the minimum and ends with the maximum. |
| PartitionSummary.GroupByPartitionSpec | kafka-segment-roll-ms.py:175-178 | There is one group per partition that occurs, and partitions are distinct. Each group holds exactly that partition's durations, in log order. The groups are ordered by first appearance. |
| PartitionSummary.GroupCountsSum | kafka-segment-roll-ms.py:175-178 | The group sizes add up to the number of entries: every entry lands in exactly one group. |
| PartitionSummary.UniquePartitions | kafka-segment-roll-ms.py:266 | `len(part_stats)` is the number of distinct partitions among the entries. |
| PartitionSummary.NonEmptyGroups | kafka-segment-roll-ms.py:175-178 | No group is empty, so `max` and `d[cnt // 2]` are defined for every row. |
| PartitionSummary.RowForFacts | kafka-segment-roll-ms.py:195-216 | A row's count is the group size. Its max and min occur among the durations and bound them all. Its median lies between them. Its total is the sum. Its status is that of the slowest roll. |
| PartitionSummary.RankedPartitionsSpec | kafka-segment-roll-ms.py:193-201 | There is one row per group. Rows are ranked 1, 2, ... and are a stable rearrangement of the groups by non-increasing maximum duration. |
| RollReport.Durations | kafka-segment-roll-ms.py:326 | The duration list has one element per entry, in log order. |
| RollReport.ByDurationSpec | kafka-segment-roll-ms.py:138-153 | The by-duration sheet lists every entry once, slowest first, ranked from 1. Equal durations stay in log order. Each row's status is that of its duration. |
| RollReport.DashboardOf | kafka-segment-roll-ms.py:258 | The dashboard block is drawn exactly when there are entries. |
| RollReport.DashboardFigures | kafka-segment-roll-ms.py:258-287 | Totals and unique partitions are counted correctly. Minimum and maximum occur among the durations and bound them. min <= median <= P95 <= P99 <= max. The total is the sum of the durations, and the breakdown accounts for every roll. |
| RollReport.DashboardSlowest | kafka-segment-roll-ms.py:262 | The "slowest partition" entry has the maximum duration. It is the earliest entry in the log with that duration. |
| RollReport.DistributionPeak | kafka-segment-roll-ms.py:337-348 | There are nine counts, and they sum to the number of entries. The fullest bucket is non-empty, so the bar-length division never divides by zero. The fullest bar is 30 long and none is longer. |
| RollReport.AnalyzeSpec | kafka-segment-roll-ms.py:372-384 | The modelled command fails exactly when the log is missing or no line holds a roll event. On success, every sheet speaks of the same number of entries, and the partition sheet has one row per distinct partition. |
| SegmentLog.ParseLogEmpty | kafka-segment-roll-ms.py:380-382 | The parse is empty exactly when no line yields an entry. |
| DumpConsumer.Bootstrap | kafka_dump.py:14-17 | The lookup succeeds exactly for ("PHY-PROD-CL1", "PROD") and ("VM-UAT-CL2", "UAT"), with their servers. Every other pair fails. |
| DumpConsumer.BuildConsumer | kafka_dump.py:12-31 | An unknown pair fails with that pair. Otherwise the consumer uses the looked-up server, the group `kafka-dump-` followed by the topic, and "earliest", and it subscribes to just that topic. |
| DumpConsumer.GroupIdInjective | kafka_dump.py:21 | Two topics share a group id exactly when they are equal, and the topic can be read back from the group id. |
| DumpConsumer.SameTopicSameGroup | kafka_dump.py:19-30 | Two successful builds for the same topic differ at most in the bootstrap server. |
| DumpDrain.Field | kafka_dump.py:50-51 | A missing key or value, or one whose bytes are empty, becomes null. Any other key or value is recorded as the text its UTF-8 bytes spell. |
| DumpDrain.WrittenFields | kafka_dump.py:46-54 | The i-th line written comes from the i-th drained message, whose key and value decode. It carries that message's topic, partition, offset and timestamp value. Its key (value) is null exactly when the message's key (value) was missing or empty; otherwise the message's bytes decode to the recorded text. |
| DumpDrain.FieldNormal | kafka_dump.py:50-51 | Shaping is idempotent, and a recorded key or value is never empty. |
| DumpDrain.UntilNothing | kafka_dump.py:39-41 | The polls before the first empty one: a prefix of the polls with no empty poll in it, followed (if anything follows) by an empty poll. |
| DumpDrain.FirstUnreadable | kafka_dump.py:50-51 | The position returned is that of the first message whose key or value is not UTF-8: every message before it decodes, and the message at it (if any) does not. |
| DumpDrain.DumpMessages | kafka_dump.py:34-58 | The loop writes one record per delivered message, in order, skipping errors, up to the first empty poll or the cap. Decoding a key or value that is not UTF-8 raises: the loop fails exactly when a drained message does not decode, on the first such message, which its last poll delivered, and the file then holds the records of the messages before it. Otherwise the returned count equals the number of lines. The lines never exceed a positive cap. When the loop stops at the cap, its last poll delivered a message; short of the cap it stops just after the first empty poll, or when the polls run out. |
| DumpDrain.PrefixOfDrained | kafka_dump.py:38-58 | The messages of any run of polls with no empty poll in it, while the cap is not exceeded, are the first messages the loop reads. |
| DumpDrain.DrainedBounds | kafka_dump.py:56-57 | The number of messages the loop takes is the smaller of the cap and the number of messages before the first empty poll; with no cap (None or 0) it takes all of them. |
| DumpDrain.ErrorsSkipped | kafka_dump.py:42-44 | Removing an errored poll leaves the delivered messages, and so what is written, unchanged. |
| DumpDrain.MessagesAppend | kafka_dump.py:38-54 | The messages of two consecutive runs of polls are the messages of the first followed by those of the second. |
| PosixPath.Join | kafka_dump.py:36 | `os.path.join` returns an absolute second part unchanged. Otherwise it is the first part, at most one '/', then the second part. The '/' is added exactly when the first part is non-empty and does not already end in '/'. |
| PosixPath.Basename | kafka_dump.py:100 | `os.path.basename` is a slash-free suffix of the path that is preceded by a '/' unless it is the whole path. |
| PosixPath.LastSlashEndUnique | kafka_dump.py:100 | The start of the basename is the only position preceded by '/' (or at 0) with no '/' after it. |
| PosixPath.BasenameJoin | kafka_dump.py:36 | The basename of a join is the basename of its second part, whatever the directory. |
| PosixPath.BasenameJoinAll | kafka_dump.py:100 | The basename of segments joined by '/' is the basename of the last segment. |
| PosixPath.SplitJoinAll | kafka_dump.py:100 | Splitting at '/' undoes joining slash-free segments with '/'. |
| DumpArtifacts.DumpFileNames | kafka_dump.py:36-72 | A slash-free topic's dump file is named `<topic>.jsonl`, and the metadata file is `metadata.json`. The two never collide. |
| DumpArtifacts.ArtifactNames | kafka_dump.py:79-80 | The archive is named after the request id, and the encrypted name is the archive name plus ".enc". The two differ, and a slash-free request id gives an encrypted name that is its own basename. |
| DumpArtifacts.UploadUrlShape | kafka_dump.py:101 | The URL is the base without its trailing slashes, one '/', then the repository path. So the base and the path meet at exactly one slash. |
| DumpArtifacts.UploadUrlTrailingSlashes | kafka_dump.py:101 | Any number of trailing slashes on the base URL gives the same URL. |
| DumpArtifacts.UploadUrlEnvCase | kafka_dump.py:100 | The environment's letter case does not change the URL. |
| DumpArtifacts.RepoPathSegments | kafka_dump.py:100 | For slash-free inputs, the repository path splits back into `kafka-dump`, the lower-cased environment, the topic, the request id and the archive's file name. |
| DumpArtifacts.UploadUrlLastSegment | kafka_dump.py:92-101 | For any request id, the URL's last segment is the last segment of the encrypted archive's name. With a slash-free request id, that is the name `<request_id>.tar.enc` itself. |
| DumpArtifacts.RunDump | kafka_dump.py:109-130 | The modelled `main` fails exactly when the cluster/environment pair is unknown, or a message before the first empty poll has a key or value that is not UTF-8. An unknown pair is reported as the consumer error; otherwise the error names the first message that does not decode. On success, every message before the first empty poll decodes, and the dump holds exactly their records, in order. The metadata is built from the arguments, the clock and that message count. The files, archive and URL are the ones the naming functions give. |

## Left out

- Spreadsheet presentation. Fonts, fills, borders, merged cells, column widths, freeze panes, auto-filters and the workbook file are not modelled. The two bar charts, including the top-15 partition chart, are not modelled. The seconds column, a spreadsheet formula, is not modelled. Console messages are not modelled.
- Floating point. The per-partition and overall averages (`round(..., 1)`) are not modelled. The seconds conversions, the histogram percentages and the rounding of bar widths through `int(count / mx * 30)` are not modelled either.
- Stats.P95Index: reads `int(n * 0.95)` in exact arithmetic as `n * 95 / 100`. Likewise Stats.P99Index reads `int(n * 0.99)` as `n * 99 / 100`. The binary rounding of the float constants is not modelled.
- RollReport.BarLength: exact `count * 30 / peak`, not the float quotient truncated by `int`.
- Timestamps. `datetime.strptime` and `strftime` are replaced by the raw digit fields. The model does not reject impossible dates, or fractions of more than six digits; the source raises on those instead of skipping the line. The dashboard's "Time Range" row (minimum and maximum timestamps) is not modelled. The "When" row is not modelled either.
- Character semantics are ASCII only. The Unicode meanings of `\d`, `\s`, `\w`, `str.strip()` and `str.lower()` are not modelled.
- File reading is not modelled. That includes `errors="ignore"` decoding and the `os.path.exists` test, which is a parameter of `Analyze`. Command-line defaults are not modelled.
- The `offsets` list in `part_stats` is filled but never read, so it is not modelled.
- The Kafka client is replaced by a sequence of poll outcomes. Connection, subscription, the one-second poll timeout and `close()` are not modelled, and neither is the security configuration. The "Consumer error" message that is printed is not modelled.
- JSON encoding of the records and of `metadata.json` is not modelled. File writes are not modelled. `tempfile.TemporaryDirectory` and its cleanup are not modelled, and the work directory is a parameter. The UTC clock is a parameter (`now`).
- The `tar` and `openssl` processes and the encryption are not modelled. Only the names they are given and produce are.
- DumpArtifacts.EncPath: `os.path.abspath` is modelled as a join onto the current directory, without folding `.` and `..` segments.
- The HTTP PUT, its credentials, and `raise_for_status` are not modelled. Reading the `ARTIFACTORY_*` environment variables is not modelled; the base URL is a parameter.
- Argument parsing (`argparse`) is not modelled; the arguments arrive already parsed.
- Payload bytes are not modelled. A key or value is either the text its bytes decode to as UTF-8 (the empty text for empty bytes) or undecodable; the decoder itself is not modelled.
- DumpDrain.DumpMessages: the error names the message that does not decode, not whether its key or its value failed, nor the byte position `UnicodeDecodeError` reports.
