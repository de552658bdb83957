/**
 * The broker-log line recogniser of the segment-roll analyser: the line
 * pattern, the entry it yields and the scan over a whole log.
 *
 * A recognised line looks like
 *   [2024-05-01 10:00:00,123] INFO [MergedLog partition=orders-3, dir=/data/k1] Rolled new log segment at offset 4711 in 12 ms.
 * anywhere inside a longer line.
 */
module SegmentLog {
  import opened Wrappers
  import Text
  import opened Pattern

  /** The pattern, one atom per regular-expression element. The partition's
      lazy `+?` is written as a run: the match at a position is unique
      (`Pattern.MatchSeqComplete`, `ParseLineSpec`), so laziness cannot
      change what is captured. */
  const LinePattern: seq<Atom> := [
    Lit("["),                                // 0
    Exactly(Digit, 4),                       // 1  year
    Lit("-"),                                // 2
    Exactly(Digit, 2),                       // 3  month
    Lit("-"),                                // 4
    Exactly(Digit, 2),                       // 5  day
    Run(Space, 1),                           // 6
    Exactly(Digit, 2),                       // 7  hour
    Lit(":"),                                // 8
    Exactly(Digit, 2),                       // 9  minute
    Lit(":"),                                // 10
    Exactly(Digit, 2),                       // 11 second
    Lit(","),                                // 12
    Run(Digit, 1),                           // 13 fraction
    Lit("]"),                                // 14
    Run(Space, 1),                           // 15
    Lit("INFO"),                             // 16
    Run(Space, 1),                           // 17
    Lit("[MergedLog"),                       // 18
    Run(Space, 1),                           // 19
    Lit("partition="),                       // 20
    Run(PartitionChar, 1),                   // 21 partition
    Lit(","),                                // 22
    Run(Space, 0),                           // 23
    Lit("dir="),                             // 24
    Run(NotCloseBracket, 1),                 // 25 directory
    Lit("]"),                                // 26
    Run(Space, 1),                           // 27
    Lit("Rolled new log segment at offset"), // 28
    Run(Space, 1),                           // 29
    Run(Digit, 1),                           // 30 offset
    Run(Space, 1),                           // 31
    Lit("in"),                               // 32
    Run(Space, 1),                           // 33
    Run(Digit, 1),                           // 34 duration
    Run(Space, 1),                           // 35
    Lit("ms.")                               // 36
  ]

  /** The cheap pre-filter applied before the pattern search. */
  const RollMarker: string := "Rolled new log segment at"

  /** The timestamp as the raw digit fields of `YYYY-MM-DD hh:mm:ss,fff`. */
  datatype Timestamp = Timestamp(
    year: string, month: string, day: string,
    hour: string, minute: string, second: string, fraction: string)

  /** One recognised roll event. */
  datatype Entry = Entry(
    timestamp: Timestamp,
    partition: string,
    directory: string,
    offset: nat,
    duration: nat)

  /** Every run of the line pattern is followed by an atom that must begin
      outside the run's class, so the scanner never needs to backtrack. */
  lemma LinePatternSeparated()
    ensures Separated(LinePattern)
  {
    forall k | 0 <= k < |LinePattern| && LinePattern[k].Run?
      ensures k + 1 < |LinePattern| && StartsOutside(LinePattern[k + 1], LinePattern[k].cls)
    {
      assert Disjoint(Digit, Space) && Disjoint(Space, Digit);
    }
  }

  /** The entry built from the pieces of a match: the five groups, with the
      directory stripped and the two numbers read as decimals. */
  function EntryOf(ws: seq<string>): Entry
    requires Spells(LinePattern, ws)
  {
    GroupAtoms();
    assert Accepts(LinePattern[30], ws[30]) && Accepts(LinePattern[34], ws[34]);
    Entry(
      Timestamp(ws[1], ws[3], ws[5], ws[7], ws[9], ws[11], ws[13]),
      ws[21],
      Text.Strip(ws[25]),
      Text.DecimalValue(ws[30]),
      Text.DecimalValue(ws[34]))
  }

  /** One line of the log: skipped unless it contains the marker, then
      searched for the pattern. */
  function ParseLine(line: string): Option<Entry> {
    if !Text.Contains(line, RollMarker) then None
    else
      match Search(LinePattern, line)
      case None => None
      case Some((_, ws)) => Some(EntryOf(ws))
  }

  /** The entries a line parser recognises in some lines, in file order;
      lines it rejects contribute nothing. */
  function Recognised(parse: string -> Option<Entry>, lines: seq<string>): (es: seq<Entry>)
    ensures |es| <= |lines|
  {
    if lines == [] then []
    else
      var rest := Recognised(parse, lines[1..]);
      match parse(lines[0])
      case None => rest
      case Some(e) => [e] + rest
  }

  /** The whole log: the entries of the recognised lines, in file order. */
  function ParseLog(lines: seq<string>): (es: seq<Entry>)
    ensures |es| <= |lines|
  {
    Recognised(ParseLine, lines)
  }

  lemma {:induction false} ConcatSplit(ws: seq<string>, k: nat)
    requires k < |ws|
    ensures Concat(ws) == Concat(ws[..k]) + ws[k] + Concat(ws[k + 1..])
  {
    if k > 0 {
      ConcatSplit(ws[1..], k - 1);
      assert ws[1..][..k - 1] == ws[..k][1..];
      assert ws[1..][k - 1 + 1..] == ws[k + 1..];
    } else {
      assert ws[..0] == [];
    }
  }

  /** The marker is part of the pattern, so wherever the pattern matches the
      marker occurs: the pre-filter never changes the result. */
  lemma PreFilterRedundant(line: string)
    ensures ParseLine(line) ==
      match Search(LinePattern, line)
      case None => None
      case Some((_, ws)) => Some(EntryOf(ws))
  {
    if Search(LinePattern, line).Some? {
      var (j, ws) := Search(LinePattern, line).value;
      MarkerInMatch(line, j, ws);
    }
  }

  lemma MarkerInMatch(line: string, j: nat, ws: seq<string>)
    requires MatchesAt(LinePattern, line, j, ws)
    ensures Text.Contains(line, RollMarker)
  {
    PieceOccurs(ws, 28);
    var at := |Concat(ws[..28])|;
    Text.OccursAtTrans(line, Concat(ws), j, ws[28], at);
    assert Accepts(LinePattern[28], ws[28]);
    assert Text.OccursAt(ws[28], RollMarker, 0);
    Text.OccursAtTrans(line, ws[28], j + at, RollMarker, 0);
  }

  /** A line yields an entry exactly when the pattern occurs in it; the entry
      is built from the leftmost occurrence, which is unique at its position. */
  lemma ParseLineSpec(line: string)
    ensures ParseLine(line).Some? <==> exists j: nat, ws :: j <= |line| && MatchesAt(LinePattern, line, j, ws)
    ensures ParseLine(line).Some? ==>
      exists j: nat, ws :: j <= |line| && MatchesAt(LinePattern, line, j, ws)
        && ParseLine(line).value == EntryOf(ws)
        && (forall j': nat, ws' :: j' < j ==> !MatchesAt(LinePattern, line, j', ws'))
        && (forall ws' :: MatchesAt(LinePattern, line, j, ws') ==> ws' == ws)
  {
    LinePatternSeparated();
    SearchSpec(LinePattern, line);
    PreFilterRedundant(line);
  }

  /** The shape every recognised entry has. */
  ghost predicate WellShaped(e: Entry) {
    var t := e.timestamp;
    && |t.year| == 4 && Text.AllDigits(t.year)
    && |t.month| == 2 && Text.AllDigits(t.month)
    && |t.day| == 2 && Text.AllDigits(t.day)
    && |t.hour| == 2 && Text.AllDigits(t.hour)
    && |t.minute| == 2 && Text.AllDigits(t.minute)
    && |t.second| == 2 && Text.AllDigits(t.second)
    && |t.fraction| > 0 && Text.AllDigits(t.fraction)
    && |e.partition| > 0 && AllIn(e.partition, PartitionChar)
    && ',' !in e.partition
    && ']' !in e.directory
    && Text.IsStripped(e.directory)
  }

  lemma TimestampShape(ws: seq<string>)
    requires Spells(LinePattern, ws)
    ensures var t := EntryOf(ws).timestamp;
      && |t.year| == 4 && Text.AllDigits(t.year)
      && |t.month| == 2 && Text.AllDigits(t.month)
      && |t.day| == 2 && Text.AllDigits(t.day)
      && |t.hour| == 2 && Text.AllDigits(t.hour)
      && |t.minute| == 2 && Text.AllDigits(t.minute)
      && |t.second| == 2 && Text.AllDigits(t.second)
      && |t.fraction| > 0 && Text.AllDigits(t.fraction)
  {
    var t := EntryOf(ws).timestamp;
    assert t == Timestamp(ws[1], ws[3], ws[5], ws[7], ws[9], ws[11], ws[13]);
    TimestampAtoms();
    assert Accepts(LinePattern[1], ws[1]) && Accepts(LinePattern[3], ws[3]);
    assert Accepts(LinePattern[5], ws[5]) && Accepts(LinePattern[7], ws[7]);
    assert Accepts(LinePattern[9], ws[9]) && Accepts(LinePattern[11], ws[11]);
    assert Accepts(LinePattern[13], ws[13]);
  }

  /** The atoms of the timestamp's seven fields. */
  lemma TimestampAtoms()
    ensures LinePattern[1] == Exactly(Digit, 4)
    ensures LinePattern[3] == Exactly(Digit, 2) && LinePattern[5] == Exactly(Digit, 2)
    ensures LinePattern[7] == Exactly(Digit, 2) && LinePattern[9] == Exactly(Digit, 2)
    ensures LinePattern[11] == Exactly(Digit, 2) && LinePattern[13] == Run(Digit, 1)
  {
    DateAtoms();
    TimeAtoms();
  }

  /** The year, month and day atoms. */
  lemma DateAtoms()
    ensures LinePattern[1] == Exactly(Digit, 4)
    ensures LinePattern[3] == Exactly(Digit, 2) && LinePattern[5] == Exactly(Digit, 2)
  {
  }

  /** The hour, minute, second and fraction atoms. */
  lemma TimeAtoms()
    ensures LinePattern[7] == Exactly(Digit, 2) && LinePattern[9] == Exactly(Digit, 2)
    ensures LinePattern[11] == Exactly(Digit, 2) && LinePattern[13] == Run(Digit, 1)
  {
  }

  /** The atoms of the partition, directory, offset and duration groups. */
  lemma GroupAtoms()
    ensures LinePattern[21] == Run(PartitionChar, 1) && LinePattern[25] == Run(NotCloseBracket, 1)
    ensures LinePattern[30] == Run(Digit, 1) && LinePattern[34] == Run(Digit, 1)
  {
  }

  lemma PartitionShape(ws: seq<string>)
    requires Spells(LinePattern, ws)
    ensures var p := EntryOf(ws).partition;
      |p| > 0 && AllIn(p, PartitionChar) && ',' !in p
  {
    var p := ws[21];
    GroupAtoms();
    assert Accepts(LinePattern[21], p);
    assert forall k :: 0 <= k < |p| ==> p[k] != ',';
  }

  lemma DirectoryShape(ws: seq<string>)
    requires Spells(LinePattern, ws)
    ensures var d := EntryOf(ws).directory;
      ']' !in d && Text.IsStripped(d)
  {
    var d := ws[25];
    GroupAtoms();
    assert Accepts(LinePattern[25], d);
    assert forall k :: 0 <= k < |d| ==> d[k] != ']';
  }

  /** The entry built from any match is well shaped. */
  lemma EntryOfShape(ws: seq<string>)
    requires Spells(LinePattern, ws)
    ensures WellShaped(EntryOf(ws))
  {
    TimestampShape(ws);
    PartitionShape(ws);
    DirectoryShape(ws);
  }

  /** Every recognised entry is well shaped, and its offset and duration are
      the decimal values of digit runs that occur in the line. */
  lemma ParsedEntryShape(line: string)
    ensures ParseLine(line).Some? ==>
      var e := ParseLine(line).value;
      && WellShaped(e)
      && (exists ds :: |ds| > 0 && Text.AllDigits(ds) && Text.Contains(line, ds) && e.offset == Text.DecimalValue(ds))
      && (exists ds :: |ds| > 0 && Text.AllDigits(ds) && Text.Contains(line, ds) && e.duration == Text.DecimalValue(ds))
  {
    PreFilterRedundant(line);
    if ParseLine(line).Some? {
      var (j, ws) := Search(LinePattern, line).value;
      var e := EntryOf(ws);
      assert ParseLine(line).value == e;
      EntryOfShape(ws);
      NumberOccurs(line, j, ws, 30);
      NumberOccurs(line, j, ws, 34);
      assert e.offset == Text.DecimalValue(ws[30]);
      assert e.duration == Text.DecimalValue(ws[34]);
    }
  }

  /** The offset and duration pieces of a match are digit runs of the line. */
  lemma NumberOccurs(line: string, j: nat, ws: seq<string>, k: nat)
    requires k == 30 || k == 34
    requires MatchesAt(LinePattern, line, j, ws)
    ensures |ws[k]| > 0 && Text.AllDigits(ws[k]) && Text.Contains(line, ws[k])
  {
    GroupAtoms();
    assert Accepts(LinePattern[k], ws[k]);
    InfixOfMatch(line, j, ws, k);
  }

  /** Each piece of a match occurs in the matched line. */
  lemma InfixOfMatch(line: string, j: nat, ws: seq<string>, k: nat)
    requires k < |ws| && Text.OccursAt(line, Concat(ws), j)
    ensures Text.Contains(line, ws[k])
  {
    PieceOccurs(ws, k);
    Text.OccursAtTrans(line, Concat(ws), j, ws[k], |Concat(ws[..k])|);
  }

  /** Piece `k` sits in the concatenation right after the pieces before it. */
  lemma PieceOccurs(ws: seq<string>, k: nat)
    requires k < |ws|
    ensures Text.OccursAt(Concat(ws), ws[k], |Concat(ws[..k])|)
  {
    ConcatSplit(ws, k);
    var a := Concat(ws[..k]);
    assert Concat(ws)[|a|..|a| + |ws[k]|] == ws[k];
  }

  /** Entries the broker could have written: well shaped, with a non-empty directory. */
  ghost predicate Renderable(e: Entry) {
    WellShaped(e) && |e.directory| > 0
  }

  /** The pieces of the broker's own line for an entry, one per pattern atom. */
  function Pieces(e: Entry): seq<string> {
    var t := e.timestamp;
    [ "[", t.year, "-", t.month, "-", t.day, " ", t.hour, ":", t.minute, ":", t.second,
      ",", t.fraction, "]", " ", "INFO", " ", "[MergedLog", " ", "partition=", e.partition,
      ",", " ", "dir=", e.directory, "]", " ", "Rolled new log segment at offset", " ",
      Text.Digits(e.offset), " ", "in", " ", Text.Digits(e.duration), " ", "ms." ]
  }

  /** The log line the broker writes for an entry. */
  function FormatLine(e: Entry): string {
    Concat(Pieces(e))
  }

  lemma PiecesSpell(e: Entry)
    requires Renderable(e)
    ensures Spells(LinePattern, Pieces(e))
  {
    PiecesSpellTimestamp(e);
    PiecesSpellLocation(e);
    PiecesSpellEvent(e);
  }

  lemma PiecesSpellTimestamp(e: Entry)
    requires Renderable(e)
    ensures forall k :: 0 <= k < 15 ==> Accepts(LinePattern[k], Pieces(e)[k])
  {
  }

  lemma PiecesSpellLocation(e: Entry)
    requires Renderable(e)
    ensures forall k :: 15 <= k < 27 ==> Accepts(LinePattern[k], Pieces(e)[k])
  {
    assert forall k :: 0 <= k < |e.directory| ==> e.directory[k] != ']';
  }

  lemma PiecesSpellEvent(e: Entry)
    requires Renderable(e)
    ensures forall k :: 27 <= k < 37 ==> Accepts(LinePattern[k], Pieces(e)[k])
  {
  }

  /** Reading the groups back out of an entry's own pieces gives the entry. */
  lemma EntryOfPieces(e: Entry)
    requires Renderable(e)
    ensures Spells(LinePattern, Pieces(e)) && EntryOf(Pieces(e)) == e
  {
    PiecesSpell(e);
    PiecesFields(e);
    Text.StripFixed(e.directory);
    Text.DecimalValueOfDigits(e.offset);
    Text.DecimalValueOfDigits(e.duration);
  }

  /** The pieces that the pattern's groups capture are the entry's fields. */
  lemma PiecesFields(e: Entry)
    ensures var ws := Pieces(e); var t := e.timestamp;
      && ws[1] == t.year && ws[3] == t.month && ws[5] == t.day && ws[7] == t.hour
      && ws[9] == t.minute && ws[11] == t.second && ws[13] == t.fraction
      && ws[21] == e.partition && ws[25] == e.directory
      && ws[30] == Text.Digits(e.offset) && ws[34] == Text.Digits(e.duration)
  {
    PiecesTimestampFields(e);
    PiecesEventFields(e);
  }

  lemma PiecesTimestampFields(e: Entry)
    ensures var ws := Pieces(e); var t := e.timestamp;
      && ws[1] == t.year && ws[3] == t.month && ws[5] == t.day && ws[7] == t.hour
      && ws[9] == t.minute && ws[11] == t.second && ws[13] == t.fraction
  {
    PiecesDateFields(e);
    PiecesTimeFields(e);
  }

  lemma PiecesDateFields(e: Entry)
    ensures var ws := Pieces(e); var t := e.timestamp;
      ws[1] == t.year && ws[3] == t.month && ws[5] == t.day
  {
  }

  lemma PiecesTimeFields(e: Entry)
    ensures var ws := Pieces(e); var t := e.timestamp;
      ws[7] == t.hour && ws[9] == t.minute && ws[11] == t.second && ws[13] == t.fraction
  {
  }

  lemma PiecesEventFields(e: Entry)
    ensures var ws := Pieces(e);
      && ws[21] == e.partition && ws[25] == e.directory
      && ws[30] == Text.Digits(e.offset) && ws[34] == Text.Digits(e.duration)
  {
  }

  /** Round trip: the line the broker writes for an entry, followed by any
      text, is recognised and yields that very entry. */
  lemma FormatParseRoundTrip(e: Entry, rest: string)
    requires Renderable(e)
    ensures ParseLine(FormatLine(e) + rest) == Some(e)
  {
    var line := FormatLine(e) + rest;
    var ws := Pieces(e);
    EntryOfPieces(e);
    assert line[0..|Concat(ws)|] == Concat(ws);
    assert MatchesAt(LinePattern, line, 0, ws);
    LinePatternSeparated();
    MatchSeqComplete(LinePattern, line, 0, ws);
    assert Search(LinePattern, line) == Some((0, ws));
    PreFilterRedundant(line);
  }

  /** The log is scanned line by line: entries follow the order of the lines
      that yield them, and a log split in two parses as the two halves. */
  lemma ParseLogAppend(a: seq<string>, b: seq<string>)
    ensures ParseLog(a + b) == ParseLog(a) + ParseLog(b)
  {
    RecognisedAppend(ParseLine, a, b);
  }

  lemma {:induction false} RecognisedAppend(parse: string -> Option<Entry>, a: seq<string>, b: seq<string>)
    ensures Recognised(parse, a + b) == Recognised(parse, a) + Recognised(parse, b)
  {
    if a != [] {
      assert (a + b)[0] == a[0] && (a + b)[1..] == a[1..] + b;
      RecognisedAppend(parse, a[1..], b);
    } else {
      assert a + b == b;
    }
  }

  /** Each line contributes what `ParseLine` gives it: an entry or nothing. */
  lemma ParseLogLine(line: string)
    ensures ParseLog([line]) == (match ParseLine(line) case None => [] case Some(e) => [e])
  {
    assert [line][1..] == [];
  }

  /** The parse is empty exactly when no line yields an entry. */
  lemma ParseLogEmpty(lines: seq<string>)
    ensures ParseLog(lines) == [] <==> forall k :: 0 <= k < |lines| ==> ParseLine(lines[k]).None?
  {
    RecognisedEmpty(ParseLine, lines);
  }

  lemma {:induction false} RecognisedEmpty(parse: string -> Option<Entry>, lines: seq<string>)
    ensures Recognised(parse, lines) == [] <==> forall k :: 0 <= k < |lines| ==> parse(lines[k]).None?
  {
    if lines != [] {
      RecognisedEmpty(parse, lines[1..]);
      assert forall k :: 1 <= k < |lines| ==> lines[k] == lines[1..][k - 1];
    }
  }
}
