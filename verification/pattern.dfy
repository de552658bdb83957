/**
 * A regular expression of the restricted shape the segment-roll analyser uses:
 * a sequence of atoms, each a literal, a fixed-count character class (`\d{4}`)
 * or a character-class run with a lower bound (`\s*`, `\s+`, `[^\]]+`).
 *
 * Two definitions are given and related:
 *  - `MatchesAt`, the language semantics: the atoms spell consecutive pieces
 *    of the input starting at a position (what Python's `re` accepts there);
 *  - `MatchSeq`, a greedy left-to-right scanner that never backtracks.
 * When every run is followed by an atom that must start with a character
 * outside the run's class (`Separated`), the two agree and the pieces at a
 * position are unique, so backtracking order, greediness and laziness all
 * produce the same groups. `Search` is Python's `re.search`: the leftmost
 * position where the pattern matches.
 */
module Pattern {
  import opened Wrappers
  import Text

  datatype Class =
    | Digit            // \d
    | Space            // \s
    | PartitionChar    // [\w\.\-]
    | NotCloseBracket  // [^\]]

  predicate InClass(c: char, cls: Class) {
    match cls
    case Digit => Text.IsDigit(c)
    case Space => Text.IsSpace(c)
    case PartitionChar => Text.IsWordChar(c) || c == '.' || c == '-'
    case NotCloseBracket => c != ']'
  }

  predicate AllIn(w: string, cls: Class) {
    forall k :: 0 <= k < |w| ==> InClass(w[k], cls)
  }

  datatype Atom =
    | Lit(text: string)            // a literal
    | Exactly(cls: Class, n: nat)  // cls{n}
    | Run(cls: Class, least: nat)  // cls* (least 0) or cls+ (least 1), greedy

  /** The piece `w` is one the atom accepts on its own. */
  predicate Accepts(a: Atom, w: string) {
    match a
    case Lit(t) => w == t
    case Exactly(c, n) => |w| == n && AllIn(w, c)
    case Run(c, m) => |w| >= m && AllIn(w, c)
  }

  function Concat(ws: seq<string>): string {
    if ws == [] then [] else ws[0] + Concat(ws[1..])
  }

  /** One accepted piece per atom. */
  ghost predicate Spells(p: seq<Atom>, ws: seq<string>) {
    |ws| == |p| && forall k :: 0 <= k < |p| ==> Accepts(p[k], ws[k])
  }

  /** The pattern matches `s` at position `i`, with `ws` the text each atom consumed. */
  ghost predicate MatchesAt(p: seq<Atom>, s: string, i: nat, ws: seq<string>) {
    Spells(p, ws) && Text.OccursAt(s, Concat(ws), i)
  }

  ghost predicate Disjoint(c1: Class, c2: Class) {
    forall ch :: !(InClass(ch, c1) && InClass(ch, c2))
  }

  /** Every piece the atom `b` accepts is non-empty and starts outside `cls`. */
  ghost predicate StartsOutside(b: Atom, cls: Class) {
    match b
    case Lit(t) => |t| > 0 && !InClass(t[0], cls)
    case Exactly(c, n) => n > 0 && Disjoint(c, cls)
    case Run(c, m) => m > 0 && Disjoint(c, cls)
  }

  /** Every run is followed by an atom that cannot begin with a character of the run's class. */
  ghost predicate Separated(p: seq<Atom>) {
    forall k :: 0 <= k < |p| && p[k].Run? ==> k + 1 < |p| && StartsOutside(p[k + 1], p[k].cls)
  }

  /** End of the longest run of `cls` characters starting at `i`. */
  function RunEnd(cls: Class, s: string, i: nat): (j: nat)
    requires i <= |s|
    ensures i <= j <= |s| && AllIn(s[i..j], cls)
    ensures j < |s| ==> !InClass(s[j], cls)
    decreases |s| - i
  {
    if i < |s| && InClass(s[i], cls) then
      var j := RunEnd(cls, s, i + 1);
      assert s[i..j] == [s[i]] + s[i + 1..j];
      j
    else i
  }

  /** Greedy match of one atom at `i`: the end of the piece it takes. */
  function MatchAtom(a: Atom, s: string, i: nat): (r: Option<nat>)
    requires i <= |s|
    ensures r.Some? ==> i <= r.value <= |s| && Accepts(a, s[i..r.value])
  {
    match a
    case Lit(t) =>
      if i + |t| <= |s| && s[i..i + |t|] == t then Some(i + |t|) else None
    case Exactly(c, n) =>
      if i + n <= |s| && AllIn(s[i..i + n], c) then Some(i + n) else None
    case Run(c, m) =>
      var j := RunEnd(c, s, i);
      if j - i >= m then Some(j) else None
  }

  /** Greedy, non-backtracking match of the whole atom sequence at `i`. */
  function MatchSeq(p: seq<Atom>, s: string, i: nat): (r: Option<seq<string>>)
    requires i <= |s|
    ensures r.Some? ==> MatchesAt(p, s, i, r.value)
    decreases |p|
  {
    if p == [] then Some([])
    else
      match MatchAtom(p[0], s, i)
      case None => None
      case Some(j) =>
        match MatchSeq(p[1..], s, j)
        case None => None
        case Some(ws) =>
          MatchesCons(p, s, i, j, ws);
          Some([s[i..j]] + ws)
  }

  /** A piece the first atom accepts, followed by a match of the other atoms,
      is a match of the whole sequence. */
  lemma MatchesCons(p: seq<Atom>, s: string, i: nat, j: nat, ws: seq<string>)
    requires |p| > 0 && i <= j <= |s| && Accepts(p[0], s[i..j])
    requires MatchesAt(p[1..], s, j, ws)
    ensures MatchesAt(p, s, i, [s[i..j]] + ws)
  {
    var w := s[i..j];
    var r := [w] + ws;
    assert r[1..] == ws;
    assert s[i..j + |Concat(ws)|] == w + s[j..j + |Concat(ws)|];
    assert forall k :: 1 <= k < |p| ==> p[k] == p[1..][k - 1] && r[k] == ws[k - 1];
  }

  lemma SeparatedTail(p: seq<Atom>)
    requires |p| > 0 && Separated(p)
    ensures Separated(p[1..])
  {
    forall k | 0 <= k < |p[1..]| && p[1..][k].Run?
      ensures k + 1 < |p[1..]| && StartsOutside(p[1..][k + 1], p[1..][k].cls)
    {
      assert p[1..][k] == p[k + 1];
    }
  }

  /** A non-empty piece sequence whose first piece is non-empty starts with that piece's first char. */
  lemma ConcatHead(ws: seq<string>)
    requires |ws| > 0 && |ws[0]| > 0
    ensures |Concat(ws)| > 0 && Concat(ws)[0] == ws[0][0]
  {
  }

  lemma StartsOutsideFirst(b: Atom, cls: Class, w: string)
    requires StartsOutside(b, cls) && Accepts(b, w)
    ensures |w| > 0 && !InClass(w[0], cls)
  {
  }

  /** Any run of `cls` characters that stops at a non-`cls` character (or the end) is the longest one. */
  lemma {:induction false} RunEndExact(cls: Class, s: string, i: nat, j: nat)
    requires i <= j <= |s| && AllIn(s[i..j], cls)
    requires j < |s| ==> !InClass(s[j], cls)
    ensures RunEnd(cls, s, i) == j
    decreases j - i
  {
    if i < j {
      assert s[i] == s[i..j][0];
      assert s[i + 1..j] == s[i..j][1..];
      RunEndExact(cls, s, i + 1, j);
    }
  }

  /** Completeness and uniqueness: on a separated pattern, every way the
      language semantics matches at `i` is the one the greedy scanner finds. */
  lemma {:induction false} MatchSeqComplete(p: seq<Atom>, s: string, i: nat, ws: seq<string>)
    requires Separated(p) && MatchesAt(p, s, i, ws)
    ensures MatchSeq(p, s, i) == Some(ws)
    decreases |p|
  {
    if p != [] {
      var j := MatchesSplit(p, s, i, ws);
      FirstAtomExact(p, s, i, j, ws);
      SeparatedTail(p);
      MatchSeqComplete(p[1..], s, j, ws[1..]);
      assert ws == [s[i..j]] + ws[1..];
    }
  }

  /** A match at `i` splits into the first atom's piece, ending at `j`, and a
      match of the other atoms at `j`. */
  lemma MatchesSplit(p: seq<Atom>, s: string, i: nat, ws: seq<string>) returns (j: nat)
    requires p != [] && MatchesAt(p, s, i, ws)
    ensures j == i + |ws[0]| && j <= |s| && s[i..j] == ws[0] && Accepts(p[0], ws[0])
    ensures MatchesAt(p[1..], s, j, ws[1..])
  {
    var w := ws[0];
    var rest := ws[1..];
    assert ws == [w] + rest;
    j := i + |w|;
    assert Concat(ws) == w + Concat(rest);
    assert s[i..j] == s[i..i + |Concat(ws)|][..|w|];
    assert Text.OccursAt(s, Concat(rest), j) by {
      assert s[j..j + |Concat(rest)|] == s[i..i + |Concat(ws)|][|w|..];
    }
    assert Spells(p[1..], rest) by {
      assert forall k :: 0 <= k < |rest| ==> p[1..][k] == p[k + 1] && rest[k] == ws[k + 1];
    }
  }

  /** On a separated pattern the scanner's first atom stops exactly where the
      match's first piece ends. */
  lemma FirstAtomExact(p: seq<Atom>, s: string, i: nat, j: nat, ws: seq<string>)
    requires p != [] && Separated(p) && MatchesAt(p, s, i, ws)
    requires j == i + |ws[0]| && j <= |s| && s[i..j] == ws[0] && Accepts(p[0], ws[0])
    requires MatchesAt(p[1..], s, j, ws[1..])
    ensures MatchAtom(p[0], s, i) == Some(j)
  {
    match p[0] {
      case Lit(t) =>
      case Exactly(c, n) =>
      case Run(c, m) =>
        assert p[1..][0] == p[1];
        StartsOutsideFirst(p[1], c, ws[1]);
        ConcatHead(ws[1..]);
        assert s[j] == Concat(ws[1..])[0];
        RunEndExact(c, s, i, j);
    }
  }

  /** Python's `re.search` from position `i` on: the first position where the
      greedy scanner matches, with its pieces. */
  function SearchFrom(p: seq<Atom>, s: string, i: nat): (r: Option<(nat, seq<string>)>)
    requires i <= |s|
    ensures r.Some? ==> i <= r.value.0 <= |s| && MatchesAt(p, s, r.value.0, r.value.1)
    decreases |s| - i
  {
    match MatchSeq(p, s, i)
    case Some(ws) => Some((i, ws))
    case None => if i == |s| then None else SearchFrom(p, s, i + 1)
  }

  /** `SearchFrom` returns the first position from `i` on where the scanner
      matches, and nothing only when it matches nowhere from `i` on. */
  lemma {:induction false} SearchFromLeftmost(p: seq<Atom>, s: string, i: nat)
    requires i <= |s|
    ensures var r := SearchFrom(p, s, i);
      && (r.Some? ==> r.value.0 <= |s| && MatchSeq(p, s, r.value.0) == Some(r.value.1))
      && (r.Some? ==> forall j :: i <= j < r.value.0 ==> MatchSeq(p, s, j).None?)
      && (r.None? ==> forall j :: i <= j <= |s| ==> MatchSeq(p, s, j).None?)
    decreases |s| - i
  {
    var r := SearchFrom(p, s, i);
    if MatchSeq(p, s, i).Some? {
      assert r == Some((i, MatchSeq(p, s, i).value));
    } else if i == |s| {
      assert r.None?;
    } else {
      assert r == SearchFrom(p, s, i + 1);
      SearchFromLeftmost(p, s, i + 1);
      if r.Some? {
        forall j | i <= j < r.value.0 ensures MatchSeq(p, s, j).None? {
          if j > i {
            assert i + 1 <= j;
          }
        }
      } else {
        forall j | i <= j <= |s| ensures MatchSeq(p, s, j).None? {
          if j > i {
            assert i + 1 <= j;
          }
        }
      }
    }
  }

  function Search(p: seq<Atom>, s: string): Option<(nat, seq<string>)> {
    SearchFrom(p, s, 0)
  }

  /** For a separated pattern, `Search` finds a match exactly when the pattern
      occurs somewhere, at the leftmost such position, with the only pieces
      possible there. */
  lemma SearchSpec(p: seq<Atom>, s: string)
    requires Separated(p)
    ensures Search(p, s).Some? <==> exists j: nat, ws :: j <= |s| && MatchesAt(p, s, j, ws)
    ensures Search(p, s).Some? ==>
      var (j, ws) := Search(p, s).value;
      && MatchesAt(p, s, j, ws)
      && (forall j': nat, ws' :: j' < j && MatchesAt(p, s, j', ws') ==> false)
      && (forall ws' :: MatchesAt(p, s, j, ws') ==> ws' == ws)
  {
    SearchFromLeftmost(p, s, 0);
    forall j: nat, ws | j <= |s| && MatchesAt(p, s, j, ws)
      ensures Search(p, s).Some? && Search(p, s).value.0 <= j
    {
      MatchSeqComplete(p, s, j, ws);
    }
    if Search(p, s).Some? {
      var (j, ws) := Search(p, s).value;
      forall ws' | MatchesAt(p, s, j, ws')
        ensures ws' == ws
      {
        MatchSeqComplete(p, s, j, ws');
        MatchSeqComplete(p, s, j, ws);
      }
    }
  }
}
