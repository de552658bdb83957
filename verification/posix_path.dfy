/**
 * The two `os.path` operations the dump relies on, for POSIX paths:
 * `join` of two components and `basename`, plus splitting a path at '/'.
 */
module PosixPath {

  predicate NoSlash(s: string) {
    forall k :: 0 <= k < |s| ==> s[k] != '/'
  }

  /** `os.path.join(a, b)`: an absolute `b` replaces `a`; otherwise a '/' is
      put between them unless `a` is empty or already ends with one. */
  function Join(a: string, b: string): (r: string)
    ensures |b| > 0 && b[0] == '/' ==> r == b
    ensures !(|b| > 0 && b[0] == '/') ==>
      && |r| >= |a| + |b| && r[..|a|] == a && r[|r| - |b|..] == b
      && |r| - |a| - |b| == (if a == [] || a[|a| - 1] == '/' then 0 else 1)
      && (|r| > |a| + |b| ==> r[|a|] == '/')
  {
    if |b| > 0 && b[0] == '/' then b
    else if a == [] || a[|a| - 1] == '/' then a + b
    else a + "/" + b
  }

  /** Where the last component starts: just after the last '/', or 0. */
  function LastSlashEnd(s: string): (k: nat)
    ensures k <= |s| && NoSlash(s[k..])
    ensures k > 0 ==> s[k - 1] == '/'
  {
    if s == [] then 0
    else if s[|s| - 1] == '/' then |s|
    else
      var k := LastSlashEnd(s[..|s| - 1]);
      assert s[k..] == s[..|s| - 1][k..] + [s[|s| - 1]];
      k
  }

  /** Those two facts pin the position down. */
  lemma LastSlashEndUnique(s: string, j: nat)
    requires j <= |s| && NoSlash(s[j..])
    requires j > 0 ==> s[j - 1] == '/'
    ensures LastSlashEnd(s) == j
  {
    var k := LastSlashEnd(s);
    if j > 0 {
      SlashBefore(s, k, j);
    }
    if k > 0 {
      SlashBefore(s, j, k);
    }
  }

  /** A '/' at position `b - 1` lies before any slash-free suffix `s[a..]`. */
  lemma SlashBefore(s: string, a: nat, b: nat)
    requires a <= |s| && NoSlash(s[a..])
    requires 0 < b <= |s| && s[b - 1] == '/'
    ensures b <= a
  {
    forall i | a <= i < |s| ensures s[i] != '/' {
      assert s[a..][i - a] == s[i];
    }
  }

  /** `os.path.basename`: what follows the last '/' (all of `s` if there is none). */
  function Basename(s: string): (r: string)
    ensures |r| <= |s| && r == s[|s| - |r|..]
    ensures NoSlash(r)
    ensures |r| < |s| ==> s[|s| - |r| - 1] == '/'
  {
    s[LastSlashEnd(s)..]
  }

  /** The basename of a joined path is the basename of its last component,
      whatever the directory. */
  lemma BasenameJoin(a: string, b: string)
    ensures Basename(Join(a, b)) == Basename(b)
  {
    if |b| > 0 && b[0] == '/' {
    } else if a == [] {
      assert Join(a, b) == b;
    } else if a[|a| - 1] == '/' {
      var a' := a[..|a| - 1];
      assert a == a' + "/";
      assert Join(a, b) == a' + "/" + b;
      BasenameAfterSlash(a', b);
    } else {
      BasenameAfterSlash(a, b);
    }
  }

  /** A name without '/' is its own basename. */
  lemma BasenameOfName(n: string)
    requires NoSlash(n)
    ensures Basename(n) == n
  {
    assert n[0..] == n;
    LastSlashEndUnique(n, 0);
  }

  /** Joining a slash-free name onto any directory keeps the name as the basename. */
  lemma BasenameJoinName(a: string, n: string)
    requires NoSlash(n)
    ensures Basename(Join(a, n)) == n
  {
    BasenameJoin(a, n);
    BasenameOfName(n);
  }

  /** Joins slash-free segments with '/'. */
  function JoinAll(parts: seq<string>): string
    requires |parts| > 0
  {
    if |parts| == 1 then parts[0] else parts[0] + "/" + JoinAll(parts[1..])
  }

  /** Whatever precedes the last '/' does not matter. */
  lemma BasenameAfterSlash(x: string, y: string)
    ensures Basename(x + "/" + y) == Basename(y)
  {
    var s := x + "/" + y;
    var k := LastSlashEnd(y);
    var j := |x| + 1 + k;
    assert s[j..] == y[k..];
    assert s[j - 1] == '/';
    LastSlashEndUnique(s, j);
  }

  /** The basename of a joined path is the basename of its last segment. */
  lemma {:induction false} BasenameJoinAll(parts: seq<string>)
    requires |parts| > 0
    ensures Basename(JoinAll(parts)) == Basename(parts[|parts| - 1])
  {
    if |parts| > 1 {
      BasenameAfterSlash(parts[0], JoinAll(parts[1..]));
      BasenameJoinAll(parts[1..]);
    }
  }

  /** `s.split("/")`. */
  function Split(s: string): (parts: seq<string>)
    ensures |parts| > 0
    ensures forall i :: 0 <= i < |parts| ==> NoSlash(parts[i])
    decreases |s|
  {
    var k := FirstSlash(s);
    if k == |s| then [s] else [s[..k]] + Split(s[k + 1..])
  }

  /** Index of the first '/' (|s| if there is none). */
  function FirstSlash(s: string): (k: nat)
    ensures k <= |s| && NoSlash(s[..k])
    ensures k < |s| ==> s[k] == '/'
  {
    if s == [] || s[0] == '/' then 0 else 1 + FirstSlash(s[1..])
  }

  /** Splitting undoes joining: the segments of a path built from slash-free
      parts are those parts. */
  lemma {:induction false} SplitJoinAll(parts: seq<string>)
    requires |parts| > 0 && forall i :: 0 <= i < |parts| ==> NoSlash(parts[i])
    ensures Split(JoinAll(parts)) == parts
  {
    var p := parts[0];
    FirstSlashOf(p, if |parts| == 1 then [] else "/" + JoinAll(parts[1..]));
    if |parts| > 1 {
      var s := p + "/" + JoinAll(parts[1..]);
      assert JoinAll(parts) == s == p + ("/" + JoinAll(parts[1..]));
      assert FirstSlash(s) == |p| < |s|;
      assert s[|p| + 1..] == JoinAll(parts[1..]);
      assert s[..|p|] == p;
      assert Split(s) == [p] + Split(JoinAll(parts[1..]));
      SplitJoinAll(parts[1..]);
      assert parts == [p] + parts[1..];
    } else {
      assert p + [] == p;
    }
  }

  /** The first slash of `p + t` for slash-free `p` is where `t` starts, when `t` starts with one. */
  lemma {:induction false} FirstSlashOf(p: string, t: string)
    requires NoSlash(p) && (t == [] || t[0] == '/')
    ensures FirstSlash(p + t) == |p|
  {
    if p != [] {
      assert (p + t)[1..] == p[1..] + t;
      FirstSlashOf(p[1..], t);
    } else {
      assert p + t == t;
    }
  }
}
