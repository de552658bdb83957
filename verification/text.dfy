/**
 * ASCII character classes and the few string operations of Python's `str` the
 * scripts rely on: `\d`, `\s`, `\w`, `int()` on a digit run, `strip()`,
 * `rstrip(c)`, `lower()` and the `in` substring test.
 */
module Text {

  /** Python's `\d` restricted to ASCII. */
  predicate IsDigit(c: char) {
    '0' <= c <= '9'
  }

  /** Python's `\s` (and `str.isspace`) restricted to ASCII: tab, newline,
      vertical tab, form feed, carriage return, the four separators 0x1C-0x1F
      and space. */
  predicate IsSpace(c: char) {
    var n := c as int;
    (9 <= n <= 13) || (28 <= n <= 32)
  }

  /** Python's `\w` restricted to ASCII: letters, digits and underscore. */
  predicate IsWordChar(c: char) {
    ('a' <= c <= 'z') || ('A' <= c <= 'Z') || IsDigit(c) || c == '_'
  }

  predicate AllDigits(s: string) {
    forall k :: 0 <= k < |s| ==> IsDigit(s[k])
  }

  predicate AllSpace(s: string) {
    forall k :: 0 <= k < |s| ==> IsSpace(s[k])
  }

  function DigitValue(c: char): nat
    requires IsDigit(c)
  {
    (c as int) - ('0' as int)
  }

  function DigitChar(d: nat): (c: char)
    requires d < 10
    ensures IsDigit(c) && DigitValue(c) == d
  {
    (('0' as int) + d) as char
  }

  /** The value `int()` gives a run of decimal digits (leading zeros allowed). */
  function DecimalValue(s: string): nat
    requires AllDigits(s)
  {
    if s == [] then 0
    else DecimalValue(s[..|s| - 1]) * 10 + DigitValue(s[|s| - 1])
  }

  /** The canonical decimal spelling of a natural number (Python's `str(n)`). */
  function Digits(n: nat): (s: string)
    ensures |s| > 0 && AllDigits(s)
  {
    if n < 10 then [DigitChar(n)] else Digits(n / 10) + [DigitChar(n % 10)]
  }

  /** Reading back the canonical spelling gives the number again. */
  lemma {:induction false} DecimalValueOfDigits(n: nat)
    ensures DecimalValue(Digits(n)) == n
  {
    var s := Digits(n);
    if n >= 10 {
      DecimalValueOfDigits(n / 10);
      assert s[..|s| - 1] == Digits(n / 10);
    }
  }

  /** `t` occurs in `s` starting at index `i`. */
  predicate OccursAt(s: string, t: string, i: nat) {
    i + |t| <= |s| && s[i..i + |t|] == t
  }

  /** An occurrence inside an occurrence is an occurrence. */
  lemma OccursAtTrans(s: string, u: string, i: nat, t: string, m: nat)
    requires OccursAt(s, u, i) && OccursAt(u, t, m)
    ensures OccursAt(s, t, i + m)
  {
    assert forall q :: 0 <= q < |t| ==> s[i + m + q] == u[m + q] == t[q];
  }

  /** Python's `t in s` for strings. */
  predicate Contains(s: string, t: string) {
    exists i | 0 <= i <= |s| :: OccursAt(s, t, i)
  }

  /** Index of the first non-whitespace character (|s| if none). */
  function LeadingSpace(s: string): (a: nat)
    ensures a <= |s| && AllSpace(s[..a])
    ensures a < |s| ==> !IsSpace(s[a])
  {
    if s == [] || !IsSpace(s[0]) then 0
    else
      var a := 1 + LeadingSpace(s[1..]);
      assert s[..a] == [s[0]] + s[1..][..a - 1];
      a
  }

  /** Index just past the last non-whitespace character (0 if none). */
  function TrailingEnd(s: string): (b: nat)
    ensures b <= |s| && AllSpace(s[b..])
    ensures b > 0 ==> !IsSpace(s[b - 1])
  {
    if s == [] || !IsSpace(s[|s| - 1]) then |s|
    else
      var b := TrailingEnd(s[..|s| - 1]);
      assert s[b..] == s[..|s| - 1][b..] + [s[|s| - 1]];
      b
  }

  /** Python's `s.strip()`: drop leading and trailing whitespace. */
  function Strip(s: string): (r: string)
    ensures exists a, b :: 0 <= a <= b <= |s| && r == s[a..b] && AllSpace(s[..a]) && AllSpace(s[b..])
    ensures r != [] ==> !IsSpace(r[0]) && !IsSpace(r[|r| - 1])
  {
    var a := LeadingSpace(s);
    var t := s[a..];
    var b := TrailingEnd(t);
    assert s[a..][..b] == s[a..a + b];
    assert s[a + b..] == t[b..];
    assert b > 0 ==> t[0] == s[a];
    t[..b]
  }

  predicate IsStripped(s: string) {
    s == [] || (!IsSpace(s[0]) && !IsSpace(s[|s| - 1]))
  }

  /** A string without leading or trailing whitespace is its own strip, so
      stripping is idempotent. */
  lemma StripFixed(s: string)
    requires IsStripped(s)
    ensures Strip(s) == s
  {
  }

  /** Python's `s.rstrip(c)`: drop every trailing occurrence of `c`. */
  function RStrip(s: string, c: char): (r: string)
    ensures |r| <= |s| && r == s[..|r|]
    ensures forall k :: |r| <= k < |s| ==> s[k] == c
    ensures r != [] ==> r[|r| - 1] != c
  {
    if s != [] && s[|s| - 1] == c then RStrip(s[..|s| - 1], c) else s
  }

  /** Trailing copies of `c` never matter to `rstrip(c)`. */
  lemma {:induction false} RStripAbsorbs(s: string, c: char, n: nat)
    ensures RStrip(s + seq(n, _ => c), c) == RStrip(s, c)
  {
    var t := s + seq(n, _ => c);
    if n == 0 {
      assert t == s;
    } else {
      assert t[|t| - 1] == c;
      assert t[..|t| - 1] == s + seq(n - 1, _ => c);
      RStripAbsorbs(s, c, n - 1);
    }
  }

  function LowerChar(c: char): char {
    if 'A' <= c <= 'Z' then (c as int + 32) as char else c
  }

  /** Python's `s.lower()` restricted to ASCII letters. */
  function Lower(s: string): (r: string)
    ensures |r| == |s|
    ensures forall k :: 0 <= k < |s| ==> r[k] == LowerChar(s[k])
  {
    seq(|s|, k requires 0 <= k < |s| => LowerChar(s[k]))
  }

  /** The lower-cased string has no upper-case ASCII letter, and lowering twice
      changes nothing. */
  lemma LowerNormalises(s: string)
    ensures forall k :: 0 <= k < |s| ==> !('A' <= Lower(s)[k] <= 'Z')
    ensures Lower(Lower(s)) == Lower(s)
  {
  }
}
