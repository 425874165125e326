/** An optional value, for Python's `None` and Java's `null`. */
module Wrappers {

  datatype Option<T> = None | Some(value: T)
}

/** Character classes and the scanning primitives that the script's regular
    expressions and string methods are built from. */
module Text {
  import opened Wrappers

  /** Python's `\s` on a `str` pattern: the characters Py_UNICODE_ISSPACE
      accepts. */
  predicate IsSpace(c: char) {
    var n := c as int;
    (9 <= n <= 13) || (28 <= n <= 32) || n == 0x85 || n == 0xA0 || n == 0x1680
    || (0x2000 <= n <= 0x200A) || n == 0x2028 || n == 0x2029 || n == 0x202F
    || n == 0x205F || n == 0x3000
  }

  /** An ASCII decimal digit, `[0-9]`. */
  predicate IsDigit(c: char) {
    '0' <= c <= '9'
  }

  /** A character of `'0123456789abcdefABCDEF'`. */
  predicate IsHexDigit(c: char) {
    ('0' <= c <= '9') || ('a' <= c <= 'f') || ('A' <= c <= 'F')
  }

  predicate NotQuote(c: char) {
    c != '"'
  }

  predicate NotCloseBrace(c: char) {
    c != '}'
  }

  predicate NotCloseParen(c: char) {
    c != ')'
  }

  predicate AllSpace(s: string) {
    forall i :: 0 <= i < |s| ==> IsSpace(s[i])
  }

  predicate AllDigits(s: string) {
    forall i :: 0 <= i < |s| ==> IsDigit(s[i])
  }

  predicate AllHex(s: string) {
    forall i :: 0 <= i < |s| ==> IsHexDigit(s[i])
  }

  /** The length of the longest prefix of `t` whose characters all satisfy
      `p`: what a greedy `[...]*` consumes. */
  function Span(t: string, p: char -> bool): (n: nat)
    ensures n <= |t|
    ensures forall i :: 0 <= i < n ==> p(t[i])
    ensures n < |t| ==> !p(t[n])
  {
    if t != [] && p(t[0]) then 1 + Span(t[1..], p) else 0
  }

  /** A greedy run stops exactly where the characters satisfying `p` end. */
  lemma SpanOf(a: string, b: string, p: char -> bool)
    requires forall i :: 0 <= i < |a| ==> p(a[i])
    requires b == [] || !p(b[0])
    ensures Span(a + b, p) == |a|
  {
    if b != [] {
      assert (a + b)[|a|] == b[0];
    }
    assert forall i :: 0 <= i < |a| ==> (a + b)[i] == a[i];
  }

  /** Two consecutive pieces at the start of `t` make one. */
  lemma PrefixJoin(t: string, a: string, b: string)
    requires a <= t && b <= t[|a|..]
    ensures a + b <= t
  {
    assert (a + b) == t[..|a|] + t[|a|..][..|b|];
    assert t[..|a| + |b|] == t[..|a|] + t[|a|..][..|b|];
  }

  /** Three consecutive pieces at the start of `t` make one. */
  lemma PrefixJoin3(t: string, a: string, b: string, c: string)
    requires a <= t && b <= t[|a|..] && c <= t[|a| + |b|..]
    ensures a + b + c <= t
  {
    PrefixJoin(t, a, b);
    assert t[|a| + |b|..] == t[|a + b|..];
    PrefixJoin(t, a + b, c);
  }

  /** Four consecutive pieces at the start of `t` make one. */
  lemma PrefixJoin4(t: string, a: string, b: string, c: string, d: string)
    requires a <= t && b <= t[|a|..] && c <= t[|a| + |b|..] && d <= t[|a| + |b| + |c|..]
    ensures a + b + c + d <= t
  {
    PrefixJoin(t, a, b);
    assert t[|a| + |b|..] == t[|a + b|..];
    PrefixJoin(t, a + b, c);
    assert t[|a| + |b| + |c|..] == t[|a + b + c|..];
    PrefixJoin(t, a + b + c, d);
  }

  /** The white space a greedy `\s*` consumes at the start of `u`. */
  function SpaceRun(u: string): (n: nat)
    ensures n <= |u| && AllSpace(u[..n]) && (n < |u| ==> !IsSpace(u[n]))
  {
    Span(u, IsSpace)
  }

  /** `pat` occurs in `s` at index `i`. */
  predicate OccursAt(s: string, pat: string, i: nat) {
    i + |pat| <= |s| && s[i..i + |pat|] == pat
  }

  /** Python's `s.find(pat, start)`, with `None` standing for -1: the first
      index at or after `start` where `pat` occurs. */
  function Find(s: string, pat: string, start: nat): (r: Option<nat>)
    decreases |s| - start
    ensures r.Some? ==> start <= r.value && OccursAt(s, pat, r.value)
    ensures r.Some? ==> forall j :: start <= j < r.value ==> !OccursAt(s, pat, j)
    ensures r.None? ==> forall j :: start <= j ==> !OccursAt(s, pat, j)
  {
    if start + |pat| > |s| then None
    else if s[start..start + |pat|] == pat then Some(start)
    else Find(s, pat, start + 1)
  }

  /** `find` returns the first occurrence at or after `start`. */
  lemma FindFirst(s: string, pat: string, start: nat, i: nat)
    requires start <= i && OccursAt(s, pat, i)
    requires forall j :: start <= j < i ==> !OccursAt(s, pat, j)
    ensures Find(s, pat, start) == Some(i)
  {
    var r := Find(s, pat, start);
    assert r.Some?;
  }

  /** `find` from the start sees only the occurrences inside a prefix when
      the first one lies there. */
  lemma FindInPrefix(head: string, rest: string, pat: string, i: nat)
    requires OccursAt(head, pat, i)
    requires forall j :: 0 <= j < i ==> !OccursAt(head, pat, j)
    ensures Find(head + rest, pat, 0) == Some(i)
  {
    var s := head + rest;
    assert s[..|head|] == head;
    forall j | 0 <= j <= i
      ensures OccursAt(s, pat, j) == OccursAt(head, pat, j)
    {
      assert s[j..j + |pat|] == head[j..j + |pat|];
    }
    FindFirst(s, pat, 0, i);
  }

  /** `find` of a single character returns its first position from
      `start` on. */
  lemma FindCharAt(s: string, c: char, start: nat, b: nat)
    requires start <= b < |s| && s[b] == c
    requires forall j :: start <= j < b ==> s[j] != c
    ensures Find(s, [c], start) == Some(b)
  {
    forall j | start <= j <= b
      ensures OccursAt(s, [c], j) == (s[j] == c)
    {
      assert s[j..j + 1] == [s[j]];
    }
    FindFirst(s, [c], start, b);
  }

  /** `find` of a character from the end of `head` stops at the start of
      `tail` when `gap` does not hold the character. */
  lemma FindCharAfter(head: string, gap: string, tail: string, c: char)
    requires c !in gap && tail != [] && tail[0] == c
    ensures Find(head + gap + tail, [c], |head|) == Some(|head| + |gap|)
  {
    var s := head + gap + tail;
    forall j | |head| <= j < |head| + |gap|
      ensures s[j] != c
    {
      assert s[j] == gap[j - |head|];
    }
    FindCharAt(s, c, |head|, |head| + |gap|);
  }

  /** `find` of a single character that does not occur from `start` on. */
  lemma FindCharNone(s: string, c: char, start: nat)
    requires forall j :: start <= j < |s| ==> s[j] != c
    ensures Find(s, [c], start) == None
  {
    forall j | start <= j
      ensures !OccursAt(s, [c], j)
    {
      if j + 1 <= |s| {
        assert s[j..j + 1] == [s[j]];
      }
    }
  }

  function DigitValue(c: char): nat
    requires IsDigit(c)
  {
    (c as int) - ('0' as int)
  }

  /** Python's `int(d)` on a string of ASCII digits. */
  function DecimalValue(d: string): nat
    requires AllDigits(d)
  {
    if d == [] then 0 else 10 * DecimalValue(d[..|d| - 1]) + DigitValue(d[|d| - 1])
  }
}
