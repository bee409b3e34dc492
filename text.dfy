/**
 * String helpers shared by the locator and the git parsers: the substring test
 * (Python's `t in s`), prefix and suffix tests, POSIX `os.path.join` of two
 * components, and the runs of characters that `strip` and `\s*` consume.
 */
module Text {

  /** `t` occurs in `s` at index `i`. */
  ghost predicate InfixAt(s: string, t: string, i: int)
  {
    0 <= i && i + |t| <= |s| && s[i..i + |t|] == t
  }

  /** Python's substring test `t in s`, scanning from the left. */
  predicate HasInfix(s: string, t: string)
    decreases |s|
  {
    |t| <= |s| && (s[..|t|] == t || (|s| > 0 && HasInfix(s[1..], t)))
  }

  /** The scan finds `t` exactly when `t` occurs at some index of `s`. */
  lemma {:induction false} HasInfixIff(s: string, t: string)
    decreases |s|
    ensures HasInfix(s, t) <==> exists i :: InfixAt(s, t, i)
  {
    if |t| <= |s| && s[..|t|] == t {
      assert InfixAt(s, t, 0);
    } else if |t| <= |s| && |s| > 0 {
      HasInfixIff(s[1..], t);
      forall i | InfixAt(s, t, i) ensures 1 <= i && InfixAt(s[1..], t, i - 1) {
        assert i != 0;
        assert s[1..][i - 1..i - 1 + |t|] == s[i..i + |t|];
      }
      if HasInfix(s[1..], t) {
        var i :| InfixAt(s[1..], t, i);
        assert s[i + 1..i + 1 + |t|] == s[1..][i..i + |t|];
        assert InfixAt(s, t, i + 1);
      }
    }
  }

  predicate StartsWith(s: string, prefix: string)
  {
    |prefix| <= |s| && s[..|prefix|] == prefix
  }

  predicate EndsWith(s: string, suffix: string)
  {
    |suffix| <= |s| && s[|s| - |suffix|..] == suffix
  }

  /**
   * POSIX `os.path.join(a, b)`: an absolute `b` replaces `a`; otherwise a
   * separator is inserted unless `a` is empty or already ends with one.
   */
  function Join(a: string, b: string): (p: string)
    ensures EndsWith(p, b)
  {
    if |b| > 0 && b[0] == '/' then b
    else if a == "" || a[|a| - 1] == '/' then a + b
    else a + "/" + b
  }

  /** Length of the longest prefix of `s` whose characters all satisfy `p`. */
  function LeadingRun(s: string, p: char -> bool): (n: nat)
    ensures n <= |s|
    ensures forall i :: 0 <= i < n ==> p(s[i])
    ensures n < |s| ==> !p(s[n])
  {
    if s == [] || !p(s[0]) then 0 else 1 + LeadingRun(s[1..], p)
  }

  /** Length of the longest suffix of `s` whose characters all satisfy `p`. */
  function TrailingRun(s: string, p: char -> bool): (n: nat)
    ensures n <= |s|
    ensures forall i :: |s| - n <= i < |s| ==> p(s[i])
    ensures n < |s| ==> !p(s[|s| - 1 - n])
  {
    if s == [] || !p(s[|s| - 1]) then 0 else 1 + TrailingRun(s[..|s| - 1], p)
  }

  /** The bytes that Python's `bytes.strip()` removes: ASCII whitespace. */
  predicate IsAsciiSpace(c: char)
  {
    c == ' ' || c == '\t' || c == '\n' || c == '\r' || c == '\U{000B}' || c == '\U{000C}'
  }

  /** The characters `\s` matches in a Python `str` pattern (`str.isspace`). */
  predicate IsUnicodeSpace(c: char)
  {
    ('\t' <= c <= '\r') || ('\U{001C}' <= c <= ' ') || c == '\U{0085}' || c == '\U{00A0}'
    || c == '\U{1680}' || ('\U{2000}' <= c <= '\U{200A}') || c == '\U{2028}' || c == '\U{2029}'
    || c == '\U{202F}' || c == '\U{205F}' || c == '\U{3000}'
  }

  /** Python's `bytes.strip()` with no argument. */
  function Strip(s: string): (r: string)
    ensures r == [] || (!IsAsciiSpace(r[0]) && !IsAsciiSpace(r[|r| - 1]))
    ensures |r| <= |s|
  {
    var a := LeadingRun(s, IsAsciiSpace);
    var rest := s[a..];
    rest[..|rest| - TrailingRun(rest, IsAsciiSpace)]
  }

  /**
   * Stripping undoes any whitespace padding around a core that neither starts
   * nor ends with whitespace.
   */
  lemma StripPadded(before: string, core: string, after: string)
    requires forall i :: 0 <= i < |before| ==> IsAsciiSpace(before[i])
    requires forall i :: 0 <= i < |after| ==> IsAsciiSpace(after[i])
    requires core == [] || (!IsAsciiSpace(core[0]) && !IsAsciiSpace(core[|core| - 1]))
    ensures Strip(before + core + after) == core
  {
    var s := before + core + after;
    var a := LeadingRun(s, IsAsciiSpace);
    if core == [] {
      assert forall i :: 0 <= i < |s| ==> IsAsciiSpace(s[i]);
      assert a == |s|;
    } else {
      assert s[|before|] == core[0];
      assert a == |before|;
      var rest := s[a..];
      assert rest == core + after;
      var b := TrailingRun(rest, IsAsciiSpace);
      assert rest[|core| - 1] == core[|core| - 1];
      assert b == |after|;
      assert rest[..|rest| - b] == core;
    }
  }
}
