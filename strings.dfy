/**
 * String operations with the meaning the modelled Java and JavaScript
 * library calls give them (`startsWith`, `includes`/`contains`, `indexOf`,
 * `lastIndexOf`, `split(c)[0]`, `split(c).pop()`, `trim`, `toLowerCase`,
 * decimal formatting of integers).
 */
module Strings {

  predicate StartsWith(s: string, prefix: string) {
    |prefix| <= |s| && s[..|prefix|] == prefix
  }

  predicate EndsWith(s: string, suffix: string) {
    |suffix| <= |s| && s[|s| - |suffix|..] == suffix
  }

  /** `pattern` occurs in `s` starting at index `i`. */
  predicate OccursAt(s: string, pattern: string, i: int) {
    0 <= i && i + |pattern| <= |s| && s[i..i + |pattern|] == pattern
  }

  /** Java `String.contains`, JavaScript `String.prototype.includes`. */
  predicate Contains(s: string, pattern: string) {
    exists i :: 0 <= i <= |s| - |pattern| && OccursAt(s, pattern, i)
  }

  /** Index of the first occurrence of `pattern` at or after `from`, or -1. */
  function IndexOfFrom(s: string, pattern: string, from: nat): (r: int)
    ensures r == -1 || (from <= r && OccursAt(s, pattern, r))
    ensures forall j :: from <= j && (r == -1 || j < r) ==> !OccursAt(s, pattern, j)
    decreases |s| - from
  {
    if from + |pattern| > |s| then -1
    else if s[from..from + |pattern|] == pattern then from
    else IndexOfFrom(s, pattern, from + 1)
  }

  /** Java and JavaScript `indexOf`: the first occurrence, or -1 when there is none. */
  function IndexOf(s: string, pattern: string): (r: int)
    ensures r == -1 <==> !Contains(s, pattern)
    ensures r >= 0 ==> OccursAt(s, pattern, r) && forall j :: 0 <= j < r ==> !OccursAt(s, pattern, j)
  {
    IndexOfFrom(s, pattern, 0)
  }

  /** Java `lastIndexOf` of one character: the last index holding `c`, or -1. */
  function LastIndexOfChar(s: string, c: char): (r: int)
    ensures -1 <= r < |s|
    ensures r == -1 <==> c !in s
    ensures r >= 0 ==> s[r] == c && c !in s[r + 1..]
  {
    if s == [] then -1
    else if s[|s| - 1] == c then |s| - 1
    else
      var r := LastIndexOfChar(s[..|s| - 1], c);
      assert s == s[..|s| - 1] + [s[|s| - 1]];
      r
  }

  /** JavaScript `s.split(c)[0]`: the text before the first `c`, or all of `s`. */
  function BeforeFirst(s: string, c: char): (r: string)
    ensures c !in r && StartsWith(s, r)
    ensures |r| < |s| ==> s[|r|] == c
  {
    if s == [] then []
    else if s[0] == c then []
    else [s[0]] + BeforeFirst(s[1..], c)
  }

  /** JavaScript `s.split(c).pop()`: the text after the last `c`, or all of `s`. */
  function AfterLast(s: string, c: char): (r: string)
    ensures c !in r && EndsWith(s, r)
    ensures |r| < |s| ==> s[|s| - |r| - 1] == c
  {
    if s == [] then []
    else if s[|s| - 1] == c then []
    else
      var r := AfterLast(s[..|s| - 1], c) + [s[|s| - 1]];
      assert s == s[..|s| - 1] + [s[|s| - 1]];
      r
  }

  predicate IsAsciiUpper(c: char) { 'A' <= c <= 'Z' }

  predicate IsDigit(c: char) { '0' <= c <= '9' }

  /** Lower-case of one character, for the ASCII letters. */
  function LowerChar(c: char): (r: char)
    ensures !IsAsciiUpper(r)
    ensures (r <= ' ') == (c <= ' ')
  {
    if IsAsciiUpper(c) then (c as int + 32) as char else c
  }

  /** `toLowerCase` restricted to ASCII letters. */
  function ToLower(s: string): (r: string)
    ensures |r| == |s|
    ensures forall i :: 0 <= i < |s| ==> r[i] == LowerChar(s[i])
  {
    seq(|s|, i requires 0 <= i < |s| => LowerChar(s[i]))
  }

  /** Java `String.trim`: drops every leading and trailing character at or below U+0020. */
  function TrimStart(s: string): (r: string)
    ensures |r| <= |s| && EndsWith(s, r)
    ensures forall k :: 0 <= k < |s| - |r| ==> s[k] <= ' '
    ensures r == [] || r[0] > ' '
  {
    if |s| > 0 && s[0] <= ' ' then TrimStart(s[1..]) else s
  }

  function TrimEnd(s: string): (r: string)
    ensures |r| <= |s| && StartsWith(s, r)
    ensures forall k :: |r| <= k < |s| ==> s[k] <= ' '
    ensures r == [] || r[|r| - 1] > ' '
  {
    if |s| > 0 && s[|s| - 1] <= ' ' then TrimEnd(s[..|s| - 1]) else s
  }

  /** `r` is the part of `s` from index `i` on, with only characters at or below U+0020 around it. */
  predicate TrimmedAt(s: string, r: string, i: int) {
    && 0 <= i <= |s| - |r|
    && r == s[i..i + |r|]
    && (forall k :: 0 <= k < i ==> s[k] <= ' ')
    && (forall k :: i + |r| <= k < |s| ==> s[k] <= ' ')
  }

  function Trim(s: string): (r: string)
    ensures |r| <= |s|
    ensures r == [] || (r[0] > ' ' && r[|r| - 1] > ' ')
  {
    TrimEnd(TrimStart(s))
  }

  /** `trim` keeps one infix of the text and drops only characters at or below U+0020 around it. */
  lemma TrimIsInfix(s: string)
    ensures TrimmedAt(s, Trim(s), |s| - |TrimStart(s)|)
  {
    var t := TrimStart(s);
    InfixOfSuffix(s, t, TrimEnd(t));
  }

  /** A prefix `r` of a suffix `t` of `s`, with blanks after `r` in `t`, sits in `s` as `TrimmedAt` says. */
  lemma InfixOfSuffix(s: string, t: string, r: string)
    requires EndsWith(s, t) && StartsWith(t, r)
    requires forall k :: 0 <= k < |s| - |t| ==> s[k] <= ' '
    requires forall k :: |r| <= k < |t| ==> t[k] <= ' '
    ensures TrimmedAt(s, r, |s| - |t|)
  {
    var i := |s| - |t|;
    assert r == s[i..i + |r|];
    forall k | i + |r| <= k < |s|
      ensures s[k] <= ' '
    {
      assert s[k] == t[k - i];
    }
  }

  /** Every character of `s` is at or below U+0020, the characters `trim` drops. */
  predicate AllBlank(s: string) {
    forall k :: 0 <= k < |s| ==> s[k] <= ' '
  }

  /** `trim` drops a blank prefix in front of a text that starts with a visible character. */
  lemma {:induction false} TrimStartOfBlankPrefix(pre: string, t: string)
    requires AllBlank(pre)
    requires t == [] || t[0] > ' '
    ensures TrimStart(pre + t) == t
    decreases |pre|
  {
    if pre == [] {
      assert pre + t == t;
    } else {
      assert (pre + t)[0] == pre[0];
      assert (pre + t)[1..] == pre[1..] + t;
      TrimStartOfBlankPrefix(pre[1..], t);
    }
  }

  /** `trim` drops a blank suffix behind a text that ends with a visible character. */
  lemma {:induction false} TrimEndOfBlankSuffix(t: string, post: string)
    requires AllBlank(post)
    requires t == [] || t[|t| - 1] > ' '
    ensures TrimEnd(t + post) == t
    decreases |post|
  {
    if post == [] {
      assert t + post == t;
    } else {
      var front := post[..|post| - 1];
      assert (t + post)[|t + post| - 1] == post[|post| - 1];
      assert (t + post)[..|t + post| - 1] == t + front;
      TrimEndOfBlankSuffix(t, front);
    }
  }

  /** `trim` of a visible-edged text between blanks is that text. */
  lemma TrimBetweenBlanks(pre: string, t: string, post: string)
    requires AllBlank(pre) && AllBlank(post)
    requires t == [] || (t[0] > ' ' && t[|t| - 1] > ' ')
    ensures Trim(pre + t + post) == t
  {
    if t == [] {
      assert pre + t + post == pre + post;
      assert AllBlank(pre + post);
      TrimStartOfBlankPrefix(pre + post, []);
      assert pre + post + [] == pre + post;
    } else {
      assert pre + t + post == pre + (t + post);
      assert (t + post)[0] == t[0];
      TrimStartOfBlankPrefix(pre, t + post);
      TrimEndOfBlankSuffix(t, post);
    }
  }

  /** Lower-casing is the identity on text without upper-case letters. */
  lemma ToLowerOfLower(s: string)
    requires forall i :: 0 <= i < |s| ==> !IsAsciiUpper(s[i])
    ensures ToLower(s) == s
  {
  }

  /** Lower-casing keeps which characters are blank, so it commutes with the start of `trim`. */
  lemma {:induction false} TrimStartOfLower(s: string)
    ensures TrimStart(ToLower(s)) == ToLower(TrimStart(s))
    decreases |s|
  {
    if |s| > 0 && s[0] <= ' ' {
      assert ToLower(s)[1..] == ToLower(s[1..]);
      TrimStartOfLower(s[1..]);
    }
  }

  /** Lower-casing commutes with the end of `trim`. */
  lemma {:induction false} TrimEndOfLower(s: string)
    ensures TrimEnd(ToLower(s)) == ToLower(TrimEnd(s))
    decreases |s|
  {
    if |s| > 0 && s[|s| - 1] <= ' ' {
      assert ToLower(s)[..|s| - 1] == ToLower(s[..|s| - 1]);
      TrimEndOfLower(s[..|s| - 1]);
    }
  }

  /** Lower-casing commutes with `trim`. */
  lemma TrimOfLower(s: string)
    ensures Trim(ToLower(s)) == ToLower(Trim(s))
  {
    TrimStartOfLower(s);
    TrimEndOfLower(TrimStart(s));
  }

  function DigitChar(d: nat): char
    requires d < 10
  {
    ('0' as int + d) as char
  }

  /** Decimal text of a natural number, as Java's `+` and JavaScript's template strings write it. */
  function NatToString(n: nat): (r: string)
    ensures |r| >= 1
    ensures forall i :: 0 <= i < |r| ==> IsDigit(r[i])
    ensures n >= 10 <==> |r| >= 2
  {
    if n < 10 then [DigitChar(n)] else NatToString(n / 10) + [DigitChar(n % 10)]
  }

  /** Decimal text of an integer, with a leading `-` when negative. */
  function IntToString(n: int): (r: string)
    ensures |r| >= 1
    ensures forall i :: 0 <= i < |r| ==> IsDigit(r[i]) || r[i] == '-'
    ensures r[0] == '-' <==> n < 0
  {
    if n < 0 then "-" + NatToString(-n) else NatToString(n)
  }

  lemma {:induction false} NatToStringInjective(a: nat, b: nat)
    requires NatToString(a) == NatToString(b)
    ensures a == b
  {
    if a >= 10 && b >= 10 {
      var sa, sb := NatToString(a / 10), NatToString(b / 10);
      assert NatToString(a) == sa + [DigitChar(a % 10)];
      assert NatToString(b) == sb + [DigitChar(b % 10)];
      assert |sa| == |sb|;
      assert sa == NatToString(a)[..|sa|] == NatToString(b)[..|sb|] == sb;
      assert DigitChar(a % 10) == NatToString(a)[|sa|] == DigitChar(b % 10);
      NatToStringInjective(a / 10, b / 10);
    }
  }

  /** Different integers are written differently. */
  lemma IntToStringInjective(a: int, b: int)
    requires IntToString(a) == IntToString(b)
    ensures a == b
  {
    if a < 0 && b < 0 {
      assert NatToString(-a) == IntToString(a)[1..] == IntToString(b)[1..] == NatToString(-b);
      NatToStringInjective(-a, -b);
    } else {
      NatToStringInjective(a, b);
    }
  }

  lemma {:induction false} BeforeFirstOfJoin(a: string, rest: string, sep: char)
    requires sep !in a
    ensures BeforeFirst(a + [sep] + rest, sep) == a
  {
    if a != [] {
      assert (a + [sep] + rest)[1..] == a[1..] + [sep] + rest;
      BeforeFirstOfJoin(a[1..], rest, sep);
    }
  }

  /** A text joined to a rest by a separator it does not contain splits back at the first separator. */
  lemma SplitAtSeparator(a: string, restA: string, b: string, restB: string, sep: char)
    requires sep !in a && sep !in b
    requires a + [sep] + restA == b + [sep] + restB
    ensures a == b && restA == restB
  {
    BeforeFirstOfJoin(a, restA, sep);
    BeforeFirstOfJoin(b, restB, sep);
    var s := a + [sep] + restA;
    assert restA == s[|a| + 1..] == restB;
  }

  /** The decimal text of an integer holds neither letters nor the key separator `_`. */
  lemma IntToStringPlain(n: int)
    ensures '_' !in IntToString(n)
    ensures forall c :: c in IntToString(n) ==> !IsAsciiUpper(c) && 'a' > c
  {
  }

  lemma StripPrefix(prefix: string, a: string, b: string)
    requires prefix + a == prefix + b
    ensures a == b
  {
    assert a == (prefix + a)[|prefix|..];
  }

  /** A contained pattern whose `j`-th character appears in `s` only at index `j` occurs at the start of `s`. */
  lemma ContainedOnlyAtStart(s: string, pattern: string, j: nat, c: char)
    requires Contains(s, pattern)
    requires j < |pattern| && pattern[j] == c
    requires forall m :: 0 <= m < |s| && s[m] == c ==> m == j
    ensures OccursAt(s, pattern, 0)
  {
    var i :| 0 <= i <= |s| - |pattern| && OccursAt(s, pattern, i);
    assert s[i + j] == s[i..i + |pattern|][j] == c;
  }

  /** A text begins with whatever it was built from. */
  lemma StartsWithJoin(prefix: string, rest: string)
    ensures StartsWith(prefix + rest, prefix)
  {
    assert (prefix + rest)[..|prefix|] == prefix;
  }

  /** A text that starts with a non-empty prefix starts with its first character. */
  lemma StartsWithFirstChar(s: string, prefix: string)
    ensures StartsWith(s, prefix) && prefix != [] ==> s != [] && s[0] == prefix[0]
  {
    if StartsWith(s, prefix) && prefix != [] {
      assert s[0] == s[..|prefix|][0];
    }
  }

  /** A text that contains `p + a + b` contains `p`. */
  lemma ContainsPatternPrefix(s: string, p: string, a: string, b: string)
    ensures Contains(s, p + a + b) ==> Contains(s, p)
  {
    var pattern := p + a + b;
    if Contains(s, pattern) {
      var i :| 0 <= i <= |s| - |pattern| && OccursAt(s, pattern, i);
      assert s[i..i + |p|] == s[i..i + |pattern|][..|p|];
      assert pattern[..|p|] == p;
      assert OccursAt(s, p, i);
    }
  }

  /** A text built as `p + (a + sep + rest)` opens with the pattern `p + a + sep`. */
  lemma OpensWithPattern(p: string, a: string, sep: string, rest: string)
    ensures OccursAt(p + (a + sep + rest), p + a + sep, 0)
  {
    var pat := p + a + sep;
    assert p + (a + sep + rest) == pat + rest;
    assert (pat + rest)[0..|pat|] == pat;
  }

  /** A pattern whose `m`-th character differs from the text's at `i + m` does not occur at `i`. */
  lemma MismatchAt(s: string, pattern: string, i: int, m: nat)
    requires m < |pattern| && (i + m < 0 || i + m >= |s| || s[i + m] != pattern[m])
    ensures !OccursAt(s, pattern, i)
  {
    if 0 <= i && i + |pattern| <= |s| {
      assert s[i..i + |pattern|][m] == s[i + m];
    }
  }

  /** A pattern holding a character the text lacks does not occur in the text. */
  lemma MissingCharExcludes(s: string, pattern: string, j: nat)
    requires j < |pattern| && pattern[j] !in s
    ensures !Contains(s, pattern)
  {
    forall i | 0 <= i <= |s| - |pattern|
      ensures !OccursAt(s, pattern, i)
    {
      assert s[i..i + |pattern|][j] == s[i + j] != pattern[j];
    }
  }

  /** `s.split(c).pop()` is the text after `lastIndexOf(c)`. */
  lemma {:induction false} AfterLastIndex(s: string, c: char)
    ensures AfterLast(s, c) == s[LastIndexOfChar(s, c) + 1..]
    decreases |s|
  {
    if s != [] && s[|s| - 1] != c {
      var front := s[..|s| - 1];
      var last := s[|s| - 1];
      AfterLastIndex(front, c);
      var r := LastIndexOfChar(front, c);
      assert LastIndexOfChar(s, c) == r;
      assert AfterLast(s, c) == AfterLast(front, c) + [last];
      assert s[r + 1..] == front[r + 1..] + [last];
    }
  }

  /** A character missing from `t` appears in `p + t` only inside `p`. */
  lemma CharOnlyInPrefix(p: string, t: string, c: char)
    requires c !in t
    ensures forall m :: |p| <= m < |p + t| ==> (p + t)[m] != c
  {
    forall m | |p| <= m < |p + t|
      ensures (p + t)[m] != c
    {
      assert (p + t)[m] == t[m - |p|];
    }
  }

  /** A text that starts with `p + a + [sep]` is `p` followed by `a`, the separator and the remainder. */
  lemma SplitAtPattern(s: string, p: string, a: string, sep: char)
    requires OccursAt(s, p + a + [sep], 0)
    ensures s == p + (a + [sep] + s[|p| + |a| + 1..])
  {
    var pat := p + a + [sep];
    var after := s[|pat|..];
    assert s == s[..|pat|] + after;
    assert pat + after == p + (a + [sep] + after);
  }

  /** A text `p + (a + sep + rest)` that opens with `p + b + sep`, neither field holding `sep`, has `a == b`. */
  lemma SameFieldAtStart(s: string, p: string, a: string, b: string, rest: string, sep: char)
    requires s == p + (a + [sep] + rest)
    requires OccursAt(s, p + b + [sep], 0)
    requires sep !in a && sep !in b
    ensures a == b
  {
    var after := s[|p| + |b| + 1..];
    SplitAtPattern(s, p, b, sep);
    StripPrefix(p, b + [sep] + after, a + [sep] + rest);
    SplitAtSeparator(b, after, a, rest, sep);
  }
}
