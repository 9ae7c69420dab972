/** The Python `str` operations the pipeline relies on, over `string` (`seq<char>`). */
module Text {

  /** `c.isspace()` in Python 3.  The same set of characters is matched by `\s` in a
      `str` regular expression and removed by `str.strip()`. */
  predicate IsSpace(c: char) {
    || ('\t' <= c <= '\r')
    || ('\U{1C}' <= c <= ' ')
    || c == '\U{85}' || c == '\U{A0}' || c == '\U{1680}'
    || ('\U{2000}' <= c <= '\U{200A}')
    || c == '\U{2028}' || c == '\U{2029}' || c == '\U{202F}' || c == '\U{205F}' || c == '\U{3000}'
  }

  /** The characters at which `str.splitlines()` ends a line; "\r\n" is one boundary. */
  predicate IsLineBreak(c: char) {
    || ('\n' <= c <= '\r')
    || ('\U{1C}' <= c <= '\U{1E}')
    || c == '\U{85}' || c == '\U{2028}' || c == '\U{2029}'
  }

  predicate AllSpace(s: string) {
    forall k :: 0 <= k < |s| ==> IsSpace(s[k])
  }

  predicate NoLineBreak(s: string) {
    forall k :: 0 <= k < |s| ==> !IsLineBreak(s[k])
  }

  /** `s.startswith(prefix)` */
  predicate StartsWith(s: string, prefix: string) {
    |prefix| <= |s| && s[..|prefix|] == prefix
  }

  /** `sub in s` */
  predicate Contains(s: string, sub: string) {
    exists i :: 0 <= i <= |s| && StartsWith(s[i..], sub)
  }

  /** Lower-casing of one character, on the ASCII letters. */
  function LowerChar(c: char): char {
    if 'A' <= c <= 'Z' then (c as int + 32) as char else c
  }

  /** `s.lower()` restricted to ASCII letters; every other character is kept.  What this means
      for the HTML test is stated in `Preprocessor.IsHtmlCaseInsensitive`. */
  function Lower(s: string): (r: string)
    ensures |r| == |s|
    ensures forall k :: 0 <= k < |s| ==> r[k] == LowerChar(s[k])
  {
    seq(|s|, k requires 0 <= k < |s| => LowerChar(s[k]))
  }

  /** `s.split(sep)` for a one-character separator: the text between consecutive separators,
      never an empty list. */
  function SplitOn(s: string, sep: char): (parts: seq<string>)
    ensures |parts| >= 1
  {
    if s == [] then [[]]
    else
      var rest := SplitOn(s[1..], sep);
      if s[0] == sep then [[]] + rest else [[s[0]] + rest[0]] + rest[1..]
  }

  /** `sep.join(parts)` */
  function Join(parts: seq<string>, sep: string): string {
    if |parts| == 0 then ""
    else if |parts| == 1 then parts[0]
    else parts[0] + sep + Join(parts[1..], sep)
  }

  /** Index of the first line-break character of `s`, or `|s|`. */
  function BreakIndex(s: string): (i: nat)
    ensures i <= |s|
    ensures i < |s| ==> IsLineBreak(s[i])
    ensures forall k :: 0 <= k < i ==> !IsLineBreak(s[k])
  {
    if s == [] || IsLineBreak(s[0]) then 0 else 1 + BreakIndex(s[1..])
  }

  /** Width of the line boundary that starts at `s[i]`: two for "\r\n", one otherwise. */
  function BreakWidth(s: string, i: nat): nat
    requires i < |s|
  {
    if s[i] == '\r' && i + 1 < |s| && s[i + 1] == '\n' then 2 else 1
  }

  /** `s.splitlines()`: the lines without their boundaries; a final boundary opens no line. */
  function SplitLines(s: string): (lines: seq<string>)
    ensures forall k :: 0 <= k < |lines| ==> NoLineBreak(lines[k])
    decreases |s|
  {
    if s == [] then []
    else
      var i := BreakIndex(s);
      if i == |s| then [s] else [s[..i]] + SplitLines(s[i + BreakWidth(s, i)..])
  }

  /** `s.lstrip()` */
  function TrimStart(s: string): (r: string)
    ensures |r| <= |s|
    decreases |s|
  {
    if s != [] && IsSpace(s[0]) then TrimStart(s[1..]) else s
  }

  /** `lstrip` removes a whitespace prefix and stops at the first other character. */
  lemma {:induction false} TrimStartSpec(s: string)
    ensures var r := TrimStart(s);
            && r == s[|s| - |r|..]
            && AllSpace(s[..|s| - |r|])
            && (r != [] ==> !IsSpace(r[0]))
    decreases |s|
  {
    if s != [] && IsSpace(s[0]) {
      TrimStartSpec(s[1..]);
      var r := TrimStart(s);
      assert s[1..][|s| - 1 - |r|..] == s[|s| - |r|..];
      assert forall k :: 1 <= k < |s| - |r| ==> s[k] == s[1..][..|s| - 1 - |r|][k - 1];
    }
  }

  /** `s.rstrip()` */
  function TrimEnd(s: string): (r: string)
    ensures |r| <= |s|
    decreases |s|
  {
    if s != [] && IsSpace(s[|s| - 1]) then TrimEnd(s[..|s| - 1]) else s
  }

  /** `rstrip` removes a whitespace suffix and stops at the last other character. */
  lemma {:induction false} TrimEndSpec(s: string)
    ensures var r := TrimEnd(s);
            && r == s[..|r|]
            && AllSpace(s[|r|..])
            && (r != [] ==> !IsSpace(r[|r| - 1]))
    decreases |s|
  {
    if s != [] && IsSpace(s[|s| - 1]) {
      var n := |s| - 1;
      TrimEndSpec(s[..n]);
      var r := TrimEnd(s);
      assert s[..n][..|r|] == s[..|r|];
      assert forall k :: |r| <= k < n ==> s[k] == s[..n][k];
    }
  }

  /** `s.strip()`: neither starts nor ends with whitespace. */
  function Strip(s: string): (r: string)
    ensures r != [] ==> !IsSpace(r[0]) && !IsSpace(r[|r| - 1])
  {
    var t := TrimStart(s);
    TrimStartSpec(s);
    TrimEndSpec(t);
    var r := TrimEnd(t);
    assert r != [] ==> r[0] == t[0];
    r
  }

  /** What `strip` removes is whitespace: the result is the middle of `s` between a
      whitespace prefix and a whitespace suffix. */
  lemma StripMiddle(s: string)
    ensures exists i :: 0 <= i <= |s| && AllSpace(s[..i]) && StartsWith(s[i..], Strip(s)) && AllSpace(s[i..][|Strip(s)|..])
  {
    var t := TrimStart(s);
    var r := TrimEnd(t);
    TrimStartSpec(s);
    TrimEndSpec(t);
    var i := |s| - |t|;
    assert s[i..] == t && StartsWith(t, r);
  }

  /** No part of a split holds the separator. */
  lemma {:induction false} SplitOnParts(s: string, c: char)
    ensures forall k :: 0 <= k < |SplitOn(s, c)| ==> c !in SplitOn(s, c)[k]
  {
    if s != [] {
      var rest := SplitOn(s[1..], c);
      SplitOnParts(s[1..], c);
      if s[0] != c {
        assert c !in [s[0]] + rest[0];
      }
    }
  }

  /** Text without the separator is a single part. */
  lemma {:induction false} SplitOnWithout(s: string, c: char)
    requires c !in s
    ensures SplitOn(s, c) == [s]
  {
    if s != [] {
      SplitOnWithout(s[1..], c);
      assert [s[0]] + s[1..] == s;
    }
  }

  /** Prefixing the first part. */
  lemma JoinHead(h: string, parts: seq<string>, sep: string)
    requires |parts| >= 1
    ensures Join([h + parts[0]] + parts[1..], sep) == h + Join(parts, sep)
  {
    var q := [h + parts[0]] + parts[1..];
    assert q[1..] == parts[1..];
    if |parts| > 1 {
      assert Join(q, sep) == (h + parts[0]) + sep + Join(parts[1..], sep);
    }
  }

  /** Joining the parts of a split with the separator gives back the text. */
  lemma {:induction false} JoinSplitOn(s: string, c: char)
    ensures Join(SplitOn(s, c), [c]) == s
  {
    if s != [] {
      var rest := SplitOn(s[1..], c);
      JoinSplitOn(s[1..], c);
      if s[0] == c {
        assert ([[]] + rest)[1..] == rest;
        assert Join([[]] + rest, [c]) == [] + [c] + Join(rest, [c]);
      } else {
        JoinHead([s[0]], rest, [c]);
      }
      assert [s[0]] + s[1..] == s;
    }
  }

  /** A separator placed between two texts splits first the one, then the other. */
  lemma {:induction false} SplitOnConcat(a: string, b: string, c: char)
    ensures SplitOn(a + [c] + b, c) == SplitOn(a, c) + SplitOn(b, c)
  {
    var s := a + [c] + b;
    if a == [] {
      assert s == [c] + b;
      assert s[1..] == b;
    } else {
      assert s[0] == a[0];
      assert s[1..] == a[1..] + [c] + b;
      SplitOnConcat(a[1..], b, c);
      var p, q := SplitOn(a[1..], c), SplitOn(b, c);
      if a[0] == c {
        assert [[]] + (p + q) == ([[]] + p) + q;
      } else {
        PrependFirst(a[0], p, q);
      }
    }
  }

  /** Putting a character in front of the first part commutes with appending more parts. */
  lemma PrependFirst<T>(x: T, p: seq<seq<T>>, q: seq<seq<T>>)
    requires p != []
    ensures [[x] + (p + q)[0]] + (p + q)[1..] == ([[x] + p[0]] + p[1..]) + q
  {
    assert (p + q)[0] == p[0];
    assert (p + q)[1..] == p[1..] + q;
  }

  /** Two separator-free texts around one separator split into exactly those two. */
  lemma SplitOnTwo(a: string, b: string, c: char)
    requires c !in a && c !in b
    ensures SplitOn(a + [c] + b, c) == [a, b]
  {
    SplitOnConcat(a, b, c);
    SplitOnWithout(a, c);
    SplitOnWithout(b, c);
  }

  /** Splitting a join of separator-free parts gives back the parts. */
  lemma {:induction false} SplitOnJoin(parts: seq<string>, c: char)
    requires |parts| >= 1
    requires forall k :: 0 <= k < |parts| ==> c !in parts[k]
    ensures SplitOn(Join(parts, [c]), c) == parts
  {
    SplitOnWithout(parts[0], c);
    if |parts| > 1 {
      var rest := Join(parts[1..], [c]);
      assert Join(parts, [c]) == parts[0] + [c] + rest;
      SplitOnConcat(parts[0], rest, c);
      SplitOnJoin(parts[1..], c);
      assert parts == [parts[0]] + parts[1..];
    }
  }

  /** Putting `h` in front of `q`, as a part of its own or onto the first part, and extending
      the last part by `x` give the same parts in either order. */
  lemma ExtendLast(h: seq<char>, q: seq<string>, x: string, separate: bool)
    requires |q| >= 1
    ensures var m := |q| - 1;
            var rest := q[..m] + [q[m] + x];
            var p := if separate then [h] + q else [h + q[0]] + q[1..];
            (if separate then [h] + rest else [h + rest[0]] + rest[1..]) == p[..|p| - 1] + [p[|p| - 1] + x]
  {
    var m := |q| - 1;
    var rest := q[..m] + [q[m] + x];
    if !separate {
      if m == 0 {
        assert rest[1..] == [];
        assert h + (q[0] + x) == (h + q[0]) + x;
      } else {
        assert rest[0] == q[0];
        assert rest[1..] == q[1..m] + [q[m] + x];
      }
    }
  }

  /** Text without the separator extends the last part of a split. */
  lemma {:induction false} SplitOnExtend(a: string, x: string, c: char)
    requires c !in x
    ensures var p := SplitOn(a, c);
            SplitOn(a + x, c) == p[..|p| - 1] + [p[|p| - 1] + x]
  {
    if a == [] {
      SplitOnWithout(x, c);
      assert a + x == x;
    } else {
      var q := SplitOn(a[1..], c);
      assert (a + x)[0] == a[0];
      assert (a + x)[1..] == a[1..] + x;
      SplitOnExtend(a[1..], x, c);
      if a[0] == c {
        ExtendLast([], q, x, true);
      } else {
        ExtendLast([a[0]], q, x, false);
      }
    }
  }

  /** Separator-free `q`, `p` and `r` appended to `a` as `q`, separator, `p`, separator, `r`:
      `q` ends the last part of `a`, and `p` and `r` are parts of their own. */
  lemma SplitOnLayout(a: string, q: string, p: string, r: string, c: char)
    requires c !in q && c !in p && c !in r
    ensures var head := SplitOn(a, c);
            SplitOn(a + q + [c] + p + [c] + r, c) == head[..|head| - 1] + [head[|head| - 1] + q, p, r]
  {
    var head := SplitOn(a, c);
    var n := |head| - 1;
    assert a + q + [c] + p + [c] + r == (a + q) + [c] + (p + [c] + r);
    SplitOnConcat(a + q, p + [c] + r, c);
    SplitOnTwo(p, r, c);
    SplitOnExtend(a, q, c);
    assert head[..n] + [head[n] + q] + [p, r] == head[..n] + [head[n] + q, p, r];
  }

  /** The first line break of `a + b` is the first character of `b` when `a` has none. */
  lemma BreakIndexAt(a: string, b: string)
    requires NoLineBreak(a)
    requires b != [] && IsLineBreak(b[0])
    ensures BreakIndex(a + b) == |a|
  {
    var s := a + b;
    assert s[|a|] == b[0];
    forall k | 0 <= k < |a| ensures !IsLineBreak(s[k]) { assert s[k] == a[k]; }
  }

  /** Lines joined with "\n" split back into the same lines, provided no line holds a
      boundary and the last one is not empty (a trailing "\n" opens no line). */
  lemma {:induction false} SplitLinesJoin(lines: seq<string>)
    requires |lines| >= 1
    requires forall k :: 0 <= k < |lines| ==> NoLineBreak(lines[k])
    requires lines[|lines| - 1] != []
    ensures SplitLines(Join(lines, "\n")) == lines
  {
    var s := Join(lines, "\n");
    if |lines| == 1 {
      assert BreakIndex(s) == |s|;
    } else {
      var rest := Join(lines[1..], "\n");
      assert s == lines[0] + ("\n" + rest);
      BreakIndexAt(lines[0], "\n" + rest);
      assert s[|lines[0]|] == '\n';
      assert s[..|lines[0]|] == lines[0];
      assert s[|lines[0]| + 1..] == rest;
      SplitLinesJoin(lines[1..]);
      assert lines == [lines[0]] + lines[1..];
    }
  }
}
