/**
 * The few JavaScript string primitives the plugin relies on: the `\s`
 * whitespace class (also what `String.prototype.trim` strips), `trim`,
 * `split` on a one-character separator, `endsWith`, `includes` and the
 * UTF-16 `length` of a string.
 */
module JsStrings {

  /** ECMAScript WhiteSpace and LineTerminator code points: the `\s` class and what `trim` removes. */
  predicate IsSpace(c: char)
  {
    c == '\t' || c == '\n' || c == '\U{B}' || c == '\U{C}' || c == '\r' || c == ' '
    || c == '\U{A0}' || c == '\U{1680}' || ('\U{2000}' <= c <= '\U{200A}')
    || c == '\U{2028}' || c == '\U{2029}' || c == '\U{202F}' || c == '\U{205F}'
    || c == '\U{3000}' || c == '\U{FEFF}'
  }

  /** Every character of `s` is whitespace (the empty string included). */
  predicate IsBlank(s: string)
  {
    forall k :: 0 <= k < |s| ==> IsSpace(s[k])
  }

  /** Length of the longest all-whitespace prefix of `s`. */
  function SpaceRun(s: string): (n: nat)
    ensures n <= |s|
    ensures IsBlank(s[..n])
    ensures n < |s| ==> !IsSpace(s[n])
  {
    if s == [] || !IsSpace(s[0]) then 0 else 1 + SpaceRun(s[1..])
  }

  /** `s.trimStart()` */
  function TrimStart(s: string): string
  {
    s[SpaceRun(s)..]
  }

  /** `s.trimEnd()` */
  function TrimEnd(s: string): (r: string)
    decreases |s|
  {
    if s != [] && IsSpace(s[|s| - 1]) then TrimEnd(s[..|s| - 1]) else s
  }

  /** `s.trim()` */
  function Trim(s: string): string
  {
    TrimEnd(TrimStart(s))
  }

  lemma {:induction false} TrimEndEmptyIffBlank(s: string)
    ensures TrimEnd(s) == [] <==> IsBlank(s)
    decreases |s|
  {
    if s != [] && IsSpace(s[|s| - 1]) {
      TrimEndEmptyIffBlank(s[..|s| - 1]);
      assert forall k :: 0 <= k < |s| - 1 ==> s[..|s| - 1][k] == s[k];
    } else if s != [] {
      assert !IsSpace(s[|s| - 1]);
    }
  }

  /** A string trims to nothing exactly when it is all whitespace. */
  lemma TrimEmptyIffBlank(s: string)
    ensures |Trim(s)| == 0 <==> IsBlank(s)
  {
    var n := SpaceRun(s);
    TrimEndEmptyIffBlank(s[n..]);
    if n < |s| {
      assert !IsSpace(s[n..][0]);
    } else {
      assert s[..n] == s;
    }
  }

  /** `s.split("\n")`: the lines of `s`, always at least one, an empty string giving `[""]`. */
  function SplitLines(s: string): (lines: seq<string>)
    ensures |lines| >= 1
    decreases |s|
  {
    if s == [] then [[]]
    else
      var rest := SplitLines(s[1..]);
      if s[0] == '\n' then [[]] + rest else [[s[0]] + rest[0]] + rest[1..]
  }

  /** The inverse of `SplitLines`: the lines glued together with `"\n"`. */
  function JoinLines(lines: seq<string>): string
    requires |lines| >= 1
    decreases |lines|
  {
    if |lines| == 1 then lines[0] else lines[0] + "\n" + JoinLines(lines[1..])
  }

  /** The lines of a string that does not start with a newline: the first character joins the first line. */
  lemma SplitLinesCons(s: string)
    requires s != [] && s[0] != '\n'
    ensures SplitLines(s)[0] == [s[0]] + SplitLines(s[1..])[0]
    ensures SplitLines(s)[1..] == SplitLines(s[1..])[1..]
  {
  }

  /** Splitting loses nothing: joining the lines gives the string back. */
  lemma {:induction false} SplitLinesRoundTrip(s: string)
    ensures JoinLines(SplitLines(s)) == s
    decreases |s|
  {
    if s != [] {
      SplitLinesRoundTrip(s[1..]);
      var rest := SplitLines(s[1..]);
      assert s == [s[0]] + s[1..];
      if s[0] == '\n' {
        assert SplitLines(s)[1..] == rest;
      } else {
        SplitLinesCons(s);
        var lines := SplitLines(s);
        if |rest| == 1 {
          assert JoinLines(lines) == [s[0]] + rest[0];
        } else {
          assert JoinLines(rest) == rest[0] + "\n" + JoinLines(rest[1..]);
          assert JoinLines(lines) == ([s[0]] + rest[0]) + "\n" + JoinLines(rest[1..]);
        }
      }
    }
  }

  /** No line holds the separator. */
  lemma {:induction false} SplitLinesNoNewline(s: string)
    ensures forall k :: 0 <= k < |SplitLines(s)| ==> '\n' !in SplitLines(s)[k]
    decreases |s|
  {
    if s != [] {
      SplitLinesNoNewline(s[1..]);
      var rest := SplitLines(s[1..]);
      var lines := SplitLines(s);
      if s[0] == '\n' {
        assert lines[1..] == rest;
        forall k | 0 <= k < |lines| ensures '\n' !in lines[k] {
          if k > 0 { assert lines[k] == rest[k - 1]; }
        }
      } else {
        SplitLinesCons(s);
        forall k | 0 <= k < |lines| ensures '\n' !in lines[k] {
          if k > 0 { assert lines[k] == rest[k]; }
        }
      }
    }
  }

  /** `c` occurs in one of `lines`. */
  predicate InSomeOf(lines: seq<string>, c: char)
  {
    exists k :: 0 <= k < |lines| && c in lines[k]
  }

  lemma InSomeOfCons(first: string, rest: seq<string>, c: char)
    ensures InSomeOf([first] + rest, c) <==> c in first || InSomeOf(rest, c)
  {
    var lines := [first] + rest;
    if c in first {
      assert lines[0] == first;
    }
    if InSomeOf(rest, c) {
      var k :| 0 <= k < |rest| && c in rest[k];
      assert lines[k + 1] == rest[k];
    }
    if InSomeOf(lines, c) {
      var k :| 0 <= k < |lines| && c in lines[k];
      if k > 0 {
        assert c in rest[k - 1];
      }
    }
  }

  /** A character other than the separator is in `s` exactly when it is in one of the lines. */
  lemma {:induction false} InSomeLine(s: string, c: char)
    requires c != '\n'
    ensures c in s <==> InSomeOf(SplitLines(s), c)
    decreases |s|
  {
    if s != [] {
      InSomeLine(s[1..], c);
      var rest := SplitLines(s[1..]);
      assert c in s <==> c == s[0] || c in s[1..] by {
        assert s == [s[0]] + s[1..];
      }
      if s[0] == '\n' {
        InSomeOfCons([], rest, c);
      } else {
        InSomeOfCons([s[0]] + rest[0], rest[1..], c);
        InSomeOfCons(rest[0], rest[1..], c);
        assert rest == [rest[0]] + rest[1..];
      }
    }
  }

  /** `s.endsWith(suffix)` */
  predicate EndsWith(s: string, suffix: string)
  {
    |suffix| <= |s| && s[|s| - |suffix|..] == suffix
  }

  /** `s.length`: JavaScript counts UTF-16 code units, so a code point above U+FFFF counts twice. */
  function Utf16Length(s: string): (n: nat)
    ensures n >= |s|
    ensures n <= 2 * |s|
  {
    if s == [] then 0 else (if s[0] as int > 0xFFFF then 2 else 1) + Utf16Length(s[1..])
  }
}
