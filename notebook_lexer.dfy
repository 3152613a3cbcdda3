/**
 * The lexer of the math-delimiter converter (`tokenise_part` in
 * convert_to_notebook_latex_math.ts): it cuts a string into `$$`, `$` and
 * newline tokens and the non-empty runs of text between them, trying `$$`
 * before `$` at every position.
 */
module NotebookLexer {

  /** A token of the stream that `tokenise` runs over. */
  datatype Token =
    | Dollar2          // "$$"
    | Dollar1          // "$"
    | NL               // "\n"
    | Text(s: string)  // a run of other characters
    | Cursor           // the `null` placed between prefix and suffix
    | End              // the `""` that closes the stream

  /** The characters the lexer's regular expression can match on. */
  predicate IsDelimiterChar(c: char)
  {
    c == '$' || c == '\n'
  }

  /** No `$` and no newline in `part[begin..end]`. */
  predicate NoDelimiter(part: string, begin: nat, end: nat)
    requires end <= |part|
  {
    forall k :: begin <= k < end ==> !IsDelimiterChar(part[k])
  }

  /** The text a token stands for; the two markers stand for nothing. */
  function TokenText(t: Token): string
  {
    match t
    case Dollar2 => "$$"
    case Dollar1 => "$"
    case NL => "\n"
    case Text(s) => s
    case Cursor => ""
    case End => ""
  }

  /** The texts of a token sequence, concatenated. */
  function Flatten(toks: seq<Token>): string
  {
    if toks == [] then "" else TokenText(toks[0]) + Flatten(toks[1..])
  }

  /** Length of the text run at the start of `s`: the characters before the first `$` or newline. */
  function TextRunLength(s: string): (n: nat)
    ensures n <= |s|
    ensures forall k :: 0 <= k < n ==> !IsDelimiterChar(s[k])
    ensures n < |s| ==> IsDelimiterChar(s[n])
  {
    if s == [] || IsDelimiterChar(s[0]) then 0 else 1 + TextRunLength(s[1..])
  }

  /** The token sequence `tokenise_part` produces, defined one token at a time from the left. */
  function Lex(s: string): seq<Token>
    decreases |s|
  {
    if s == [] then []
    else if s[0] == '$' && |s| >= 2 && s[1] == '$' then [Dollar2] + Lex(s[2..])
    else if s[0] == '$' then [Dollar1] + Lex(s[1..])
    else if s[0] == '\n' then [NL] + Lex(s[1..])
    else
      var n := TextRunLength(s);
      [Text(s[..n])] + Lex(s[n..])
  }

  /** A token the lexer can produce: a delimiter, or a non-empty run without `$` or newline. */
  predicate IsLexeme(t: Token)
  {
    t == Dollar2 || t == Dollar1 || t == NL
    || (t.Text? && t.s != [] && forall k :: 0 <= k < |t.s| ==> !IsDelimiterChar(t.s[k]))
  }

  predicate AllLexemes(toks: seq<Token>)
  {
    forall k :: 0 <= k < |toks| ==> IsLexeme(toks[k])
  }

  /**
   * Longest match: no two text runs side by side, and a single `$` is never
   * followed by another dollar token (that would have been one `$$`).
   */
  predicate MaximalMunch(toks: seq<Token>)
  {
    forall k :: 0 <= k < |toks| - 1 ==>
      !(toks[k].Text? && toks[k + 1].Text?)
      && (toks[k] == Dollar1 ==> toks[k + 1] != Dollar1 && toks[k + 1] != Dollar2)
  }

  /** The text run at the start of `s` is exactly `n` long when `s[..n]` is free of delimiters and a delimiter or the end follows. */
  lemma {:induction false} LexTextRun(s: string, n: nat)
    requires 0 < n <= |s|
    requires forall k :: 0 <= k < n ==> !IsDelimiterChar(s[k])
    requires n == |s| || IsDelimiterChar(s[n])
    ensures Lex(s) == [Text(s[..n])] + Lex(s[n..])
  {
    assert TextRunLength(s) == n;
  }

  /** The length of the match at `part[j]`: two for `$$`, one for `$` or a newline. */
  function MatchLength(part: string, j: nat): nat
    requires j < |part|
  {
    if part[j] == '$' && j + 1 < |part| && part[j + 1] == '$' then 2 else 1
  }

  /** The token pushed for the match at `part[j]`. */
  function MatchToken(part: string, j: nat): Token
    requires j < |part|
  {
    if MatchLength(part, j) == 2 then Dollar2 else if part[j] == '$' then Dollar1 else NL
  }

  /** Lexing a string that starts with a delimiter: the delimiter's token, then the rest. */
  lemma {:induction false} LexDelimiter(t: string)
    requires t != [] && IsDelimiterChar(t[0])
    ensures t[0] == '$' && |t| >= 2 && t[1] == '$' ==> Lex(t) == [Dollar2] + Lex(t[2..])
    ensures t[0] == '$' && !(|t| >= 2 && t[1] == '$') ==> Lex(t) == [Dollar1] + Lex(t[1..])
    ensures t[0] == '\n' ==> Lex(t) == [NL] + Lex(t[1..])
  {
  }

  /** Lexing at a match: the match's token, then the rest after it. */
  lemma {:induction false} LexMatchAt(part: string, j: nat)
    requires j < |part|
    requires IsDelimiterChar(part[j])
    ensures Lex(part[j..]) == [MatchToken(part, j)] + Lex(part[j + MatchLength(part, j)..])
  {
    var t := part[j..];
    assert t[MatchLength(part, j)..] == part[j + MatchLength(part, j)..];
    LexDelimiter(t);
  }

  /** Lexing a text run that stops at the delimiter at `j`. */
  lemma {:induction false} LexTextBefore(part: string, i: nat, j: nat)
    requires i < j < |part|
    requires forall k :: i <= k < j ==> !IsDelimiterChar(part[k])
    requires IsDelimiterChar(part[j])
    ensures Lex(part[i..]) == [Text(part[i..j])] + Lex(part[j..])
  {
    var u := part[i..];
    assert forall k :: 0 <= k < j - i ==> !IsDelimiterChar(u[k]) by {
      forall k | 0 <= k < j - i ensures !IsDelimiterChar(u[k]) {
        assert u[k] == part[i + k];
      }
    }
    assert u[j - i] == part[j];
    LexTextRun(u, j - i);
    assert u[..j - i] == part[i..j];
    assert u[j - i..] == part[j..];
  }

  /** The text after the last match, when there is one, is a single run. */
  lemma {:induction false} LexTrailingText(part: string, i: nat)
    requires i < |part|
    requires NoDelimiter(part, i, |part|)
    ensures Lex(part[i..]) == [Text(part[i..])]
  {
    var u := part[i..];
    assert forall k :: 0 <= k < |u| ==> !IsDelimiterChar(u[k]) by {
      forall k | 0 <= k < |u| ensures !IsDelimiterChar(u[k]) {
        assert u[k] == part[i + k];
      }
    }
    LexTextRun(u, |u|);
    assert u[..|u|] == u;
    assert u[|u|..] == [];
  }

  /** Where the text run starting at `i` ends: the first `$` or newline at or after `i`, or the end. */
  function TextEnd(part: string, i: nat): (e: nat)
    requires i <= |part|
    ensures i <= e <= |part|
    ensures e < |part| ==> IsDelimiterChar(part[e])
    decreases |part| - i
  {
    if i == |part| || IsDelimiterChar(part[i]) then i else TextEnd(part, i + 1)
  }

  /** Before its end, a text run holds no delimiter. */
  lemma {:induction false} TextEndNoDelimiter(part: string, i: nat)
    requires i <= |part|
    ensures NoDelimiter(part, i, TextEnd(part, i))
    decreases |part| - i
  {
    if i < |part| && !IsDelimiterChar(part[i]) {
      TextEndNoDelimiter(part, i + 1);
    }
  }

  /** The lexing of `part[i..]`, by position: the form the loop of `tokenise_part` walks. */
  function LexFrom(part: string, i: nat): seq<Token>
    requires i <= |part|
    decreases |part| - i
  {
    if i == |part| then []
    else if IsDelimiterChar(part[i]) then [MatchToken(part, i)] + LexFrom(part, i + MatchLength(part, i))
    else var e := TextEnd(part, i); [Text(part[i..e])] + LexFrom(part, e)
  }

  /** Lexing by position agrees with lexing the remaining text. */
  lemma {:induction false} LexFromIsLex(part: string, i: nat)
    requires i <= |part|
    ensures LexFrom(part, i) == Lex(part[i..])
    decreases |part| - i
  {
    if i < |part| {
      if IsDelimiterChar(part[i]) {
        LexMatchAt(part, i);
        LexFromIsLex(part, i + MatchLength(part, i));
      } else {
        var e := TextEnd(part, i);
        TextEndNoDelimiter(part, i);
        LexFromIsLex(part, e);
        if e < |part| {
          LexTextBefore(part, i, e);
        } else {
          LexTrailingText(part, i);
          assert part[i..e] == part[i..];
        }
      }
    }
  }

  /** The tokens pushed when the search from `i` finds a match at `j`: the text in between, if any, then the match. */
  function Pushed(part: string, i: nat, j: nat): seq<Token>
    requires i <= j < |part|
  {
    if i != j then [Text(part[i..j]), MatchToken(part, j)] else [MatchToken(part, j)]
  }

  /** The loop's step on a match: pushing the text and the match keeps the lexing of the rest ahead. */
  lemma {:induction false} ConsumeMatch(part: string, tokens: seq<Token>, i: nat, j: nat)
    requires i <= j < |part|
    requires j <= TextEnd(part, i)
    requires IsDelimiterChar(part[j])
    requires tokens + LexFrom(part, i) == LexFrom(part, 0)
    ensures j + MatchLength(part, j) <= |part|
    ensures (tokens + Pushed(part, i, j)) + LexFrom(part, j + MatchLength(part, j)) == LexFrom(part, 0)
  {
    var p, rest := Pushed(part, i, j), LexFrom(part, j + MatchLength(part, j));
    TextEndNoDelimiter(part, i);
    assert TextEnd(part, i) == j;
    assert LexFrom(part, i) == p + rest;
    assert (tokens + p) + rest == tokens + (p + rest);
  }

  /** The text after the last match, when there is one, is a single run. */
  lemma {:induction false} TrailingText(part: string, tokens: seq<Token>, i: nat)
    requires i <= |part|
    requires TextEnd(part, i) == |part|
    requires tokens + LexFrom(part, i) == LexFrom(part, 0)
    ensures (if i < |part| then tokens + [Text(part[i..])] else tokens) == Lex(part)
  {
    LexFromIsLex(part, 0);
    assert part[0..] == part;
    if i < |part| {
      assert !IsDelimiterChar(part[i]);
      assert part[i..|part|] == part[i..];
      assert LexFrom(part, i) == [Text(part[i..])] + LexFrom(part, |part|);
    }
  }

  /**
   * `tokenise_part`: walks the matches of `$$`, `$` or newline from left to right,
   * pushing the text between two matches when it is not empty, then the match,
   * and finally the text after the last match.
   */
  method TokenisePart(part: string) returns (tokens: seq<Token>)
    ensures tokens == Lex(part)
  {
    tokens := [];
    var i: nat := 0;  // end of the last match
    var j: nat := 0;  // where the search for the next match has got to
    while j < |part|
      invariant i <= j <= |part|
      invariant j <= TextEnd(part, i)
      invariant tokens + LexFrom(part, i) == LexFrom(part, 0)
    {
      if IsDelimiterChar(part[j]) {
        ghost var before := tokens;
        ConsumeMatch(part, tokens, i, j);
        if i != j {
          tokens := tokens + [Text(part[i..j])];
        }
        tokens := tokens + [MatchToken(part, j)];
        assert tokens == before + Pushed(part, i, j);
        i := j + MatchLength(part, j);
        j := i;
      } else {
        j := j + 1;
      }
    }
    TrailingText(part, tokens, i);
    if i < |part| {
      tokens := tokens + [Text(part[i..])];
    }
  }

  /** Round trip: concatenating the lexed tokens gives the input back. */
  lemma {:induction false} LexRoundTrip(s: string)
    ensures Flatten(Lex(s)) == s
    decreases |s|
  {
    if s != [] {
      var toks := Lex(s);
      if s[0] == '$' && |s| >= 2 && s[1] == '$' {
        LexRoundTrip(s[2..]);
        assert toks[1..] == Lex(s[2..]);
        assert s == "$$" + s[2..];
      } else if s[0] == '$' || s[0] == '\n' {
        LexRoundTrip(s[1..]);
        assert toks[1..] == Lex(s[1..]);
        assert s == [s[0]] + s[1..];
      } else {
        var n := TextRunLength(s);
        LexRoundTrip(s[n..]);
        assert toks[1..] == Lex(s[n..]);
        assert s == s[..n] + s[n..];
      }
    }
  }

  /** What the first token of `Lex(s)` is, read off the first characters of `s`. */
  lemma LexHead(s: string)
    requires s != []
    ensures Lex(s) != []
    ensures s[0] == '$' ==> Lex(s)[0] == Dollar2 || Lex(s)[0] == Dollar1
    ensures s[0] == '$' && (|s| == 1 || s[1] != '$') ==> Lex(s)[0] == Dollar1
    ensures s[0] == '\n' ==> Lex(s)[0] == NL
    ensures !IsDelimiterChar(s[0]) ==> Lex(s)[0].Text?
  {
  }

  /** Every token of `Lex(s)` is a lexeme, and the sequence is longest-match. */
  lemma {:induction false} LexWellFormed(s: string)
    ensures AllLexemes(Lex(s))
    ensures MaximalMunch(Lex(s))
    decreases |s|
  {
    if s != [] {
      var toks := Lex(s);
      var rest: string;
      if s[0] == '$' && |s| >= 2 && s[1] == '$' {
        rest := s[2..];
      } else if s[0] == '$' || s[0] == '\n' {
        rest := s[1..];
      } else {
        rest := s[TextRunLength(s)..];
      }
      LexWellFormed(rest);
      assert toks[1..] == Lex(rest);
      if rest != [] {
        LexHead(rest);
        if toks[0].Text? {
          assert IsDelimiterChar(rest[0]);
        }
        if toks[0] == Dollar1 {
          assert rest[0] == s[1];
        }
      }
      forall k | 0 <= k < |toks| ensures IsLexeme(toks[k]) {
        if k > 0 { assert toks[k] == Lex(rest)[k - 1]; }
      }
      forall k | 0 <= k < |toks| - 1
        ensures !(toks[k].Text? && toks[k + 1].Text?)
        ensures toks[k] == Dollar1 ==> toks[k + 1] != Dollar1 && toks[k + 1] != Dollar2
      {
        if k > 0 {
          assert toks[k] == Lex(rest)[k - 1] && toks[k + 1] == Lex(rest)[k];
        }
      }
    }
  }

  /** Any longest-match sequence of lexemes that spells `s` is `Lex(s)`: the lexer's output is unique. */
  lemma {:induction false} LexUnique(toks: seq<Token>, s: string)
    requires AllLexemes(toks) && MaximalMunch(toks)
    requires Flatten(toks) == s
    ensures toks == Lex(s)
    decreases |toks|
  {
    if toks != [] {
      var t, rest := toks[0], toks[1..];
      assert AllLexemes(rest) by {
        forall k | 0 <= k < |rest| ensures IsLexeme(rest[k]) { assert rest[k] == toks[k + 1]; }
      }
      assert MaximalMunch(rest) by {
        forall k | 0 <= k < |rest| - 1
          ensures !(rest[k].Text? && rest[k + 1].Text?)
          ensures rest[k] == Dollar1 ==> rest[k + 1] != Dollar1 && rest[k + 1] != Dollar2
        {
          assert rest[k] == toks[k + 1] && rest[k + 1] == toks[k + 2];
        }
      }
      var r := Flatten(rest);
      LexUnique(rest, r);
      assert s == TokenText(t) + r;
      assert IsLexeme(t);
      if rest != [] {
        assert IsLexeme(rest[0]);
        assert Flatten(rest) == TokenText(rest[0]) + Flatten(rest[1..]);
        assert TokenText(rest[0]) != [];
        assert r[0] == TokenText(rest[0])[0];
      }
      match t
      case Dollar2 =>
        assert s[2..] == r;
      case Dollar1 =>
        assert s[1..] == r;
        if rest != [] {
          assert rest[0] != Dollar1 && rest[0] != Dollar2;
          assert s[1] != '$';
        }
      case NL =>
        assert s[1..] == r;
      case Text(x) =>
        if rest != [] {
          assert !rest[0].Text?;
          assert s[|x|] == r[0];
        }
        LexTextRun(s, |x|);
        assert s[..|x|] == x && s[|x|..] == r;
    }
  }

  /**
   * The lexer is characterised without reference to how it scans: a token
   * sequence is `Lex(s)` exactly when it is made of lexemes, is longest-match
   * and spells `s`.
   */
  lemma LexCharacterisation(toks: seq<Token>, s: string)
    ensures toks == Lex(s) <==> AllLexemes(toks) && MaximalMunch(toks) && Flatten(toks) == s
  {
    LexRoundTrip(s);
    LexWellFormed(s);
    if AllLexemes(toks) && MaximalMunch(toks) && Flatten(toks) == s {
      LexUnique(toks, s);
    }
  }

  /** No dollar in the text, no dollar token in its lexing. */
  lemma {:induction false} LexWithoutDollar(s: string)
    requires '$' !in s
    ensures forall k :: 0 <= k < |Lex(s)| ==> Lex(s)[k] != Dollar1 && Lex(s)[k] != Dollar2
    decreases |s|
  {
    if s != [] {
      var rest := if s[0] == '\n' then s[1..] else s[TextRunLength(s)..];
      assert '$' !in rest by {
        assert forall k :: 0 <= k < |rest| ==> rest[k] in s;
      }
      LexWithoutDollar(rest);
      assert Lex(s)[1..] == Lex(rest);
      forall k | 0 <= k < |Lex(s)| ensures Lex(s)[k] != Dollar1 && Lex(s)[k] != Dollar2 {
        if k > 0 { assert Lex(s)[k] == Lex(rest)[k - 1]; }
      }
    }
  }

  /** The lexer never produces the two markers. */
  lemma {:induction false} LexWithoutMarkers(s: string)
    ensures forall k :: 0 <= k < |Lex(s)| ==> Lex(s)[k] != Cursor && Lex(s)[k] != End
  {
    LexWellFormed(s);
    forall k | 0 <= k < |Lex(s)| ensures Lex(s)[k] != Cursor && Lex(s)[k] != End {
      assert IsLexeme(Lex(s)[k]);
    }
  }

  lemma {:induction false} TextRunLengthAppend(x: string, y: string)
    requires y != [] && IsDelimiterChar(y[0])
    ensures TextRunLength(x + y) == TextRunLength(x)
    decreases |x|
  {
    if x == [] {
      assert x + y == y;
    } else {
      assert (x + y)[0] == x[0];
      assert (x + y)[1..] == x[1..] + y;
      TextRunLengthAppend(x[1..], y);
    }
  }

  /** The first token of `x + y` is the first text run of `x` when `y` starts at a delimiter. */
  lemma LexAppendText(x: string, y: string)
    requires x != [] && !IsDelimiterChar(x[0])
    requires y != [] && IsDelimiterChar(y[0])
    ensures Lex(x + y) == [Text(x[..TextRunLength(x)])] + Lex(x[TextRunLength(x)..] + y)
  {
    var n := TextRunLength(x);
    TextRunLengthAppend(x, y);
    assert (x + y)[0] == x[0];
    assert (x + y)[..n] == x[..n];
    assert (x + y)[n..] == x[n..] + y;
  }

  /** The tokens of `x + y` when `x` starts with a newline. */
  lemma LexAppendNewline(x: string, y: string)
    requires x != [] && x[0] == '\n'
    ensures Lex(x + y) == [NL] + Lex(x[1..] + y)
  {
    assert (x + y)[0] == '\n';
    assert (x + y)[1..] == x[1..] + y;
  }

  /** Regrouping a token stream: `t` in front of `b` and `e` is `t` in front of `b`, then `e`. */
  lemma ConsAppend(t: Token, b: seq<Token>, e: seq<Token>, whole: seq<Token>, joined: seq<Token>, rest: seq<Token>)
    requires whole == [t] + b && joined == [t] + rest && rest == b + e
    ensures joined == whole + e
  {
    assert [t] + (b + e) == ([t] + b) + e;
  }

  /** The first token of a non-empty `x` without `$`, alone and in front of a delimiter-led `y`. */
  lemma LexHeadAppend(x: string, y: string, n: nat, t: Token)
    requires '$' !in x && x != []
    requires y != [] && IsDelimiterChar(y[0])
    requires n == if x[0] == '\n' then 1 else TextRunLength(x)
    requires t == if x[0] == '\n' then NL else Text(x[..n])
    ensures 0 < n <= |x| && '$' !in x[n..]
    ensures Lex(x) == [t] + Lex(x[n..])
    ensures Lex(x + y) == [t] + Lex(x[n..] + y)
  {
    assert x[0] != '$' by { assert x[0] in x; }
    assert '$' !in x[n..] by { assert forall k :: 0 <= k < |x[n..]| ==> x[n..][k] == x[k + n]; }
    if x[0] == '\n' {
      LexAppendNewline(x, y);
    } else {
      LexAppendText(x, y);
    }
  }

  /**
   * Lexing distributes over a concatenation at a delimiter, provided the left
   * part has no `$` that could pair up with a `$` on the right.
   */
  lemma {:induction false} LexAppend(x: string, y: string)
    requires '$' !in x
    requires y != [] && IsDelimiterChar(y[0])
    ensures Lex(x + y) == Lex(x) + Lex(y)
    decreases |x|
  {
    if x == [] {
      assert x + y == y;
    } else {
      var n := if x[0] == '\n' then 1 else TextRunLength(x);
      var t := if x[0] == '\n' then NL else Text(x[..n]);
      LexHeadAppend(x, y, n, t);
      LexAppend(x[n..], y);
      ConsAppend(t, Lex(x[n..]), Lex(y), Lex(x), Lex(x + y), Lex(x[n..] + y));
    }
  }

  /** A non-empty string without `$` or newline is one text token. */
  lemma LexPlainText(x: string)
    requires x != [] && '$' !in x && '\n' !in x
    ensures Lex(x) == [Text(x)]
  {
    LexTextRun(x, |x|);
    assert x[..|x|] == x;
    assert x[|x|..] == [];
  }

  /** A lone `$` (not followed by another) is a `Dollar1` token. */
  lemma LexDollar(y: string)
    requires y == [] || y[0] != '$'
    ensures Lex("$" + y) == [Dollar1] + Lex(y)
  {
    assert ("$" + y)[1..] == y;
  }

  lemma LexDoubleDollar(y: string)
    ensures Lex("$$" + y) == [Dollar2] + Lex(y)
  {
    assert ("$$" + y)[2..] == y;
  }

  lemma LexNewline(y: string)
    ensures Lex("\n" + y) == [NL] + Lex(y)
  {
    assert ("\n" + y)[1..] == y;
  }

  /** A run of plain text up to a delimiter (or the end) is one text token. */
  lemma LexTextThen(x: string, y: string)
    requires x != [] && '$' !in x && '\n' !in x
    requires y == [] || IsDelimiterChar(y[0])
    ensures Lex(x + y) == [Text(x)] + Lex(y)
  {
    LexPlainText(x);
    if y == [] {
      assert x + y == x;
    } else {
      LexAppend(x, y);
    }
  }
}
