/**
 * The post-processor that turns the notebook (LaTeX) math delimiters a model
 * writes back into Obsidian's (convert_to_obsidian_latex_math.ts): outside a
 * code block and a math block, `\(` with the whitespace after it and `\)` with
 * the whitespace before it each become `$`, then `\[` and `\]` each become `$$`.
 *
 * The two global regular-expression replacements are modelled as the scans the
 * regular-expression engine performs: at each position the first alternative
 * that matches is replaced and the scan resumes after it; otherwise the
 * character is kept and the scan moves on by one.
 */
module ObsidianMath {
  import opened Types
  import opened JsStrings

  /** Length of a match of `\\\(\s*` at the start of `s`, or 0 when there is none. */
  function OpenLength(s: string): (n: nat)
    ensures n == 0 || 2 <= n <= |s|
    ensures n > 0 <==> |s| >= 2 && s[0] == '\\' && s[1] == '('
  {
    if |s| >= 2 && s[0] == '\\' && s[1] == '(' then 2 + SpaceRun(s[2..]) else 0
  }

  /**
   * Length of a match of `\s*\\\)` at the start of `s`, or 0. The greedy `\s*`
   * can only succeed with the whole run of whitespace, since a shorter run is
   * followed by whitespace and not by a backslash.
   */
  function CloseLength(s: string): (n: nat)
    ensures n == 0 || 2 <= n <= |s|
  {
    var w := SpaceRun(s);
    if w + 2 <= |s| && s[w] == '\\' && s[w + 1] == ')' then w + 2 else 0
  }

  /** `completion.replace(/(\\\(\s*)|(\s*\\\))/g, "$")` */
  function ReplaceInlineDelimiters(s: string): (r: string)
    ensures s == [] <==> r == []
    ensures r != [] ==> r[0] == '$' || r[0] == s[0]
    decreases |s|
  {
    if s == [] then []
    else
      var m := if OpenLength(s) > 0 then OpenLength(s) else CloseLength(s);
      if m > 0 then "$" + ReplaceInlineDelimiters(s[m..]) else [s[0]] + ReplaceInlineDelimiters(s[1..])
  }

  /** `s` starts with `\[` or `\]`. */
  predicate AtDisplayDelimiter(s: string)
  {
    |s| >= 2 && s[0] == '\\' && (s[1] == '[' || s[1] == ']')
  }

  /** `completion.replace(/(\\\[)|(\\\])/g, "$$$$")`: the replacement pattern `$$$$` inserts `$$`. */
  function ReplaceDisplayDelimiters(s: string): (r: string)
    ensures s == [] <==> r == []
    ensures r != [] ==> r[0] == '$' || r[0] == s[0]
    decreases |s|
  {
    if s == [] then []
    else if AtDisplayDelimiter(s) then "$$" + ReplaceDisplayDelimiters(s[2..])
    else [s[0]] + ReplaceDisplayDelimiters(s[1..])
  }

  /** `ConvertObsidianMathIndicators.process`: the prefix and the suffix are not consulted. */
  function Process(prefix: string, suffix: string, completion: string, context: Context): (r: string)
    ensures context == CodeBlock || context == MathBlock ==> r == completion
  {
    if context != CodeBlock && context != MathBlock then
      ReplaceDisplayDelimiters(ReplaceInlineDelimiters(completion))
    else completion
  }

  /** No `\(` and no `\)` anywhere in `s`. */
  predicate NoInlineDelimiter(s: string)
  {
    forall k :: 0 <= k < |s| - 1 ==> !(s[k] == '\\' && (s[k + 1] == '(' || s[k + 1] == ')'))
  }

  /** No `\[` and no `\]` anywhere in `s`. */
  predicate NoDisplayDelimiter(s: string)
  {
    forall k :: 0 <= k < |s| - 1 ==> !(s[k] == '\\' && (s[k + 1] == '[' || s[k + 1] == ']'))
  }

  /** `[c] + s` has no inline delimiter when `s` has none and `c` does not start one with `s`'s first character. */
  lemma NoInlineDelimiterCons(c: char, s: string)
    requires NoInlineDelimiter(s)
    requires c == '\\' && s != [] ==> s[0] != '(' && s[0] != ')'
    ensures NoInlineDelimiter([c] + s)
  {
    var t := [c] + s;
    forall k | 0 <= k < |t| - 1 ensures !(t[k] == '\\' && (t[k + 1] == '(' || t[k + 1] == ')')) {
      if k > 0 {
        assert t[k] == s[k - 1] && t[k + 1] == s[k];
      }
    }
  }

  lemma NoDisplayDelimiterCons(c: char, s: string)
    requires NoDisplayDelimiter(s)
    requires c == '\\' && s != [] ==> s[0] != '[' && s[0] != ']'
    ensures NoDisplayDelimiter([c] + s)
  {
    var t := [c] + s;
    forall k | 0 <= k < |t| - 1 ensures !(t[k] == '\\' && (t[k + 1] == '[' || t[k + 1] == ']')) {
      if k > 0 {
        assert t[k] == s[k - 1] && t[k + 1] == s[k];
      }
    }
  }

  /** Two texts without `\(` and `\)` that do not form one across the join have none together. */
  lemma NoInlineDelimiterConcat(a: string, b: string)
    requires NoInlineDelimiter(a) && NoInlineDelimiter(b)
    requires a == [] || b == [] || a[|a| - 1] != '\\' || (b[0] != '(' && b[0] != ')')
    ensures NoInlineDelimiter(a + b)
  {
    var t := a + b;
    forall k | 0 <= k < |t| - 1 ensures !(t[k] == '\\' && (t[k + 1] == '(' || t[k + 1] == ')')) {
      if k + 1 < |a| {
        assert t[k] == a[k] && t[k + 1] == a[k + 1];
      } else if k >= |a| {
        assert t[k] == b[k - |a|] && t[k + 1] == b[k + 1 - |a|];
      } else {
        assert t[k] == a[|a| - 1] && t[k + 1] == b[0];
      }
    }
  }

  /** Two texts without `\[` and `\]` that do not form one across the join have none together. */
  lemma NoDisplayDelimiterConcat(a: string, b: string)
    requires NoDisplayDelimiter(a) && NoDisplayDelimiter(b)
    requires a == [] || b == [] || a[|a| - 1] != '\\' || (b[0] != '[' && b[0] != ']')
    ensures NoDisplayDelimiter(a + b)
  {
    var t := a + b;
    forall k | 0 <= k < |t| - 1 ensures !(t[k] == '\\' && (t[k + 1] == '[' || t[k + 1] == ']')) {
      if k + 1 < |a| {
        assert t[k] == a[k] && t[k + 1] == a[k + 1];
      } else if k >= |a| {
        assert t[k] == b[k - |a|] && t[k + 1] == b[k + 1 - |a|];
      } else {
        assert t[k] == a[|a| - 1] && t[k + 1] == b[0];
      }
    }
  }

  /** The first pass leaves no `\(` and no `\)` behind. */
  lemma {:induction false} InlinePassRemovesDelimiters(s: string)
    ensures NoInlineDelimiter(ReplaceInlineDelimiters(s))
    decreases |s|
  {
    if s != [] {
      var m := if OpenLength(s) > 0 then OpenLength(s) else CloseLength(s);
      if m > 0 {
        InlinePassRemovesDelimiters(s[m..]);
        NoInlineDelimiterCons('$', ReplaceInlineDelimiters(s[m..]));
      } else {
        InlinePassRemovesDelimiters(s[1..]);
        if s[0] == '\\' && |s| >= 2 {
          // an unmatched backslash is not followed by a parenthesis
          assert SpaceRun(s) == 0;
          assert s[1] != '(' && s[1] != ')';
        }
        NoInlineDelimiterCons(s[0], ReplaceInlineDelimiters(s[1..]));
      }
    }
  }

  /** The second pass leaves no `\[` and no `\]` behind, and adds no `\(` or `\)`. */
  lemma {:induction false} DisplayPassRemovesDelimiters(s: string)
    ensures NoDisplayDelimiter(ReplaceDisplayDelimiters(s))
    ensures NoInlineDelimiter(s) ==> NoInlineDelimiter(ReplaceDisplayDelimiters(s))
    decreases |s|
  {
    if s != [] {
      var n := if AtDisplayDelimiter(s) then 2 else 1;
      var rest := ReplaceDisplayDelimiters(s[n..]);
      DisplayPassRemovesDelimiters(s[n..]);
      var inlineFree := NoInlineDelimiter(s);
      if inlineFree {
        assert NoInlineDelimiter(s[n..]) by {
          forall k | 0 <= k < |s[n..]| - 1 ensures !(s[n..][k] == '\\' && (s[n..][k + 1] == '(' || s[n..][k + 1] == ')')) {
            assert s[n..][k] == s[k + n] && s[n..][k + 1] == s[k + n + 1];
          }
        }
      }
      if n == 2 {
        assert "$$" + rest == ['$'] + (['$'] + rest);
        NoDisplayDelimiterCons('$', rest);
        NoDisplayDelimiterCons('$', ['$'] + rest);
        if inlineFree {
          NoInlineDelimiterCons('$', rest);
          NoInlineDelimiterCons('$', ['$'] + rest);
        }
      } else {
        if s[0] == '\\' && |s| >= 2 {
          assert s[1] != '[' && s[1] != ']';
        }
        NoDisplayDelimiterCons(s[0], rest);
        if inlineFree {
          if s[0] == '\\' && |s| >= 2 {
            assert s[1] != '(' && s[1] != ')';
          }
          NoInlineDelimiterCons(s[0], rest);
        }
      }
    }
  }

  /** Without `\)` in the text the closing alternative cannot match. */
  lemma NoCloseWithoutDelimiter(s: string)
    requires NoInlineDelimiter(s)
    ensures CloseLength(s) == 0
  {
    var w := SpaceRun(s);
    if w + 2 <= |s| && s[w] == '\\' {
      assert !(s[w] == '\\' && s[w + 1] == ')');
    }
  }

  /** The first pass changes nothing in a text without `\(` and `\)`. */
  lemma {:induction false} InlinePassIdentity(s: string)
    requires NoInlineDelimiter(s)
    ensures ReplaceInlineDelimiters(s) == s
    decreases |s|
  {
    if s != [] {
      NoCloseWithoutDelimiter(s);
      if |s| >= 2 {
        assert !(s[0] == '\\' && s[1] == '(');
      }
      assert NoInlineDelimiter(s[1..]) by {
        forall k | 0 <= k < |s[1..]| - 1 ensures !(s[1..][k] == '\\' && (s[1..][k + 1] == '(' || s[1..][k + 1] == ')')) {
          assert s[1..][k] == s[k + 1] && s[1..][k + 1] == s[k + 2];
        }
      }
      InlinePassIdentity(s[1..]);
      assert s == [s[0]] + s[1..];
    }
  }

  /** The second pass changes nothing in a text without `\[` and `\]`. */
  lemma {:induction false} DisplayPassIdentity(s: string)
    requires NoDisplayDelimiter(s)
    ensures ReplaceDisplayDelimiters(s) == s
    decreases |s|
  {
    if s != [] {
      if |s| >= 2 {
        assert !(s[0] == '\\' && (s[1] == '[' || s[1] == ']'));
      }
      assert NoDisplayDelimiter(s[1..]) by {
        forall k | 0 <= k < |s[1..]| - 1 ensures !(s[1..][k] == '\\' && (s[1..][k + 1] == '[' || s[1..][k + 1] == ']')) {
          assert s[1..][k] == s[k + 1] && s[1..][k + 1] == s[k + 2];
        }
      }
      DisplayPassIdentity(s[1..]);
      assert s == [s[0]] + s[1..];
    }
  }

  /** Outside code and math blocks, the processed completion holds none of the four LaTeX delimiters. */
  lemma ProcessRemovesDelimiters(prefix: string, suffix: string, completion: string, context: Context)
    requires context != CodeBlock && context != MathBlock
    ensures var r := Process(prefix, suffix, completion, context);
      NoInlineDelimiter(r) && NoDisplayDelimiter(r)
  {
    InlinePassRemovesDelimiters(completion);
    DisplayPassRemovesDelimiters(ReplaceInlineDelimiters(completion));
  }

  /** A completion without LaTeX delimiters, in particular one without a backslash, passes through unchanged. */
  lemma ProcessKeepsPlainText(prefix: string, suffix: string, completion: string, context: Context)
    requires NoInlineDelimiter(completion) && NoDisplayDelimiter(completion)
    ensures Process(prefix, suffix, completion, context) == completion
  {
    InlinePassIdentity(completion);
    DisplayPassIdentity(completion);
  }

  /** A text without a backslash has no LaTeX delimiter. */
  lemma NoBackslashNoDelimiter(s: string)
    requires '\\' !in s
    ensures NoInlineDelimiter(s) && NoDisplayDelimiter(s)
  {
    forall k | 0 <= k < |s| - 1 ensures s[k] != '\\' {
      assert s[k] in s;
    }
  }

  /** Converting twice is converting once. */
  lemma ProcessIdempotent(prefix: string, suffix: string, completion: string, context: Context)
    ensures var once := Process(prefix, suffix, completion, context);
      Process(prefix, suffix, once, context) == once
  {
    var once := Process(prefix, suffix, completion, context);
    if context != CodeBlock && context != MathBlock {
      ProcessRemovesDelimiters(prefix, suffix, completion, context);
      ProcessKeepsPlainText(prefix, suffix, once, context);
    }
  }

  // ---------------------------------------------------------------------------
  // What the passes do to a delimited formula
  // ---------------------------------------------------------------------------

  /** `SpaceRun` is the length of the leading whitespace, characterised by where it stops. */
  lemma {:induction false} SpaceRunAt(s: string, m: nat)
    requires m <= |s| && IsBlank(s[..m]) && (m == |s| || !IsSpace(s[m]))
    ensures SpaceRun(s) == m
    decreases |s|
  {
    if m > 0 {
      assert IsSpace(s[..m][0]);
      var t := s[1..][..m - 1];
      assert IsBlank(t) by {
        forall k | 0 <= k < |t| ensures IsSpace(t[k]) {
          assert t[k] == s[..m][k + 1];
        }
      }
      SpaceRunAt(s[1..], m - 1);
    }
  }

  /**
   * `x` followed by `y` does not form a delimiter across the join: a trailing
   * backslash of `x` does not meet a parenthesis, and trailing whitespace of `x`
   * does not run into a closing delimiter at the start of `y`.
   */
  predicate JoinsWithoutInlineDelimiter(x: string, y: string)
  {
    x == [] ||
    ((x[|x| - 1] == '\\' ==> y == [] || (y[0] != '(' && y[0] != ')'))
     && (IsSpace(x[|x| - 1]) ==> CloseLength(y) == 0))
  }

  /** No match of the first pass starts inside `x` when `x` and its join with `y` are free of delimiters. */
  lemma NoInlineMatchAt(x: string, y: string)
    requires x != [] && NoInlineDelimiter(x) && JoinsWithoutInlineDelimiter(x, y)
    ensures OpenLength(x + y) == 0 && CloseLength(x + y) == 0
  {
    var s := x + y;
    if |x| >= 2 {
      assert !(x[0] == '\\' && x[1] == '(');
    }
    var w := SpaceRun(s);
    if w + 1 < |x| {
      assert !(x[w] == '\\' && x[w + 1] == ')');
    } else if w + 1 == |x| {
      if w + 1 < |s| {
        assert s[w + 1] == y[0];
      }
    } else {
      // all of `x` is whitespace, so the run goes on into `y`
      assert IsSpace(s[..w][|x| - 1]);
      var v := w - |x|;
      assert IsBlank(y[..v]) by {
        forall k | 0 <= k < v ensures IsSpace(y[..v][k]) {
          assert y[..v][k] == s[..w][|x| + k];
        }
      }
      if w < |s| {
        assert y[v] == s[w];
      }
      SpaceRunAt(y, v);
      if w + 2 <= |s| {
        assert y[v] == s[w] && y[v + 1] == s[w + 1];
      }
    }
  }

  /** One step of the first pass where nothing matches at the start of `x`: its first character is kept. */
  lemma InlinePassKeeps(x: string, y: string)
    requires x != [] && NoInlineDelimiter(x) && JoinsWithoutInlineDelimiter(x, y)
    ensures ReplaceInlineDelimiters(x + y) == [x[0]] + ReplaceInlineDelimiters(x[1..] + y)
  {
    NoInlineMatchAt(x, y);
    assert (x + y)[1..] == x[1..] + y;
  }

  /** The first pass copies a delimiter-free `x` and goes on with `y`. */
  lemma {:induction false} InlinePassCopies(x: string, y: string)
    requires NoInlineDelimiter(x) && JoinsWithoutInlineDelimiter(x, y)
    ensures ReplaceInlineDelimiters(x + y) == x + ReplaceInlineDelimiters(y)
    decreases |x|
  {
    if x == [] {
      assert x + y == y;
    } else {
      var t := x[1..];
      assert NoInlineDelimiter(t) by {
        forall k | 0 <= k < |t| - 1 ensures !(t[k] == '\\' && (t[k + 1] == '(' || t[k + 1] == ')')) {
          assert t[k] == x[k + 1] && t[k + 1] == x[k + 2];
        }
      }
      assert JoinsWithoutInlineDelimiter(t, y) by {
        if t != [] {
          assert t[|t| - 1] == x[|x| - 1];
        }
      }
      calc {
        ReplaceInlineDelimiters(x + y);
      == { InlinePassKeeps(x, y); }
        [x[0]] + ReplaceInlineDelimiters(t + y);
      == { InlinePassCopies(t, y); }
        [x[0]] + (t + ReplaceInlineDelimiters(y));
      == { assert x == [x[0]] + t; }
        x + ReplaceInlineDelimiters(y);
      }
    }
  }

  /** `x` followed by `y` does not form `\[` or `\]` across the join. */
  predicate JoinsWithoutDisplayDelimiter(x: string, y: string)
  {
    x == [] || x[|x| - 1] != '\\' || y == [] || (y[0] != '[' && y[0] != ']')
  }

  /** One step of the second pass away from a delimiter: the first character of `x` is kept. */
  lemma DisplayPassKeeps(x: string, y: string)
    requires x != [] && NoDisplayDelimiter(x) && JoinsWithoutDisplayDelimiter(x, y)
    ensures ReplaceDisplayDelimiters(x + y) == [x[0]] + ReplaceDisplayDelimiters(x[1..] + y)
  {
    if |x| >= 2 {
      assert !(x[0] == '\\' && (x[1] == '[' || x[1] == ']'));
    }
    assert !AtDisplayDelimiter(x + y);
    assert (x + y)[1..] == x[1..] + y;
  }

  /** The second pass copies a delimiter-free `x` and goes on with `y`. */
  lemma {:induction false} DisplayPassCopies(x: string, y: string)
    requires NoDisplayDelimiter(x) && JoinsWithoutDisplayDelimiter(x, y)
    ensures ReplaceDisplayDelimiters(x + y) == x + ReplaceDisplayDelimiters(y)
    decreases |x|
  {
    if x == [] {
      assert x + y == y;
    } else {
      var t := x[1..];
      assert NoDisplayDelimiter(t) by {
        forall k | 0 <= k < |t| - 1 ensures !(t[k] == '\\' && (t[k + 1] == '[' || t[k + 1] == ']')) {
          assert t[k] == x[k + 1] && t[k + 1] == x[k + 2];
        }
      }
      assert JoinsWithoutDisplayDelimiter(t, y) by {
        if t != [] {
          assert t[|t| - 1] == x[|x| - 1];
        }
      }
      calc {
        ReplaceDisplayDelimiters(x + y);
      == { DisplayPassKeeps(x, y); }
        [x[0]] + ReplaceDisplayDelimiters(t + y);
      == { DisplayPassCopies(t, y); }
        [x[0]] + (t + ReplaceDisplayDelimiters(y));
      == { assert x == [x[0]] + t; }
        x + ReplaceDisplayDelimiters(y);
      }
    }
  }

  /** An opening `\(` takes the whitespace after it with it, wherever it stands. */
  lemma InlineOpenEatsSpace(w: string, rest: string)
    requires IsBlank(w) && (rest == [] || !IsSpace(rest[0]))
    ensures ReplaceInlineDelimiters("\\(" + w + rest) == "$" + ReplaceInlineDelimiters(rest)
  {
    var s := "\\(" + w + rest;
    var u := w + rest;
    assert s[2..] == u;
    assert u[..|w|] == w;
    SpaceRunAt(u, |w|);
    assert OpenLength(s) == 2 + |w|;
    assert s[2 + |w|..] == rest;
  }

  /** A closing `\)` takes the whitespace before it with it, wherever it stands. */
  lemma InlineCloseEatsSpace(w: string, rest: string)
    requires IsBlank(w)
    ensures ReplaceInlineDelimiters(w + "\\)" + rest) == "$" + ReplaceInlineDelimiters(rest)
  {
    var s := w + "\\)" + rest;
    assert s[..|w|] == w;
    assert s[|w|] == '\\' && s[|w| + 1] == ')';
    SpaceRunAt(s, |w|);
    assert CloseLength(s) == |w| + 2;
    if |s| >= 2 && s[0] == '\\' {
      assert |w| == 0;
    }
    assert s[|w| + 2..] == rest;
  }

  /**
   * The contents of an inline formula are copied, the closing delimiter and
   * the whitespace before it become `$`, and the scan goes on after it.
   */
  lemma InlineFormulaBody(x: string, w: string, rest: string)
    requires IsBlank(w)
    requires x != [] && !IsSpace(x[|x| - 1])
    requires NoInlineDelimiter(x)
    ensures ReplaceInlineDelimiters(x + (w + "\\)" + rest)) == x + "$" + ReplaceInlineDelimiters(rest)
  {
    var close := w + "\\)" + rest;
    assert JoinsWithoutInlineDelimiter(x, close) by {
      if w != [] {
        assert close[0] == w[0] && IsSpace(w[0]);
      } else {
        assert close[0] == '\\';
      }
    }
    InlinePassCopies(x, close);
    InlineCloseEatsSpace(w, rest);
  }

  /**
   * The first pass turns `\(`, blank `w1`, `x`, blank `w2`, `\)` into `$x$`,
   * the whitespace just inside the delimiters dropped, and goes on with the
   * text after it.
   */
  lemma InlineFormulaTrimmed(w1: string, x: string, w2: string, rest: string)
    requires IsBlank(w1) && IsBlank(w2)
    requires x != [] && !IsSpace(x[0]) && !IsSpace(x[|x| - 1])
    requires NoInlineDelimiter(x)
    ensures ReplaceInlineDelimiters("\\(" + w1 + x + w2 + "\\)" + rest)
         == "$" + x + "$" + ReplaceInlineDelimiters(rest)
  {
    var body := x + (w2 + "\\)" + rest);
    assert body[0] == x[0];
    assert "\\(" + w1 + x + w2 + "\\)" + rest == "\\(" + w1 + body;
    InlineOpenEatsSpace(w1, body);
    InlineFormulaBody(x, w2, rest);
    assert "$" + (x + "$" + ReplaceInlineDelimiters(rest)) == "$" + x + "$" + ReplaceInlineDelimiters(rest);
  }

  /** The second pass turns `\[x\]` into `$$x$$` and goes on with the text after it. */
  lemma DisplayFormula(x: string, rest: string)
    requires NoDisplayDelimiter(x)
    ensures ReplaceDisplayDelimiters("\\[" + x + "\\]" + rest) == "$$" + x + "$$" + ReplaceDisplayDelimiters(rest)
  {
    var close := "\\]" + rest;
    var s := "\\[" + x + "\\]" + rest;
    assert s == "\\[" + (x + close);
    assert s[2..] == x + close;
    DisplayPassCopies(x, close);
    assert close[2..] == rest;
    assert "$$" + (x + ("$$" + ReplaceDisplayDelimiters(rest))) == "$$" + x + "$$" + ReplaceDisplayDelimiters(rest);
  }
}
