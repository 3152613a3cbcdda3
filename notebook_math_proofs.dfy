/**
 * What `tokenise` does to a document, proved about the scan of
 * notebook_math.dfy: how each kind of math span is rewritten wherever it
 * occurs in the token stream, and what that gives for whole documents.
 */
module NotebookMathProofs {
  import Types
  import opened NotebookLexer
  import opened NotebookMath

  // ---------------------------------------------------------------------------
  // Committing

  lemma CommitSingleTwice(o: Out, a: string, b: string)
    ensures CommitSingle(CommitSingle(o, a), b) == CommitSingle(o, a + b)
  {
    assert (o.prefix + a) + b == o.prefix + (a + b);
    assert (o.suffix + a) + b == o.suffix + (a + b);
  }

  lemma CommitSingleEmpty(o: Out)
    ensures CommitSingle(o, "") == o
  {
    assert o.prefix + "" == o.prefix;
    assert o.suffix + "" == o.suffix;
  }

  /** Committing a sequence in two parts is committing the parts one after the other. */
  lemma {:induction false} EmitAppend(o: Out, a: seq<Token>, b: seq<Token>)
    ensures Emit(o, a + b) == Emit(Emit(o, a), b)
    decreases |a|
  {
    if a == [] {
      assert a + b == b;
    } else {
      assert (a + b)[0] == a[0];
      assert (a + b)[1..] == a[1..] + b;
      var next := if a[0] == Cursor then o.(insideSuffix := true) else CommitSingle(o, TokenText(a[0]));
      EmitAppend(next, a[1..], b);
    }
  }

  predicate NoCursor(items: seq<Token>)
  {
    forall k :: 0 <= k < |items| ==> items[k] != Cursor
  }

  /** Without the cursor marker, a sequence of tokens is written out as its text, on the current side. */
  lemma {:induction false} EmitWithoutCursor(o: Out, items: seq<Token>)
    requires NoCursor(items)
    ensures Emit(o, items) == CommitSingle(o, Flatten(items))
    decreases |items|
  {
    if items == [] {
      CommitSingleEmpty(o);
    } else {
      assert NoCursor(items[1..]) by {
        forall k | 0 <= k < |items[1..]| ensures items[1..][k] != Cursor {
          assert items[1..][k] == items[k + 1];
        }
      }
      assert items[0] != Cursor;
      EmitWithoutCursor(CommitSingle(o, TokenText(items[0])), items[1..]);
      CommitSingleTwice(o, TokenText(items[0]), Flatten(items[1..]));
    }
  }

  /** Committing the cursor marker writes nothing and moves the output to the suffix. */
  lemma EmitCursor(o: Out)
    ensures Emit(o, [Cursor]) == o.(insideSuffix := true)
  {
  }

  /** The lexer's tokens carry no cursor marker. */
  lemma LexNoCursor(s: string)
    ensures NoCursor(Lex(s))
  {
    LexWithoutMarkers(s);
  }

  /** A string's tokens, committed, write the string itself. */
  lemma EmitLex(o: Out, s: string)
    ensures Emit(o, Lex(s)) == CommitSingle(o, s)
  {
    LexNoCursor(s);
    EmitWithoutCursor(o, Lex(s));
    LexRoundTrip(s);
  }

  /** After the loop, whatever is still pending from `mi` on is written verbatim. */
  lemma PendingFlushedVerbatim(toks: seq<Token>, s: Scan)
    ensures Finish(toks, s) == Emit(s.out, Slice(toks, s.mi, |toks|))
  {
    CommitSingleEmpty(s.out);
    CommitSingleEmpty(Emit(s.out, Slice(toks, s.mi, |toks|)));
  }

  // ---------------------------------------------------------------------------
  // Running the scan

  /** A token on which the scan, in mode `st`, does nothing at all. */
  predicate Inert(t: Token, st: Mode)
  {
    match st
    case Normal => t != Dollar1 && t != Dollar2
    case Single => t.Text? || t == Cursor
    case Double => t != Dollar2
  }

  /** Tokens the current mode ignores leave the scan as it is. */
  lemma {:induction false} RunSkipsInert(toks: seq<Token>, i: nat, j: nat, s: Scan)
    requires i <= j <= |toks|
    requires forall k :: i <= k < j ==> Inert(toks[k], s.st)
    ensures Run(toks, i, s) == Run(toks, j, s)
    decreases j - i
  {
    if i < j {
      assert Inert(toks[i], s.st);
      assert Step(toks, i, s) == s;
      RunSkipsInert(toks, i + 1, j, s);
    }
  }

  // ---------------------------------------------------------------------------
  // One math span, wherever it occurs in the stream

  /** What may stand between the two `$` of an inline span: text runs and the cursor marker. */
  predicate InlineBody(toks: seq<Token>, i: nat, j: nat)
    requires j <= |toks|
  {
    forall k :: i < k < j ==> toks[k].Text? || toks[k] == Cursor
  }

  /**
   * `$…$`: from a `$` outside math, up to the next `$` with only text (and
   * perhaps the cursor) in between, the text before the span is committed as
   * it is and the span's contents are committed between `\(` and `\)`.
   */
  lemma ClosedInlineSpan(toks: seq<Token>, i: nat, j: nat, s: Scan)
    requires s.st == Normal && i < j < |toks|
    requires toks[i] == Dollar1 && toks[j] == Dollar1
    requires InlineBody(toks, i, j)
    ensures Run(toks, i, s)
         == Run(toks, j + 1, Scan(Committed(Committed(s.out, "", toks, s.mi, i, ""), "\\(", toks, i + 1, j, "\\)"), j + 1, Normal))
  {
    var started := Step(toks, i, s);
    assert started == Scan(Committed(s.out, "", toks, s.mi, i, ""), i, Single);
    RunSkipsInert(toks, i + 1, j, started);
  }

  /** `$$…$$`: the same for a display span, whose contents may hold newlines and single `$`. */
  lemma ClosedDisplaySpan(toks: seq<Token>, i: nat, j: nat, s: Scan)
    requires s.st == Normal && i < j < |toks|
    requires toks[i] == Dollar2 && toks[j] == Dollar2
    requires forall k :: i < k < j ==> toks[k] != Dollar2
    ensures Run(toks, i, s)
         == Run(toks, j + 1, Scan(Committed(Committed(s.out, "", toks, s.mi, i, ""), "\\[", toks, i + 1, j, "\\]"), j + 1, Normal))
  {
    var started := Step(toks, i, s);
    assert started == Scan(Committed(s.out, "", toks, s.mi, i, ""), i, Double);
    RunSkipsInert(toks, i + 1, j, started);
  }

  /**
   * An inline span that a newline or the end of the document cuts off while
   * the cursor is inside it is half-open: `\(` and the contents are committed,
   * followed by the newline (or nothing), and no `\)`.
   */
  lemma HalfOpenInlineSpan(toks: seq<Token>, i: nat, j: nat, s: Scan)
    requires s.st == Normal && i < j < |toks|
    requires toks[i] == Dollar1 && (toks[j] == NL || toks[j] == End)
    requires InlineBody(toks, i, j)
    requires exists k :: i < k < j && toks[k] == Cursor
    ensures Run(toks, i, s)
         == Run(toks, j + 1, Scan(Committed(Committed(s.out, "", toks, s.mi, i, ""), "\\(", toks, i + 1, j, TokenText(toks[j])), j + 1, Normal))
  {
    var started := Step(toks, i, s);
    assert started == Scan(Committed(s.out, "", toks, s.mi, i, ""), i, Single);
    RunSkipsInert(toks, i + 1, j, started);
    HasCursorIff(toks, i + 1, j);
  }

  /**
   * An inline span that a newline or the end of the document cuts off before
   * the cursor is aborted: nothing is rewritten, and the `$` with everything
   * after it stays pending, to be committed verbatim.
   */
  lemma AbortedInlineSpan(toks: seq<Token>, i: nat, j: nat, s: Scan)
    requires s.st == Normal && i < j < |toks|
    requires toks[i] == Dollar1 && (toks[j] == NL || toks[j] == End)
    requires forall k :: i < k < j ==> toks[k].Text?
    ensures Run(toks, i, s) == Run(toks, j + 1, Scan(Committed(s.out, "", toks, s.mi, i, ""), i, Normal))
  {
    var started := Step(toks, i, s);
    assert started == Scan(Committed(s.out, "", toks, s.mi, i, ""), i, Single);
    RunSkipsInert(toks, i + 1, j, started);
    HasCursorIff(toks, i + 1, j);
  }

  /**
   * A `$$` inside an inline span closes it as if it were `$` and opens a new
   * inline span, but that span's contents are taken to start one token past
   * the one after the `$$`: the scan resumes with `mi` at `j + 1`, so the
   * token at `j + 1` is never committed if the new span closes.
   */
  lemma DoubleDollarInsideInlineSpan(toks: seq<Token>, i: nat, j: nat, s: Scan)
    requires s.st == Normal && i < j < |toks|
    requires toks[i] == Dollar1 && toks[j] == Dollar2
    requires InlineBody(toks, i, j)
    ensures Run(toks, i, s)
         == Run(toks, j + 1, Scan(Committed(Committed(s.out, "", toks, s.mi, i, ""), "\\(", toks, i + 1, j, "\\)"), j + 1, Single))
  {
    var started := Step(toks, i, s);
    assert started == Scan(Committed(s.out, "", toks, s.mi, i, ""), i, Single);
    RunSkipsInert(toks, i + 1, j, started);
  }

  /** An unterminated `$$` span is never rewritten: the scan ends in display mode with everything from the `$$` pending. */
  lemma UnterminatedDisplaySpan(toks: seq<Token>, i: nat, s: Scan)
    requires s.st == Normal && i < |toks|
    requires toks[i] == Dollar2
    requires forall k :: i < k < |toks| ==> toks[k] != Dollar2
    ensures Run(toks, i, s) == Scan(Committed(s.out, "", toks, s.mi, i, ""), i, Double)
    ensures Finish(toks, Run(toks, i, s)) == Emit(Committed(s.out, "", toks, s.mi, i, ""), toks[i..])
  {
    var started := Step(toks, i, s);
    assert started == Scan(Committed(s.out, "", toks, s.mi, i, ""), i, Double);
    assert Run(toks, i, s) == Run(toks, i + 1, started);
    RunSkipsInert(toks, i + 1, |toks|, started);
    assert Run(toks, |toks|, started) == started;
    PendingFlushedVerbatim(toks, started);
    assert Slice(toks, i, |toks|) == toks[i..];
  }

  // ---------------------------------------------------------------------------
  // Whole documents

  const Blank: Out := Out("", "", false)

  /** A scan that has nothing left to do from `j` on writes the rest out verbatim. */
  lemma QuietRest(toks: seq<Token>, j: nat, s: Scan)
    requires s.st == Normal && s.mi == j <= |toks|
    requires forall k :: j <= k < |toks| ==> Inert(toks[k], Normal)
    ensures Finish(toks, Run(toks, j, s)) == Emit(s.out, toks[j..])
  {
    RunSkipsInert(toks, j, |toks|, s);
    assert Run(toks, |toks|, s) == s;
    PendingFlushedVerbatim(toks, s);
    assert Slice(toks, j, |toks|) == toks[j..];
  }

  /** Committing the cursor, the suffix's tokens and the end marker moves to the suffix and appends the suffix. */
  lemma EmitTail(o: Out, suffix: string)
    requires !o.insideSuffix
    ensures Emit(o, [Cursor] + Lex(suffix) + [End]) == Out(o.prefix, o.suffix + suffix, true)
  {
    assert [Cursor] + Lex(suffix) + [End] == [Cursor] + (Lex(suffix) + [End]);
    EmitAppend(o, [Cursor], Lex(suffix) + [End]);
    var o1 := o.(insideSuffix := true);
    EmitAppend(o1, Lex(suffix), [End]);
    EmitLex(o1, suffix);
    var o2 := Out(o.prefix, o.suffix + suffix, true);
    assert CommitSingle(o1, suffix) == o2;
    CommitSingleEmpty(o2);
  }

  /** Committing the whole stream verbatim gives back the prefix and the suffix. */
  lemma EmitStream(prefix: string, suffix: string)
    ensures Emit(Blank, Stream(prefix, suffix)) == Out(prefix, suffix, true)
  {
    var tail := [Cursor] + Lex(suffix) + [End];
    var o := Out(prefix, "", false);
    calc {
      Emit(Blank, Stream(prefix, suffix));
    == { assert Stream(prefix, suffix) == Lex(prefix) + tail; }
      Emit(Blank, Lex(prefix) + tail);
    == { EmitAppend(Blank, Lex(prefix), tail); }
      Emit(Emit(Blank, Lex(prefix)), tail);
    == { EmitLex(Blank, prefix); assert CommitSingle(Blank, prefix) == o; }
      Emit(o, tail);
    == { EmitTail(o, suffix); }
      Out(prefix, suffix, true);
    }
  }


  /** The tokens of a dollar-free string leave a scan outside math untouched. */
  lemma LexIsInert(s: string)
    requires '$' !in s
    ensures forall k :: 0 <= k < |Lex(s)| ==> Inert(Lex(s)[k], Normal)
  {
    LexWithoutDollar(s);
  }

  /** Text without a `$` passes through `tokenise` unchanged. */
  lemma NoDollarIdentity(prefix: string, suffix: string)
    requires '$' !in prefix && '$' !in suffix
    ensures Tokenised(prefix, suffix) == Types.PrefixAndSuffix(prefix, suffix)
  {
    var toks := Stream(prefix, suffix);
    LexIsInert(prefix);
    LexIsInert(suffix);
    var lp := |Lex(prefix)|;
    forall k | 0 <= k < |toks| ensures Inert(toks[k], Normal) {
      if k < lp {
        assert toks[k] == Lex(prefix)[k];
      } else if lp < k < |toks| - 1 {
        assert toks[k] == Lex(suffix)[k - lp - 1];
      }
    }
    RunSkipsInert(toks, 0, |toks|, Initial);
    assert Run(toks, |toks|, Initial) == Initial;
    PendingFlushedVerbatim(toks, Initial);
    assert Slice(toks, 0, |toks|) == toks;
    EmitStream(prefix, suffix);
  }
  /** In any context, the pre-processor leaves a document without `$` exactly as it was. */
  lemma ProcessKeepsDollarFreeText(prefix: string, suffix: string, context: Types.Context)
    requires '$' !in prefix && '$' !in suffix
    ensures Process(prefix, suffix, context) == Types.PrefixAndSuffix(prefix, suffix)
  {
    NoDollarIdentity(prefix, suffix);
  }


  /** From the cursor on, a dollar-free suffix gives the scan nothing to do outside math. */
  lemma TailInert(toks: seq<Token>, j: nat, suffix: string)
    requires '$' !in suffix
    requires j <= |toks| && toks[j..] == [Cursor] + Lex(suffix) + [End]
    ensures forall k :: j <= k < |toks| ==> Inert(toks[k], Normal)
  {
    LexIsInert(suffix);
    forall k | j <= k < |toks| ensures Inert(toks[k], Normal) {
      assert toks[k] == toks[j..][k - j];
      if j < k < |toks| - 1 {
        assert toks[k] == Lex(suffix)[k - j - 1];
      }
    }
  }

  /** The tokens of `$x$`. */
  lemma LexInline(x: string)
    requires x != [] && '$' !in x && '\n' !in x
    ensures Lex("$" + x + "$") == [Dollar1, Token.Text(x), Dollar1]
  {
    assert "$" + x + "$" == "$" + (x + "$");
    LexTextThen(x, "$");
    LexDollar(x + "$");
    LexDollar("");
  }

  lemma InlineRun(toks: seq<Token>, x: string, suffix: string)
    requires '$' !in suffix
    requires |toks| >= 3 && toks[0] == Dollar1 && toks[1] == Token.Text(x) && toks[2] == Dollar1
    requires toks[3..] == [Cursor] + Lex(suffix) + [End]
    ensures Finish(toks, Run(toks, 0, Initial)) == Out("\\(" + x + "\\)", suffix, true)
  {
    ClosedInlineSpan(toks, 0, 2, Initial);
    assert Committed(Blank, "", toks, 0, 0, "") == Blank by { CommitSingleEmpty(Blank); }
    var o := Out("\\(" + x + "\\)", "", false);
    assert Committed(Blank, "\\(", toks, 1, 2, "\\)") == o by {
      assert Slice(toks, 1, 2) == [Token.Text(x)];
      assert CommitSingle(Blank, "\\(") == Out("\\(", "", false);
      EmitWithoutCursor(Out("\\(", "", false), [Token.Text(x)]);
      assert Flatten([Token.Text(x)]) == x;
    }
    TailInert(toks, 3, suffix);
    QuietRest(toks, 3, Scan(o, 3, Normal));
    EmitTail(o, suffix);
  }

  /** An inline formula before the cursor: `$x$` becomes `\(x\)`. */
  lemma InlineMath(x: string, suffix: string)
    requires x != [] && '$' !in x && '\n' !in x
    requires '$' !in suffix
    ensures Tokenised("$" + x + "$", suffix) == Types.PrefixAndSuffix("\\(" + x + "\\)", suffix)
  {
    LexInline(x);
    var toks := Stream("$" + x + "$", suffix);
    assert toks[..3] == [Dollar1, Token.Text(x), Dollar1];
    assert toks[3..] == [Cursor] + Lex(suffix) + [End];
    InlineRun(toks, x, suffix);
  }

  /** The tokens of `$$x$$`. */
  lemma LexDisplay(x: string)
    requires '$' !in x
    ensures Lex("$$" + x + "$$") == [Dollar2] + Lex(x) + [Dollar2]
  {
    assert "$$" + x + "$$" == "$$" + (x + "$$");
    LexDoubleDollar(x + "$$");
    LexAppend(x, "$$");
    LexDoubleDollar("");
  }

  lemma DisplayRun(toks: seq<Token>, x: string, suffix: string)
    requires '$' !in x && '$' !in suffix
    requires |toks| > |Lex(x)| + 1
    requires toks[0] == Dollar2 && toks[1..|Lex(x)| + 1] == Lex(x) && toks[|Lex(x)| + 1] == Dollar2
    requires toks[|Lex(x)| + 2..] == [Cursor] + Lex(suffix) + [End]
    ensures Finish(toks, Run(toks, 0, Initial)) == Out("\\[" + x + "\\]", suffix, true)
  {
    var j := |Lex(x)| + 1;
    LexWithoutDollar(x);
    forall k | 0 < k < j ensures toks[k] != Dollar2 {
      assert toks[k] == toks[1..j][k - 1];
    }
    ClosedDisplaySpan(toks, 0, j, Initial);
    assert Committed(Blank, "", toks, 0, 0, "") == Blank by { CommitSingleEmpty(Blank); }
    var o := Out("\\[" + x + "\\]", "", false);
    assert Committed(Blank, "\\[", toks, 1, j, "\\]") == o by {
      assert Slice(toks, 1, j) == Lex(x);
      assert CommitSingle(Blank, "\\[") == Out("\\[", "", false);
      EmitLex(Out("\\[", "", false), x);
    }
    TailInert(toks, j + 1, suffix);
    QuietRest(toks, j + 1, Scan(o, j + 1, Normal));
    EmitTail(o, suffix);
  }

  /** A display formula before the cursor: `$$x$$` becomes `\[x\]`, newlines inside included. */
  lemma DisplayMath(x: string, suffix: string)
    requires '$' !in x && '$' !in suffix
    ensures Tokenised("$$" + x + "$$", suffix) == Types.PrefixAndSuffix("\\[" + x + "\\]", suffix)
  {
    LexDisplay(x);
    var toks := Stream("$$" + x + "$$", suffix);
    var j := |Lex(x)| + 1;
    assert toks[1..j] == Lex(x);
    assert toks[j + 1..] == [Cursor] + Lex(suffix) + [End];
    DisplayRun(toks, x, suffix);
  }

  /** The tokens of `$$b$`. */
  lemma LexDoubleDollarThenText(b: string)
    requires b != [] && '$' !in b && '\n' !in b
    ensures Lex("$$" + (b + "$")) == [Dollar2, Token.Text(b), Dollar1]
  {
    LexDollar("");
    LexTextThen(b, "$");
    LexDoubleDollar(b + "$");
  }

  /** The tokens of `$a$$b$`. */
  lemma LexInlineWithDoubleDollar(a: string, b: string)
    requires a != [] && '$' !in a && '\n' !in a
    requires b != [] && '$' !in b && '\n' !in b
    ensures Lex("$" + a + "$$" + b + "$") == [Dollar1, Token.Text(a), Dollar2, Token.Text(b), Dollar1]
  {
    var tail := "$$" + (b + "$");
    assert "$" + a + "$$" + b + "$" == "$" + (a + tail);
    LexDoubleDollarThenText(b);
    LexTextThen(a, tail);
    assert (a + tail)[0] == a[0];
    LexDollar(a + tail);
  }

  /** The scan over `$`, `a`, `$$`: the `$$` closes the inline span and opens another. */
  lemma DoubleDollarOpens(toks: seq<Token>, a: string)
    requires |toks| > 3
    requires toks[0] == Dollar1 && toks[1] == Token.Text(a) && toks[2] == Dollar2
    ensures Run(toks, 0, Initial) == Run(toks, 3, Scan(Out("\\(" + a + "\\)", "", false), 3, Single))
  {
    DoubleDollarInsideInlineSpan(toks, 0, 2, Initial);
    assert Committed(Blank, "", toks, 0, 0, "") == Blank by { CommitSingleEmpty(Blank); }
    assert Committed(Blank, "\\(", toks, 1, 2, "\\)") == Out("\\(" + a + "\\)", "", false) by {
      assert Slice(toks, 1, 2) == [Token.Text(a)];
      assert CommitSingle(Blank, "\\(") == Out("\\(", "", false);
      EmitWithoutCursor(Out("\\(", "", false), [Token.Text(a)]);
      assert Flatten([Token.Text(a)]) == a;
    }
  }

  /** The span reopened by `$$` starts one token late: the text after it is skipped and the next `$` closes it empty. */
  lemma ReopenedSpanSkipsToken(toks: seq<Token>, o: Out)
    requires |toks| > 4
    requires toks[3].Text? && toks[4] == Dollar1
    ensures Run(toks, 3, Scan(o, 3, Single)) == Run(toks, 5, Scan(Committed(o, "\\(", toks, 4, 4, "\\)"), 5, Normal))
  {
    var s3 := Scan(o, 3, Single);
    assert Step(toks, 3, s3) == s3;
  }

  /** The scan over `$`, `a`, `$$`, `b`, `$`: the `$$` closes and reopens, `b` is skipped. */
  lemma DoubleDollarRunHead(toks: seq<Token>, a: string, b: string)
    requires |toks| == 7
    requires toks[0] == Dollar1 && toks[1] == Token.Text(a) && toks[2] == Dollar2
    requires toks[3] == Token.Text(b) && toks[4] == Dollar1
    ensures Run(toks, 0, Initial) == Run(toks, 5, Scan(Out("\\(" + a + "\\)\\(\\)", "", false), 5, Normal))
  {
    var o1 := Out("\\(" + a + "\\)", "", false);
    DoubleDollarOpens(toks, a);
    ReopenedSpanSkipsToken(toks, o1);
    assert Committed(o1, "\\(", toks, 4, 4, "\\)") == Out("\\(" + a + "\\)\\(\\)", "", false) by {
      CommitSingleTwice(o1, "\\(", "\\)");
      assert ("\\(" + a + "\\)") + ("\\(" + "\\)") == "\\(" + a + "\\)\\(\\)";
    }
  }

  lemma DoubleDollarRun(toks: seq<Token>, a: string, b: string)
    requires |toks| == 7
    requires toks[0] == Dollar1 && toks[1] == Token.Text(a) && toks[2] == Dollar2
    requires toks[3] == Token.Text(b) && toks[4] == Dollar1 && toks[5] == Cursor && toks[6] == End
    ensures Finish(toks, Run(toks, 0, Initial)) == Out("\\(" + a + "\\)\\(\\)", "", true)
  {
    DoubleDollarRunHead(toks, a, b);
    var o2 := Out("\\(" + a + "\\)\\(\\)", "", false);
    var s5 := Scan(o2, 5, Normal);
    // the cursor and the end marker leave the scan alone and are flushed verbatim
    assert Run(toks, 5, s5) == s5 by {
      assert Step(toks, 5, s5) == s5;
      assert Step(toks, 6, s5) == s5;
      assert Run(toks, 7, s5) == s5;
      assert Run(toks, 6, s5) == s5;
    }
    assert Finish(toks, s5) == Out(o2.prefix, "", true) by {
      assert Slice(toks, 5, 7) == [Cursor, End];
      assert Emit(o2, [Cursor, End]) == Emit(o2.(insideSuffix := true), [End]);
      CommitSingleEmpty(o2);
    }
  }


  /**
   * As written, a `$$` inside an inline span loses the token after it: in
   * `$a$$b$` the `b` is never committed, and the document becomes
   * `\(a\)\(\)` rather than `\(a\)\(b\)` or the unchanged text.
   */
  lemma DoubleDollarDropsToken(a: string, b: string)
    requires a != [] && '$' !in a && '\n' !in a
    requires b != [] && '$' !in b && '\n' !in b
    ensures Tokenised("$" + a + "$$" + b + "$", "") == Types.PrefixAndSuffix("\\(" + a + "\\)\\(\\)", "")
  {
    LexInlineWithDoubleDollar(a, b);
    var toks := Stream("$" + a + "$$" + b + "$", "");
    assert Lex("") == [];
    assert toks == [Dollar1, Token.Text(a), Dollar2, Token.Text(b), Dollar1, Cursor, End];
    DoubleDollarRun(toks, a, b);
  }

  /** The tokens of a piece of one line without `$`: none, or one text run. */
  lemma LexLinePiece(x: string)
    requires '$' !in x && '\n' !in x
    ensures forall k :: 0 <= k < |Lex(x)| ==> Lex(x)[k].Text?
  {
    if x != [] {
      LexPlainText(x);
    }
  }

  // ---------------------------------------------------------------------------
  // Spans around the cursor

  /** The tokens of `x$y` when neither part has a `$`. */
  lemma LexDollarBetween(x: string, y: string)
    requires '$' !in x && '$' !in y
    ensures Lex(x + "$" + y) == Lex(x) + [Dollar1] + Lex(y)
  {
    assert x + "$" + y == x + ("$" + y);
    if y != [] {
      assert y[0] in y;
    }
    LexAppend(x, "$" + y);
    LexDollar(y);
  }

  /** The tokens of `x`, a newline, then `y`, when `x` has no `$`. */
  lemma LexNewlineBetween(x: string, y: string)
    requires '$' !in x
    ensures Lex(x + "\n" + y) == Lex(x) + [NL] + Lex(y)
  {
    var t := "\n" + y;
    assert t[0] == '\n';
    assert x + "\n" + y == x + t;
    LexAppend(x, t);
    LexNewline(y);
  }

  /** Dollar-free text at the start of the stream leaves the scan where it was, and is later committed as it is. */
  lemma LeadingText(toks: seq<Token>, p: string)
    requires '$' !in p
    requires |Lex(p)| <= |toks| && toks[..|Lex(p)|] == Lex(p)
    ensures Run(toks, 0, Initial) == Run(toks, |Lex(p)|, Initial)
    ensures Committed(Blank, "", toks, 0, |Lex(p)|, "") == Out(p, "", false)
  {
    var i := |Lex(p)|;
    LexIsInert(p);
    forall k | 0 <= k < i ensures Inert(toks[k], Normal) {
      assert toks[k] == Lex(p)[k];
    }
    RunSkipsInert(toks, 0, i, Initial);
    assert Slice(toks, 0, i) == Lex(p);
    CommitSingleEmpty(Blank);
    EmitLex(Blank, p);
    CommitSingleEmpty(Out(p, "", false));
  }

  /** Committing the body of a span around the cursor: its text, the cursor switch, the text after. */
  lemma EmitSpanBody(w: string, x: string, y: string)
    ensures Emit(Out(w, "", false), Lex(x) + [Cursor] + Lex(y)) == Out(w + x, y, true)
  {
    var o0 := Out(w, "", false);
    var o1 := Out(w + x, "", false);
    calc {
      Emit(o0, Lex(x) + [Cursor] + Lex(y));
    == { assert Lex(x) + [Cursor] + Lex(y) == Lex(x) + ([Cursor] + Lex(y)); }
      Emit(o0, Lex(x) + ([Cursor] + Lex(y)));
    == { EmitAppend(o0, Lex(x), [Cursor] + Lex(y)); }
      Emit(Emit(o0, Lex(x)), [Cursor] + Lex(y));
    == { EmitLex(o0, x); assert CommitSingle(o0, x) == o1; }
      Emit(o1, [Cursor] + Lex(y));
    == { EmitAppend(o1, [Cursor], Lex(y)); }
      Emit(o1.(insideSuffix := true), Lex(y));
    == { EmitLex(o1.(insideSuffix := true), y); }
      Out(w + x, y, true);
    }
  }

  /** Where the parts of a stream `pre`, `$`, `body`, `t`, `rest` sit. */
  lemma SpanShape(toks: seq<Token>, pre: seq<Token>, body: seq<Token>, t: Token, rest: seq<Token>)
    requires toks == pre + [Dollar1] + body + [t] + rest
    ensures toks[..|pre|] == pre && toks[|pre|] == Dollar1
    ensures toks[|pre| + 1..|pre| + 1 + |body|] == body && toks[|pre| + 1 + |body|] == t
    ensures toks[|pre| + 2 + |body|..] == rest
  {
  }

  /**
   * Text runs on either side of the cursor marker make a body an inline span
   * may have, and one that holds the cursor.
   */
  lemma SpanBodyAt(toks: seq<Token>, i: nat, j: nat, before: seq<Token>, after: seq<Token>)
    requires forall k :: 0 <= k < |before| ==> before[k].Text?
    requires forall k :: 0 <= k < |after| ==> after[k].Text?
    requires i + 1 + |before| + 1 + |after| == j <= |toks|
    requires toks[i + 1..j] == before + [Cursor] + after
    ensures InlineBody(toks, i, j)
    ensures exists k :: i < k < j && toks[k] == Cursor
  {
    var body := before + [Cursor] + after;
    forall k | i < k < j ensures toks[k].Text? || toks[k] == Cursor {
      assert toks[k] == body[k - i - 1];
      if k - i - 1 < |before| {
        assert body[k - i - 1] == before[k - i - 1];
      } else if k - i - 1 > |before| {
        assert body[k - i - 1] == after[k - i - 2 - |before|];
      }
    }
    assert toks[i + 1 + |before|] == body[|before|];
  }

  /** After a span that ended in the suffix, a dollar-free rest of the suffix is appended as it is. */
  lemma SpanTail(toks: seq<Token>, j: nat, o: Out, q: string)
    requires '$' !in q && o.insideSuffix
    requires j <= |toks| && toks[j..] == Lex(q) + [End]
    ensures Finish(toks, Run(toks, j, Scan(o, j, Normal))) == Out(o.prefix, o.suffix + q, true)
  {
    LexIsInert(q);
    forall k | j <= k < |toks| ensures Inert(toks[k], Normal) {
      assert toks[k] == toks[j..][k - j];
      if k - j < |Lex(q)| {
        assert toks[j..][k - j] == Lex(q)[k - j];
      }
    }
    QuietRest(toks, j, Scan(o, j, Normal));
    EmitAppend(o, Lex(q), [End]);
    EmitLex(o, q);
    CommitSingleEmpty(Out(o.prefix, o.suffix + q, true));
  }

  /**
   * The body of a span around the cursor, line pieces `a` and `b` on either
   * side of it: a body an inline span may have, holding the cursor, and
   * committed after `w` and `\\(` with the closing text `close`.
   */
  lemma CursorSpan(toks: seq<Token>, i: nat, j: nat, w: string, a: string, b: string, close: string)
    requires '$' !in a && '\n' !in a && '$' !in b && '\n' !in b
    requires i + 1 + |Lex(a) + [Cursor] + Lex(b)| == j <= |toks|
    requires toks[i + 1..j] == Lex(a) + [Cursor] + Lex(b)
    ensures InlineBody(toks, i, j)
    ensures exists k :: i < k < j && toks[k] == Cursor
    ensures Committed(Out(w, "", false), "\\(", toks, i + 1, j, close) == Out(w + "\\(" + a, b + close, true)
  {
    LexLinePiece(a);
    LexLinePiece(b);
    SpanBodyAt(toks, i, j, Lex(a), Lex(b));
    assert Slice(toks, i + 1, j) == Lex(a) + [Cursor] + Lex(b);
    EmitSpanBody(w + "\\(", a, b);
  }

  /** A whole scan that reaches a state inside the suffix in front of a dollar-free rest. */
  lemma {:induction false} TailAfterSpan(toks: seq<Token>, j: nat, o: Out, q: string)
    requires '$' !in q && o.insideSuffix
    requires j <= |toks| && toks[j..] == Lex(q) + [End]
    requires Run(toks, 0, Initial) == Run(toks, j, Scan(o, j, Normal))
    ensures Finish(toks, Run(toks, 0, Initial)) == Out(o.prefix, o.suffix + q, true)
  {
    SpanTail(toks, j, o, q);
  }

  /** The scan up to and over the `$` that closes a span around the cursor. */
  lemma {:induction false} StraddleSpan(toks: seq<Token>, p: string, a: string, b: string, i: nat, j: nat)
    requires '$' !in p
    requires '$' !in a && '\n' !in a && '$' !in b && '\n' !in b
    requires i == |Lex(p)| && i + 1 + |Lex(a) + [Cursor] + Lex(b)| == j < |toks|
    requires toks[..i] == Lex(p) && toks[i] == Dollar1
    requires toks[i + 1..j] == Lex(a) + [Cursor] + Lex(b) && toks[j] == Dollar1
    ensures Run(toks, 0, Initial) == Run(toks, j + 1, Scan(Out(p + "\\(" + a, b + "\\)", true), j + 1, Normal))
  {
    LeadingText(toks, p);
    CursorSpan(toks, i, j, p, a, b, "\\)");
    ClosedInlineSpan(toks, i, j, Initial);
  }

  lemma {:induction false} StraddleRun(toks: seq<Token>, p: string, a: string, b: string, q: string, i: nat, j: nat)
    requires '$' !in p && '$' !in q
    requires '$' !in a && '\n' !in a && '$' !in b && '\n' !in b
    requires i == |Lex(p)| && i + 1 + |Lex(a) + [Cursor] + Lex(b)| == j < |toks|
    requires toks[..i] == Lex(p) && toks[i] == Dollar1
    requires toks[i + 1..j] == Lex(a) + [Cursor] + Lex(b) && toks[j] == Dollar1
    requires toks[j + 1..] == Lex(q) + [End]
    ensures Finish(toks, Run(toks, 0, Initial)) == Out(p + "\\(" + a, b + "\\)" + q, true)
  {
    StraddleSpan(toks, p, a, b, i, j);
    TailAfterSpan(toks, j + 1, Out(p + "\\(" + a, b + "\\)", true), q);
  }

  /** The stream of a document whose span opens in the prefix and ends, after the cursor, on token `t` in the suffix. */
  lemma StreamAroundSpan(lp: seq<Token>, la: seq<Token>, lb: seq<Token>, t: Token, lq: seq<Token>)
    ensures (lp + [Dollar1] + la) + [Cursor] + (lb + [t] + lq) + [End]
         == lp + [Dollar1] + (la + [Cursor] + lb) + [t] + (lq + [End])
  {
  }

  /**
   * An inline formula around the cursor: `$` ends the prefix's text and `$`
   * follows in the suffix's, so the prefix ends in `\(…` and the suffix starts
   * with `…\)`.
   */
  lemma StraddlingInlineSpan(p: string, a: string, b: string, q: string)
    requires '$' !in p && '$' !in q
    requires '$' !in a && '\n' !in a && '$' !in b && '\n' !in b
    ensures Tokenised(p + "$" + a, b + "$" + q) == Types.PrefixAndSuffix(p + "\\(" + a, b + "\\)" + q)
  {
    var toks := Stream(p + "$" + a, b + "$" + q);
    assert toks == Lex(p) + [Dollar1] + (Lex(a) + [Cursor] + Lex(b)) + [Dollar1] + (Lex(q) + [End]) by {
      LexDollarBetween(p, a);
      LexDollarBetween(b, q);
      StreamAroundSpan(Lex(p), Lex(a), Lex(b), Dollar1, Lex(q));
    }
    var i := |Lex(p)|;
    var j := i + 1 + |Lex(a) + [Cursor] + Lex(b)|;
    SpanShape(toks, Lex(p), Lex(a) + [Cursor] + Lex(b), Dollar1, Lex(q) + [End]);
    StraddleRun(toks, p, a, b, q, i, j);
  }

  /** The scan up to and over the newline that cuts off a span around the cursor. */
  lemma {:induction false} HalfOpenLineSpan(toks: seq<Token>, p: string, a: string, b: string, i: nat, j: nat)
    requires '$' !in p
    requires '$' !in a && '\n' !in a && '$' !in b && '\n' !in b
    requires i == |Lex(p)| && i + 1 + |Lex(a) + [Cursor] + Lex(b)| == j < |toks|
    requires toks[..i] == Lex(p) && toks[i] == Dollar1
    requires toks[i + 1..j] == Lex(a) + [Cursor] + Lex(b) && toks[j] == NL
    ensures Run(toks, 0, Initial) == Run(toks, j + 1, Scan(Out(p + "\\(" + a, b + "\n", true), j + 1, Normal))
  {
    LeadingText(toks, p);
    CursorSpan(toks, i, j, p, a, b, "\n");
    assert TokenText(toks[j]) == "\n";
    HalfOpenInlineSpan(toks, i, j, Initial);
  }

  lemma {:induction false} HalfOpenLineRun(toks: seq<Token>, p: string, a: string, b: string, q: string, i: nat, j: nat)
    requires '$' !in p && '$' !in q
    requires '$' !in a && '\n' !in a && '$' !in b && '\n' !in b
    requires i == |Lex(p)| && i + 1 + |Lex(a) + [Cursor] + Lex(b)| == j < |toks|
    requires toks[..i] == Lex(p) && toks[i] == Dollar1
    requires toks[i + 1..j] == Lex(a) + [Cursor] + Lex(b) && toks[j] == NL
    requires toks[j + 1..] == Lex(q) + [End]
    ensures Finish(toks, Run(toks, 0, Initial)) == Out(p + "\\(" + a, b + "\n" + q, true)
  {
    HalfOpenLineSpan(toks, p, a, b, i, j);
    TailAfterSpan(toks, j + 1, Out(p + "\\(" + a, b + "\n", true), q);
  }

  /**
   * The cursor inside an inline formula that its line ends before closing:
   * the prefix ends in `\(…`, and the suffix keeps its newline and gets no
   * `\)`.
   */
  lemma HalfOpenAtLineEnd(p: string, a: string, b: string, q: string)
    requires '$' !in p && '$' !in q
    requires '$' !in a && '\n' !in a && '$' !in b && '\n' !in b
    ensures Tokenised(p + "$" + a, b + "\n" + q) == Types.PrefixAndSuffix(p + "\\(" + a, b + "\n" + q)
  {
    var toks := Stream(p + "$" + a, b + "\n" + q);
    assert toks == Lex(p) + [Dollar1] + (Lex(a) + [Cursor] + Lex(b)) + [NL] + (Lex(q) + [End]) by {
      LexDollarBetween(p, a);
      LexNewlineBetween(b, q);
      StreamAroundSpan(Lex(p), Lex(a), Lex(b), NL, Lex(q));
    }
    var i := |Lex(p)|;
    var j := i + 1 + |Lex(a) + [Cursor] + Lex(b)|;
    SpanShape(toks, Lex(p), Lex(a) + [Cursor] + Lex(b), NL, Lex(q) + [End]);
    HalfOpenLineRun(toks, p, a, b, q, i, j);
  }

  lemma HalfOpenEndRun(toks: seq<Token>, p: string, a: string, b: string)
    requires '$' !in p
    requires '$' !in a && '\n' !in a && '$' !in b && '\n' !in b
    requires toks == Lex(p) + [Dollar1] + (Lex(a) + [Cursor] + Lex(b)) + [End]
    ensures Finish(toks, Run(toks, 0, Initial)) == Out(p + "\\(" + a, b, true)
  {
    var i := |Lex(p)|;
    var j := i + 1 + |Lex(a) + [Cursor] + Lex(b)|;
    SpanShape(toks, Lex(p), Lex(a) + [Cursor] + Lex(b), End, []);
    LeadingText(toks, p);
    CursorSpan(toks, i, j, p, a, b, "");
    assert TokenText(toks[j]) == "";
    HalfOpenInlineSpan(toks, i, j, Initial);
    var o := Out(p + "\\(" + a, b, true);
    assert b + "" == b;
    assert Run(toks, j + 1, Scan(o, j + 1, Normal)) == Scan(o, j + 1, Normal);
  }

  /**
   * The cursor inside an inline formula that the end of the document cuts
   * off: `p$a|b` becomes `p\(a|b`, the formula staying open around the cursor.
   */
  lemma HalfOpenAtEnd(p: string, a: string, b: string)
    requires '$' !in p
    requires '$' !in a && '\n' !in a && '$' !in b && '\n' !in b
    ensures Tokenised(p + "$" + a, b) == Types.PrefixAndSuffix(p + "\\(" + a, b)
  {
    LexDollarBetween(p, a);
    var toks := Stream(p + "$" + a, b);
    assert toks == Lex(p) + [Dollar1] + (Lex(a) + [Cursor] + Lex(b)) + [End];
    HalfOpenEndRun(toks, p, a, b);
  }

  // ---------------------------------------------------------------------------
  // A prefix without math

  /** Once the output has moved to the suffix, committing more never touches the prefix. */
  lemma {:induction false} EmitInsideSuffix(o: Out, items: seq<Token>)
    requires o.insideSuffix
    ensures Emit(o, items).insideSuffix && Emit(o, items).prefix == o.prefix
    decreases |items|
  {
    if items != [] {
      var next := if items[0] == Cursor then o.(insideSuffix := true) else CommitSingle(o, TokenText(items[0]));
      EmitInsideSuffix(next, items[1..]);
    }
  }

  lemma CommittedInsideSuffix(o: Out, tokenPrefix: string, toks: seq<Token>, begin: nat, end: nat, tokenSuffix: string)
    requires o.insideSuffix && end <= |toks|
    ensures Committed(o, tokenPrefix, toks, begin, end, tokenSuffix).insideSuffix
    ensures Committed(o, tokenPrefix, toks, begin, end, tokenSuffix).prefix == o.prefix
  {
    EmitInsideSuffix(CommitSingle(o, tokenPrefix), Slice(toks, begin, end));
  }

  /** Committing everything from the start to past the cursor writes the whole prefix and moves to the suffix. */
  lemma CommitPastCursor(toks: seq<Token>, prefix: string, i: nat)
    requires |Lex(prefix)| < i <= |toks| && toks[..|Lex(prefix)| + 1] == Lex(prefix) + [Cursor]
    ensures Committed(Blank, "", toks, 0, i, "").insideSuffix
    ensures Committed(Blank, "", toks, 0, i, "").prefix == prefix
  {
    var lp := |Lex(prefix)|;
    var o1 := Out(prefix, "", true);
    assert Slice(toks, 0, i) == (Lex(prefix) + [Cursor]) + toks[lp + 1..i] by {
      assert toks[..i] == toks[..lp + 1] + toks[lp + 1..i];
    }
    CommitSingleEmpty(Blank);
    EmitAppend(Blank, Lex(prefix) + [Cursor], toks[lp + 1..i]);
    EmitAppend(Blank, Lex(prefix), [Cursor]);
    EmitLex(Blank, prefix);
    assert Emit(Blank, Lex(prefix) + [Cursor]) == o1;
    EmitInsideSuffix(o1, toks[lp + 1..i]);
  }

  /** Past the cursor, the scan has either committed nothing yet or already written out the whole prefix. */
  predicate PrefixSettled(s: Scan, prefix: string)
  {
    s == Initial || (s.out.insideSuffix && s.out.prefix == prefix)
  }

  lemma StepSettlesPrefix(toks: seq<Token>, prefix: string, i: nat, s: Scan)
    requires |Lex(prefix)| < i < |toks| && toks[..|Lex(prefix)| + 1] == Lex(prefix) + [Cursor]
    requires PrefixSettled(s, prefix)
    ensures PrefixSettled(Step(toks, i, s), prefix)
  {
    if s == Initial {
      CommitPastCursor(toks, prefix, i);
    } else {
      CommittedInsideSuffix(s.out, "", toks, s.mi, i, "");
      CommittedInsideSuffix(s.out, "\\(", toks, s.mi + 1, i, "\\)");
      CommittedInsideSuffix(s.out, "\\(", toks, s.mi + 1, i, TokenText(toks[i]));
      CommittedInsideSuffix(s.out, "\\[", toks, s.mi + 1, i, "\\]");
    }
  }

  lemma {:induction false} RunSettlesPrefix(toks: seq<Token>, prefix: string, i: nat, s: Scan)
    requires |Lex(prefix)| < i <= |toks| && toks[..|Lex(prefix)| + 1] == Lex(prefix) + [Cursor]
    requires PrefixSettled(s, prefix)
    ensures PrefixSettled(Run(toks, i, s), prefix)
    decreases |toks| - i
  {
    if i < |toks| {
      StepSettlesPrefix(toks, prefix, i, s);
      RunSettlesPrefix(toks, prefix, i + 1, Step(toks, i, s));
    }
  }

  lemma FinishSettlesPrefix(toks: seq<Token>, prefix: string, s: Scan)
    requires |Lex(prefix)| < |toks| && toks[..|Lex(prefix)| + 1] == Lex(prefix) + [Cursor]
    requires PrefixSettled(s, prefix)
    ensures Finish(toks, s).prefix == prefix
  {
    if s == Initial {
      CommitPastCursor(toks, prefix, |toks|);
    } else {
      CommittedInsideSuffix(s.out, "", toks, s.mi, |toks|, "");
    }
  }

  /**
   * A prefix without `$` comes back unchanged, whatever the suffix holds:
   * every rewrite then starts after the cursor and lands in the suffix.
   */
  lemma DollarFreePrefixKept(prefix: string, suffix: string)
    requires '$' !in prefix
    ensures Tokenised(prefix, suffix).prefix == prefix
  {
    var toks := Stream(prefix, suffix);
    var lp := |Lex(prefix)|;
    assert toks[..lp + 1] == Lex(prefix) + [Cursor];
    LexIsInert(prefix);
    forall k | 0 <= k < lp + 1 ensures Inert(toks[k], Normal) {
      if k < lp {
        assert toks[k] == Lex(prefix)[k];
      }
    }
    RunSkipsInert(toks, 0, lp + 1, Initial);
    RunSettlesPrefix(toks, prefix, lp + 1, Initial);
    FinishSettlesPrefix(toks, prefix, Run(toks, lp + 1, Initial));
  }

  /** The tokens of `$x`, a newline, then `y`. */
  lemma LexAborted(x: string, y: string)
    requires '$' !in x && '\n' !in x
    ensures Lex("$" + x + "\n" + y) == [Dollar1] + Lex(x) + [NL] + Lex(y)
  {
    var rest := x + "\n" + y;
    assert "$" + x + "\n" + y == "$" + rest;
    if x != [] {
      assert rest[0] == x[0];
    }
    LexDollar(rest);
    LexNewlineBetween(x, y);
  }

  lemma AbortedRun(toks: seq<Token>, x: string, rest: seq<Token>)
    requires '$' !in x && '\n' !in x
    requires toks == [Dollar1] + Lex(x) + [NL] + rest
    requires forall k :: 0 <= k < |rest| ==> Inert(rest[k], Normal)
    ensures Run(toks, 0, Initial) == Initial
  {
    var j := |Lex(x)| + 1;
    LexLinePiece(x);
    forall k | 0 < k < j ensures toks[k].Text? {
      assert toks[k] == Lex(x)[k - 1];
    }
    forall k | j + 1 <= k < |toks| ensures Inert(toks[k], Normal) {
      assert toks[k] == rest[k - j - 1];
    }
    AbortedInlineSpan(toks, 0, j, Initial);
    assert Committed(Blank, "", toks, 0, 0, "") == Blank by { CommitSingleEmpty(Blank); }
    RunSkipsInert(toks, j + 1, |toks|, Initial);
  }

  /** The tokens from a line's start on are inert outside math when neither part has a `$`. */
  lemma AbortedTailInert(rest: seq<Token>, y: string, suffix: string)
    requires '$' !in y && '$' !in suffix
    requires rest == Lex(y) + [Cursor] + Lex(suffix) + [End]
    ensures forall k :: 0 <= k < |rest| ==> Inert(rest[k], Normal)
  {
    LexIsInert(y);
    LexIsInert(suffix);
    forall k | 0 <= k < |rest| ensures Inert(rest[k], Normal) {
      if k < |Lex(y)| {
        assert rest[k] == Lex(y)[k];
      } else if |Lex(y)| < k < |rest| - 1 {
        assert rest[k] == Lex(suffix)[k - |Lex(y)| - 1];
      }
    }
  }

  /**
   * A `$` whose line ends before the cursor is not math: `$x` followed by a
   * newline and more dollar-free text is left exactly as it is.
   */
  lemma AbortedInlineKeptVerbatim(x: string, y: string, suffix: string)
    requires '$' !in x && '\n' !in x
    requires '$' !in y && '$' !in suffix
    ensures Tokenised("$" + x + "\n" + y, suffix) == Types.PrefixAndSuffix("$" + x + "\n" + y, suffix)
  {
    var p := "$" + x + "\n" + y;
    LexAborted(x, y);
    var toks := Stream(p, suffix);
    var rest := Lex(y) + [Cursor] + Lex(suffix) + [End];
    assert toks == [Dollar1] + Lex(x) + [NL] + rest;
    AbortedTailInert(rest, y, suffix);
    AbortedRun(toks, x, rest);
    PendingFlushedVerbatim(toks, Initial);
    assert Slice(toks, 0, |toks|) == toks;
    EmitStream(p, suffix);
  }

  // ---------------------------------------------------------------------------
  // The documented examples

  /** The text before the cursor in the documented autocompletion examples. */
  const Lead := "polynomial example: "
  /** The line after the cursor in those examples. */
  const NextLine := "- which the above very much is."

  /** Autocompleting an inline formula whose closing `$` already follows the cursor. */
  lemma ClosingDollarAfterCursor()
    ensures Tokenised(Lead + "$", "$\n" + NextLine) == Types.PrefixAndSuffix(Lead + "\\(", "\\)\n" + NextLine)
  {
    var q := "\n" + NextLine;
    assert '$' !in Lead && '$' !in q;
    assert Lead + "$" + "" == Lead + "$";
    assert "" + "$" + q == "$\n" + NextLine;
    assert Lead + "\\(" + "" == Lead + "\\(";
    assert "" + "\\)" + q == "\\)\n" + NextLine;
    StraddlingInlineSpan(Lead, "", "", q);
  }

  /** Autocompleting an inline formula with no closing `$`, the line going on after the cursor. */
  lemma NoClosingDollarBeforeNewline()
    ensures Tokenised(Lead + "$", "\n" + NextLine) == Types.PrefixAndSuffix(Lead + "\\(", "\n" + NextLine)
  {
    assert '$' !in Lead && '$' !in NextLine;
    assert Lead + "$" + "" == Lead + "$";
    assert "" + "\n" + NextLine == "\n" + NextLine;
    assert Lead + "\\(" + "" == Lead + "\\(";
    HalfOpenAtLineEnd(Lead, "", "", NextLine);
  }

  /** Autocompleting an inline formula at the very end of the document. */
  lemma NoClosingDollarAtEnd()
    ensures Tokenised("polynomiale example: $", "") == Types.PrefixAndSuffix("polynomiale example: \\(", "")
  {
    var p := "polynomiale example: ";
    assert '$' !in p;
    assert p + "$" + "" == "polynomiale example: $";
    assert p + "\\(" + "" == "polynomiale example: \\(";
    HalfOpenAtEnd(p, "", "");
  }
}
