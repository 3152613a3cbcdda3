/**
 * The pre-processor that rewrites Obsidian math delimiters into the notebook
 * (LaTeX) ones before a prompt is sent: `$…$` becomes `\(…\)` and `$$…$$`
 * becomes `\[…\]` (convert_to_notebook_latex_math.ts).
 *
 * `tokenise` lexes the prefix and the suffix, joins them around a cursor
 * marker, closes the stream with an end marker, and runs a three-state scan
 * over the tokens. The scan remembers in `mi` where the pending, not yet
 * committed, tokens start; on each transition it commits a slice of tokens,
 * wrapped in canonical delimiters or verbatim, into the new prefix or, once
 * the cursor marker has been committed, into the new suffix.
 *
 * The functions below give that scan one step at a time (`Step`, `Run`,
 * `Finish`); the methods are the source's loops, proved to compute them.
 */
module NotebookMath {
  import opened Types
  import opened NotebookLexer

  /** The scan's state `st`: outside math, inside `$`, inside `$$`. */
  datatype Mode = Normal | Single | Double

  /** What has been committed so far: `new_prefix`, `new_suffix` and `inside_suffix`. */
  datatype Out = Out(prefix: string, suffix: string, insideSuffix: bool)

  /** Everything the scan carries from one token to the next. */
  datatype Scan = Scan(out: Out, mi: nat, st: Mode)

  /** `tokens.slice(begin, end)` for an `end` within bounds: empty when `begin` is not before `end`. */
  function Slice(toks: seq<Token>, begin: nat, end: nat): seq<Token>
    requires end <= |toks|
  {
    if begin < end then toks[begin..end] else []
  }

  /** `commit_single`: append to the suffix once inside it, to the prefix before. */
  function CommitSingle(o: Out, s: string): Out
  {
    if o.insideSuffix then o.(suffix := o.suffix + s) else o.(prefix := o.prefix + s)
  }

  /** Commit a sequence of tokens in order; the cursor marker switches to the suffix. */
  function Emit(o: Out, items: seq<Token>): Out
    decreases |items|
  {
    if items == [] then o
    else
      var next := if items[0] == Cursor then o.(insideSuffix := true) else CommitSingle(o, TokenText(items[0]));
      Emit(next, items[1..])
  }

  /** `commit(token_prefix, begin, end, token_suffix)` */
  function Committed(o: Out, tokenPrefix: string, toks: seq<Token>, begin: nat, end: nat, tokenSuffix: string): Out
    requires end <= |toks|
  {
    CommitSingle(Emit(CommitSingle(o, tokenPrefix), Slice(toks, begin, end)), tokenSuffix)
  }

  /** `contains_cursor(begin, end)`: the cursor marker is among `toks[begin..end]`. */
  predicate HasCursor(toks: seq<Token>, begin: nat, end: nat)
    requires end <= |toks|
    decreases end - begin
  {
    begin < end && (toks[begin] == Cursor || HasCursor(toks, begin + 1, end))
  }

  /** `HasCursor` is the plain existential: some index in the window holds the cursor marker. */
  lemma {:induction false} HasCursorIff(toks: seq<Token>, begin: nat, end: nat)
    requires end <= |toks|
    ensures HasCursor(toks, begin, end) <==> exists k :: begin <= k < end && toks[k] == Cursor
    decreases end - begin
  {
    if begin < end {
      HasCursorIff(toks, begin + 1, end);
      if exists k :: begin <= k < end && toks[k] == Cursor {
        var k :| begin <= k < end && toks[k] == Cursor;
        if k != begin {
          assert begin + 1 <= k < end;
        }
      }
    }
  }

  /** One iteration of the scan, on the token at index `i`. */
  function Step(toks: seq<Token>, i: nat, s: Scan): Scan
    requires i < |toks|
  {
    var t := toks[i];
    match s.st
    case Normal =>
      if t == Dollar1 then Scan(Committed(s.out, "", toks, s.mi, i, ""), i, Single)
      else if t == Dollar2 then Scan(Committed(s.out, "", toks, s.mi, i, ""), i, Double)
      else s
    case Single =>
      if t == Dollar1 then
        Scan(Committed(s.out, "\\(", toks, s.mi + 1, i, "\\)"), i + 1, Normal)
      else if t == End || t == NL then
        if HasCursor(toks, s.mi + 1, i) then
          // half-open: the cursor is inside the unclosed span
          Scan(Committed(s.out, "\\(", toks, s.mi + 1, i, TokenText(t)), i + 1, Normal)
        else
          // aborted: `mi` stays on the `$`, which is later committed verbatim
          s.(st := Normal)
      else if t == Dollar2 then
        // the next commit starts at mi + 1, one past the token that follows the `$$`
        Scan(Committed(s.out, "\\(", toks, s.mi + 1, i, "\\)"), i + 1, Single)
      else s
    case Double =>
      if t == Dollar2 then Scan(Committed(s.out, "\\[", toks, s.mi + 1, i, "\\]"), i + 1, Normal)
      else s
  }

  /** The scan from index `i` to the end of the stream. */
  function Run(toks: seq<Token>, i: nat, s: Scan): Scan
    requires i <= |toks|
    decreases |toks| - i
  {
    if i == |toks| then s else Run(toks, i + 1, Step(toks, i, s))
  }

  /** After the loop: commit whatever is still pending, verbatim. */
  function Finish(toks: seq<Token>, s: Scan): Out
  {
    if s.mi != |toks| then Committed(s.out, "", toks, s.mi, |toks|, "") else s.out
  }

  /** The stream `tokenise` scans: the prefix's tokens, the cursor, the suffix's tokens, the end. */
  function Stream(prefix: string, suffix: string): seq<Token>
  {
    Lex(prefix) + [Cursor] + Lex(suffix) + [End]
  }

  const Initial: Scan := Scan(Out("", "", false), 0, Normal)

  /** What `tokenise(prefix, suffix)` returns. */
  function Tokenised(prefix: string, suffix: string): PrefixAndSuffix
  {
    var toks := Stream(prefix, suffix);
    var o := Finish(toks, Run(toks, 0, Initial));
    PrefixAndSuffix(o.prefix, o.suffix)
  }

  /** `contains_cursor`: scans `tokens[begin..end]` for the cursor marker. */
  method ContainsCursor(tokens: seq<Token>, begin: nat, end: nat) returns (found: bool)
    requires end <= |tokens|
    ensures found <==> HasCursor(tokens, begin, end)
  {
    var i := begin;
    while i < end
      invariant begin <= i
      invariant HasCursor(tokens, begin, end) == (i < end && HasCursor(tokens, i, end))
    {
      if tokens[i] == Cursor {
        return true;
      }
      i := i + 1;
    }
    return false;
  }

  /**
   * `commit`: commits the token prefix, the tokens of `tokens[begin..end]` and
   * the token suffix one item at a time; the cursor marker is not written but
   * switches the output to the suffix. The three variables the closure updates
   * (`new_prefix`, `new_suffix`, `inside_suffix`) travel together as `o`.
   */
  method Commit(tokens: seq<Token>, tokenPrefix: string, begin: nat, end: nat, tokenSuffix: string, o: Out)
    returns (o': Out)
    requires end <= |tokens|
    ensures o' == Committed(o, tokenPrefix, tokens, begin, end, tokenSuffix)
  {
    var items := Slice(tokens, begin, end);
    o' := CommitSingle(o, tokenPrefix);
    ghost var start := o';
    var k := 0;
    while k < |items|
      invariant k <= |items|
      invariant Emit(o', items[k..]) == Emit(start, items)
    {
      assert items[k..][1..] == items[k + 1..];
      if items[k] == Cursor {
        o' := o'.(insideSuffix := true);
      } else {
        o' := CommitSingle(o', TokenText(items[k]));
      }
      k := k + 1;
    }
    o' := CommitSingle(o', tokenSuffix);
  }

  /**
   * The body of `tokenise`'s loop: the `switch` on the state and on the token
   * at index `i`, committing and moving `mi` as the transition demands.
   */
  method ScanToken(tokens: seq<Token>, i: nat, out: Out, mi: nat, st: Mode)
    returns (out': Out, mi': nat, st': Mode)
    requires i < |tokens|
    ensures Scan(out', mi', st') == Step(tokens, i, Scan(out, mi, st))
  {
    out', mi', st' := out, mi, st;
    var token := tokens[i];
    match st {
      case Normal =>
        if token == Dollar1 || token == Dollar2 {
          // commit everything before this delimiter, and remember where it is
          out' := Commit(tokens, "", mi, i, "", out);
          st' := if token == Dollar1 then Single else Double;
          mi' := i;
        }
      case Single =>
        if token == Dollar1 {
          out' := Commit(tokens, "\\(", mi + 1, i, "\\)", out);
          st' := Normal;
          mi' := i + 1;
        } else if token == End || token == NL {
          var found := ContainsCursor(tokens, mi + 1, i);
          if found {
            out' := Commit(tokens, "\\(", mi + 1, i, TokenText(token), out);
            mi' := i + 1;
          }
          st' := Normal;
        } else if token == Dollar2 {
          out' := Commit(tokens, "\\(", mi + 1, i, "\\)", out);
          st' := Single;
          mi' := i + 1;
        }
      case Double =>
        if token == Dollar2 {
          out' := Commit(tokens, "\\[", mi + 1, i, "\\]", out);
          st' := Normal;
          mi' := i + 1;
        }
    }
  }

  /**
   * `tokenise`: rewrites the math delimiters of the document around the cursor
   * and splits the result back into a prefix and a suffix.
   */
  method Tokenise(prefix: string, suffix: string) returns (r: PrefixAndSuffix)
    ensures r == Tokenised(prefix, suffix)
  {
    var before := TokenisePart(prefix);
    var after := TokenisePart(suffix);
    var tokens := before + [Cursor] + after + [End];
    var out := Out("", "", false);
    var i := 0;
    var mi: nat := 0;
    var st := Normal;
    while i < |tokens|
      invariant i <= |tokens|
      invariant Run(tokens, i, Scan(out, mi, st)) == Run(tokens, 0, Initial)
    {
      out, mi, st := ScanToken(tokens, i, out, mi, st);
      i := i + 1;
    }
    if mi != i {
      out := Commit(tokens, "", mi, i, "", out);
    }
    r := PrefixAndSuffix(out.prefix, out.suffix);
  }

  /**
   * `ConvertNotebookMathIndicators.process`: every context except a code block
   * gets its math delimiters rewritten; code is passed through untouched.
   */
  function Process(prefix: string, suffix: string, context: Context): (r: PrefixAndSuffix)
    ensures context == CodeBlock ==> r == PrefixAndSuffix(prefix, suffix)
  {
    if context != CodeBlock then Tokenised(prefix, suffix) else PrefixAndSuffix(prefix, suffix)
  }

  /** `ConvertNotebookMathIndicators.removesCursor`: this pre-processor never cancels a prediction. */
  predicate RemovesCursor(prefix: string, suffix: string)
  {
    false
  }
}
