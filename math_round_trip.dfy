/**
 * The two converters side by side: a formula the pre-processor rewrites into
 * notebook delimiters comes back in Obsidian's delimiters when a completion
 * carrying it goes through the post-processor.
 */
module MathRoundTrip {
  import opened Types
  import opened JsStrings
  import NotebookMath
  import NotebookMathProofs
  import opened ObsidianMath

  /**
   * An inline formula `$x$` before the cursor is sent as `\(x\)`, and `\(x\)`
   * in a completion is written back as `$x$`, provided `x` does not start or
   * end with whitespace (which the post-processor drops) and holds no LaTeX
   * delimiter of its own.
   */
  lemma InlineRoundTrip(x: string, suffix: string, prefix': string, suffix': string, context: Context)
    requires x != [] && '$' !in x && '\n' !in x && '$' !in suffix
    requires !IsSpace(x[0]) && !IsSpace(x[|x| - 1])
    requires NoInlineDelimiter(x) && NoDisplayDelimiter(x)
    requires context != CodeBlock && context != MathBlock
    ensures var sent := NotebookMath.Tokenised("$" + x + "$", suffix).prefix;
      sent == "\\(" + x + "\\)" && Process(prefix', suffix', sent, context) == "$" + x + "$"
  {
    NotebookMathProofs.InlineMath(x, suffix);
    assert "\\(" + [] + x + [] + "\\)" + [] == "\\(" + x + "\\)";
    InlineFormulaTrimmed([], x, [], []);
    assert "$" + x + "$" + ReplaceInlineDelimiters([]) == "$" + x + "$";
    NoDisplayDelimiterConcat("$", x);
    NoDisplayDelimiterConcat("$" + x, "$");
    DisplayPassIdentity("$" + x + "$");
  }

  /**
   * A display formula `$$x$$` before the cursor is sent as `\[x\]`, and `\[x\]`
   * in a completion is written back as `$$x$$`, newlines and surrounding
   * whitespace included, provided `x` holds no LaTeX delimiter of its own.
   */
  lemma DisplayRoundTrip(x: string, suffix: string, prefix': string, suffix': string, context: Context)
    requires '$' !in x && '$' !in suffix
    requires NoInlineDelimiter(x) && NoDisplayDelimiter(x)
    requires context != CodeBlock && context != MathBlock
    ensures var sent := NotebookMath.Tokenised("$$" + x + "$$", suffix).prefix;
      sent == "\\[" + x + "\\]" && Process(prefix', suffix', sent, context) == "$$" + x + "$$"
  {
    NotebookMathProofs.DisplayMath(x, suffix);
    NoInlineDelimiterConcat("\\[", x);
    NoInlineDelimiterConcat("\\[" + x, "\\]");
    InlinePassIdentity("\\[" + x + "\\]");
    assert "\\[" + x + "\\]" + [] == "\\[" + x + "\\]";
    DisplayFormula(x, []);
    assert "$$" + x + "$$" + ReplaceDisplayDelimiters([]) == "$$" + x + "$$";
  }
}
