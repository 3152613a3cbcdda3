# A model of the FIM completion core of an Obsidian copilot plugin

The plugin completes text in Obsidian notes with a locally served language
model. It uses fill-in-the-middle (FIM) prompting: the model gets the text
before the cursor (the prefix) and the text after it (the suffix).

This project models the core of that plugin in Dafny and proves properties of
the model:

- **The notebook math converter.** Before a prompt is sent, this pre-processor
  rewrites Obsidian's math delimiters into the LaTeX ones the model knows:
  - `$…$` becomes `\(…\)`;
  - `$$…$$` becomes `\[…\]`.

  It has two parts:
  - a lexer (`tokenise_part`) that splits text into `$$`, `$`, newline and
    text runs;
  - a three-mode scan (`tokenise`) over the tokens of the prefix, a cursor
    marker, the tokens of the suffix and an end marker. It splits the output
    back into a prefix and a suffix at the marker.

  Modules: `NotebookLexer`, `NotebookMath`, `NotebookMathProofs`.
- **The Obsidian math converter.** This post-processor rewrites the model's
  answer back. `\(` and `\)` become `$`, with the whitespace just inside the
  formula removed, and `\[` and `\]` become `$$`. It does nothing inside code
  blocks and math blocks. Module: `ObsidianMath`. `MathRoundTrip` connects the
  two converters.
- **The FIM prediction service.** Module: `Fim`. It covers:
  - the pre- and post-processor chains it builds from the settings;
  - the pre-processor loop with its `removesCursor` short-circuit;
  - the fold over the streamed answer;
  - the system message chosen for each context.
- **The predicting state.** This is the lifecycle state that issues a
  prediction, cancels it, and hands the answer on to the suggesting state or
  back to idle. Module: `PredictingStates`.
- **The version-1 settings schema.** Module: `SettingsV1`. It covers the
  trigger rule, the refinements on the ignored tags, the ignored file patterns
  and the system message, and the default settings.

`Types` holds the shared shapes. `JsStrings` models the JavaScript string
operations the source relies on: `\s`, `trim`, `split("\n")`, `endsWith` and
the UTF-16 `length`.

Each loop of the source is a method with a loop. Each method is proved to
compute a specification function: `Lex` for `tokenise_part`, `Step`/`Run`/
`Finish` for `tokenise`, `Through` for the pre-processor loop, `PostProcessed`
and `StreamOutcome` for `streamer`. The lemmas are stated about those
functions.

The predicting state is a class whose methods change its fields and the fields
of the event listener it drives.

The collaborators whose code is not part of this model are parameters: the
context classifier, the data-view remover, the length limiter, the four other
post-processors, `isRegexValid` and `isValidIgnorePattern`. The model server's
answer is a finite sequence of stream events.

### Behaviour worth knowing

**`$$` inside an inline formula drops the next token.** The branch at
`convert_to_notebook_latex_math.ts:134-139` sets `mi = i + 1`. The next closing
`$` then commits from `mi + 1`, so one token is skipped.
- The comment says `$a$$b$` means `$a$` followed by `$b$`. In fact it becomes
  `\(a\)\(\)`, and the `b` is lost (`NotebookMathProofs.DoubleDollarDropsToken`).
- The model reproduces this as written, and no lemma claims that text survives
  that branch.

**An unterminated `$` is kept unless it holds the cursor.** When the cursor is
outside it, the `$` and the rest of its line are kept verbatim
(`AbortedInlineKeptVerbatim`). The scan goes back to normal mode with the
pending text starting at that `$`, so later spans are still converted
(`AbortedInlineSpan`). When the cursor is inside it, it becomes an
opening `\(` with no closing delimiter (`HalfOpenAtLineEnd`, `HalfOpenAtEnd`).

**The round trip is not exact.** The reverse converter removes whitespace just
inside `\(…\)`, so `$ x $` comes back as `$x$`. The round-trip lemmas therefore
assume formulas without whitespace at their ends.

**A late result still applies.** `predict` never checks that its state is still
the current one. A response that arrives after a cancel still moves the
listener to suggesting (`PredictingStates.LateResultStillApplies`).

**An error asks for idle twice.** On an error, `predict` shows a notice and asks
for idle. Then `unwrapOr("")` reads the error as the empty text, and idle is
asked for a second time (`PredictTransitions`).

**Pre-processors are checked one at a time.** Each pre-processor's
`removesCursor` is asked on the text that the earlier pre-processors already
transformed. The check and the transform alternate
(`FIM/index.ts:102-113`), and `Fim.NoneRemovesCursor` states it that way.

**The Obsidian math converter does nothing in math blocks.** In a math block
it applies neither rewrite (`convert_to_obsidian_latex_math.ts:11`). It never
removes a duplicated `\(`.

## Model

| member | source | states |
|---|---|---|
| JsStrings.SpaceRun | src/prediction_services/post_processors/convert_to_obsidian_latex_math.ts:13 | The greedy `\s*` match at the start of a string: its length is within the string, the span is all whitespace, and the next character is not whitespace. |
| JsStrings.TrimEmptyIffBlank | src/settings/versions/v1/v1.ts:52 | `trim()` gives the empty string exactly when the line consists only of whitespace. |
| JsStrings.SplitLines | src/settings/versions/v1/v1.ts:51 | `split("\n")` always yields at least one piece. |
| JsStrings.SplitLinesRoundTrip | src/settings/versions/v1/v1.ts:51 | Joining the pieces of `split("\n")` with newlines gives back the original text. |
| JsStrings.SplitLinesNoNewline | src/settings/versions/v1/v1.ts:51 | No piece of `split("\n")` contains a newline. |
| JsStrings.InSomeLine | src/settings/versions/v1/v1.ts:56-65 | A character other than newline occurs in the text exactly when it occurs in one of its lines. |
| JsStrings.Utf16Length | src/settings/versions/v1/v1.ts:44 | A string's UTF-16 length is at least its number of characters and at most twice it. |
| NotebookLexer.TokenisePart | src/prediction_services/pre_processors/convert_to_notebook_latex_math.ts:4-35 | The matching loop produces exactly `Lex(part)`. |
| NotebookLexer.LexRoundTrip | src/prediction_services/pre_processors/convert_to_notebook_latex_math.ts:4-35 | Concatenating the tokens gives back the input exactly. |
| NotebookLexer.LexWellFormed | src/prediction_services/pre_processors/convert_to_notebook_latex_math.ts:8-31 | Every token is `$$`, `$`, a newline, or a non-empty run without `$` or newline. `$$` is taken before `$`, and text runs are maximal, so no empty token is produced. |
| NotebookLexer.LexUnique | src/prediction_services/pre_processors/convert_to_notebook_latex_math.ts:8-31 | Any sequence of such tokens that is maximal and spells `s` is `Lex(s)`. |
| NotebookLexer.LexCharacterisation | src/prediction_services/pre_processors/convert_to_notebook_latex_math.ts:4-35 | A token sequence is the lexing of `s` if and only if it is well-formed, maximal and spells `s`. |
| NotebookLexer.LexHead | src/prediction_services/pre_processors/convert_to_notebook_latex_math.ts:8-24 | The first token of a non-empty string: a `$` or `$$` token for `$` (a single `$` when no second `$` follows), a newline token for a newline, and text otherwise. |
| NotebookLexer.LexWithoutDollar | src/prediction_services/pre_processors/convert_to_notebook_latex_math.ts:8 | Text without `$` yields no dollar token. |
| NotebookLexer.LexWithoutMarkers | src/prediction_services/pre_processors/convert_to_notebook_latex_math.ts:40-45 | Lexing never produces the cursor marker or the end marker. |
| NotebookLexer.LexAppend | src/prediction_services/pre_processors/convert_to_notebook_latex_math.ts:4-35 | When `x` has no `$` and `y` starts with `$` or a newline, lexing `x + y` is lexing `x` followed by lexing `y`. |
| NotebookLexer.LexTextThen | src/prediction_services/pre_processors/convert_to_notebook_latex_math.ts:14-16 | A line piece without `$` is one text token, however the text after it starts with a delimiter. |
| NotebookLexer.LexDollar | src/prediction_services/pre_processors/convert_to_notebook_latex_math.ts:8 | A `$` not followed by another `$` is a single-dollar token. |
| NotebookLexer.LexDoubleDollar | src/prediction_services/pre_processors/convert_to_notebook_latex_math.ts:8 | Two `$` in a row are one `$$` token. |
| NotebookMath.HasCursorIff | src/prediction_services/pre_processors/convert_to_notebook_latex_math.ts:64-71 | The range holds the cursor marker exactly when some token in it is the marker. |
| NotebookMath.ContainsCursor | src/prediction_services/pre_processors/convert_to_notebook_latex_math.ts:64-71 | The scanning loop returns true exactly when the range holds the cursor marker. |
| NotebookMath.Commit | src/prediction_services/pre_processors/convert_to_notebook_latex_math.ts:73-83 | The commit loop produces the output of `Committed`: the opening text, the token range in order and the closing text, with the cursor marker switching output to the suffix. |
| NotebookMath.ScanToken | src/prediction_services/pre_processors/convert_to_notebook_latex_math.ts:86-156 | One pass of the loop body is one `Step` of the scan. |
| NotebookMath.Tokenise | src/prediction_services/pre_processors/convert_to_notebook_latex_math.ts:37-164 | The whole function computes `Tokenised(prefix, suffix)`. |
| NotebookMath.Process | src/prediction_services/pre_processors/convert_to_notebook_latex_math.ts:169-175 | In a code block, the prefix and suffix are returned unchanged. |
| NotebookMathProofs.CommitSingleTwice | src/prediction_services/pre_processors/convert_to_notebook_latex_math.ts:56-62 | Appending `a` and then `b` to the current side equals appending `a + b`. |
| NotebookMathProofs.EmitAppend | src/prediction_services/pre_processors/convert_to_notebook_latex_math.ts:73-83 | Committing `a + b` equals committing `a` and then `b`. |
| NotebookMathProofs.EmitWithoutCursor | src/prediction_services/pre_processors/convert_to_notebook_latex_math.ts:73-83 | Without the cursor marker, a commit appends the tokens' text to the current side. |
| NotebookMathProofs.EmitCursor | src/prediction_services/pre_processors/convert_to_notebook_latex_math.ts:77-80 | The cursor marker switches output to the suffix and adds no text. |
| NotebookMathProofs.EmitLex | src/prediction_services/pre_processors/convert_to_notebook_latex_math.ts:73-83 | Committing the tokens of `s` appends exactly `s`. |
| NotebookMathProofs.PendingFlushedVerbatim | src/prediction_services/pre_processors/convert_to_notebook_latex_math.ts:158-161 | At the end, the tokens not yet committed are flushed as they are. |
| NotebookMathProofs.RunSkipsInert | src/prediction_services/pre_processors/convert_to_notebook_latex_math.ts:88-110 | In normal mode, tokens other than `$` and `$$` leave the scan state untouched. |
| NotebookMathProofs.ClosedInlineSpan | src/prediction_services/pre_processors/convert_to_notebook_latex_math.ts:93-120 | `$ body $` with no newline, `$$` or end inside: the text before is committed, then `\(` body `\)`. The scan returns to normal after the span. This holds even when the span straddles the cursor. |
| NotebookMathProofs.ClosedDisplaySpan | src/prediction_services/pre_processors/convert_to_notebook_latex_math.ts:101-154 | `$$ body $$` becomes `\[` body `\]`. A `$` or newline inside the body is kept. |
| NotebookMathProofs.HalfOpenInlineSpan | src/prediction_services/pre_processors/convert_to_notebook_latex_math.ts:121-128 | A `$` span holding the cursor and ended by a newline or the end becomes `\(`, its contents and that terminator, with no `\)`. |
| NotebookMathProofs.AbortedInlineSpan | src/prediction_services/pre_processors/convert_to_notebook_latex_math.ts:129-133 | A `$` span of plain text that is ended by a newline or the end leaves `mi` at the `$`. Its tokens stay pending and are later committed verbatim. |
| NotebookMathProofs.DoubleDollarInsideInlineSpan | src/prediction_services/pre_processors/convert_to_notebook_latex_math.ts:134-139 | `$$` inside a `$` span closes it as `\(…\)`. The scan stays in single mode with `mi` just after the `$$`. |
| NotebookMathProofs.UnterminatedDisplaySpan | src/prediction_services/pre_processors/convert_to_notebook_latex_math.ts:144-161 | A `$$` never closed leaves the scan in double mode, and everything from the `$$` on is flushed verbatim. |
| NotebookMathProofs.EmitStream | src/prediction_services/pre_processors/convert_to_notebook_latex_math.ts:40-45 | Committing the whole token stream reproduces the prefix and the suffix. |
| NotebookMathProofs.NoDollarIdentity | src/prediction_services/pre_processors/convert_to_notebook_latex_math.ts:85-163 | A prefix and suffix without `$` come back unchanged. |
| NotebookMathProofs.ProcessKeepsDollarFreeText | src/prediction_services/pre_processors/convert_to_notebook_latex_math.ts:169-175 | In every context, the pre-processor returns a document without `$` unchanged. |
| NotebookMathProofs.InlineMath | src/prediction_services/pre_processors/convert_to_notebook_latex_math.ts:114-120 | `$x$` (x a line piece without `$`) before the cursor becomes `\(x\)`, and the suffix is untouched. |
| NotebookMathProofs.DisplayMath | src/prediction_services/pre_processors/convert_to_notebook_latex_math.ts:146-151 | `$$x$$` (x without `$`, newlines allowed) becomes `\[x\]`. |
| NotebookMathProofs.DoubleDollarDropsToken | src/prediction_services/pre_processors/convert_to_notebook_latex_math.ts:134-139 | `$a$$b$` becomes `\(a\)\(\)`: the token after `$$` is dropped. |
| NotebookMathProofs.StraddlingInlineSpan | src/prediction_services/pre_processors/convert_to_notebook_latex_math.ts:93-120 | An inline formula around the cursor (`p$a` then `b$q`, with a and b line pieces and p and q without `$`): the prefix becomes `p\(a` and the suffix `b\)q`. |
| NotebookMathProofs.HalfOpenAtLineEnd | src/prediction_services/pre_processors/convert_to_notebook_latex_math.ts:121-128 | The cursor inside an inline formula that a newline in the suffix ends: the prefix becomes `p\(a`, and the suffix keeps its newline and gets no `\)`. |
| NotebookMathProofs.HalfOpenAtEnd | src/prediction_services/pre_processors/convert_to_notebook_latex_math.ts:121-128 | The cursor inside an inline formula that the end of the document cuts off: `p$a` and `b` become `p\(a` and `b`. |
| NotebookMathProofs.DollarFreePrefixKept | src/prediction_services/pre_processors/convert_to_notebook_latex_math.ts:85-163 | A prefix without `$` comes back unchanged, whatever the suffix holds. |
| NotebookMathProofs.ClosingDollarAfterCursor | src/__tests__/prediction_services/pre_processors/convert_to_notebook_latex_math.test.ts:37-41 | The documented example with the closing `$` after the cursor: `\(` ends the prefix and `\)` starts the suffix. |
| NotebookMathProofs.NoClosingDollarBeforeNewline | src/__tests__/prediction_services/pre_processors/convert_to_notebook_latex_math.test.ts:42-46 | The documented example with no closing `$` before the newline: the prefix ends in `\(` and the suffix is unchanged. |
| NotebookMathProofs.NoClosingDollarAtEnd | src/__tests__/prediction_services/pre_processors/convert_to_notebook_latex_math.test.ts:47-51 | The documented example with no closing `$` at the end of the document: the prefix ends in `\(` and the suffix stays empty. |
| NotebookMathProofs.AbortedInlineKeptVerbatim | src/prediction_services/pre_processors/convert_to_notebook_latex_math.ts:129-133 | `$x` followed by a newline, with the cursor later, keeps its `$`: the document comes back unchanged. |
| ObsidianMath.OpenLength | src/prediction_services/post_processors/convert_to_obsidian_latex_math.ts:13 | The first alternative matches exactly when the text starts with `\(`, and it takes at least those two characters. |
| ObsidianMath.CloseLength | src/prediction_services/post_processors/convert_to_obsidian_latex_math.ts:13 | The second alternative takes nothing, or whitespace and `\)` within the text. |
| ObsidianMath.Process | src/prediction_services/post_processors/convert_to_obsidian_latex_math.ts:11-17 | In a code block or math block, the completion is returned unchanged. |
| ObsidianMath.InlinePassRemovesDelimiters | src/prediction_services/post_processors/convert_to_obsidian_latex_math.ts:13 | After the first replacement, no `\(` or `\)` remains. |
| ObsidianMath.DisplayPassRemovesDelimiters | src/prediction_services/post_processors/convert_to_obsidian_latex_math.ts:14 | After the second replacement, no `\[` or `\]` remains, and it introduces no `\(` or `\)`. |
| ObsidianMath.InlinePassIdentity | src/prediction_services/post_processors/convert_to_obsidian_latex_math.ts:13 | Text without `\(` and `\)` passes the first replacement unchanged. |
| ObsidianMath.DisplayPassIdentity | src/prediction_services/post_processors/convert_to_obsidian_latex_math.ts:14 | Text without `\[` and `\]` passes the second replacement unchanged. |
| ObsidianMath.ProcessRemovesDelimiters | src/prediction_services/post_processors/convert_to_obsidian_latex_math.ts:11-14 | Outside code and math blocks, the result has none of the four LaTeX delimiters. |
| ObsidianMath.ProcessKeepsPlainText | src/prediction_services/post_processors/convert_to_obsidian_latex_math.ts:5-17 | A completion without those delimiters is returned unchanged in every context. The prefix and suffix are never read. |
| ObsidianMath.NoBackslashNoDelimiter | src/prediction_services/post_processors/convert_to_obsidian_latex_math.ts:13-14 | Text without a backslash contains none of the delimiters. |
| ObsidianMath.ProcessIdempotent | src/prediction_services/post_processors/convert_to_obsidian_latex_math.ts:11-14 | Converting twice equals converting once. |
| ObsidianMath.InlinePassCopies | src/prediction_services/post_processors/convert_to_obsidian_latex_math.ts:13 | A delimiter-free piece that does not form a delimiter with what follows is copied verbatim. |
| ObsidianMath.DisplayPassCopies | src/prediction_services/post_processors/convert_to_obsidian_latex_math.ts:14 | The same for the second replacement. |
| ObsidianMath.InlineOpenEatsSpace | src/prediction_services/post_processors/convert_to_obsidian_latex_math.ts:13 | `\(` together with the whitespace after it becomes one `$`, followed by the rest of the completion converted in turn, an empty rest included. |
| ObsidianMath.InlineCloseEatsSpace | src/prediction_services/post_processors/convert_to_obsidian_latex_math.ts:13 | Whitespace together with the `\)` after it becomes one `$`, followed by the rest of the completion converted in turn. |
| ObsidianMath.InlineFormulaBody | src/prediction_services/post_processors/convert_to_obsidian_latex_math.ts:13 | Delimiter-free formula contents are copied, the whitespace and `\)` after them become one `$`, and the text after is converted in turn. |
| ObsidianMath.InlineFormulaTrimmed | src/prediction_services/post_processors/convert_to_obsidian_latex_math.ts:13 | `\(` w1 x w2 `\)` followed by any text becomes `$x$` followed by that text converted, when w1 and w2 are whitespace and x has none at its ends. |
| ObsidianMath.DisplayFormula | src/prediction_services/post_processors/convert_to_obsidian_latex_math.ts:14 | `\[x\]` followed by any text becomes `$$x$$` followed by that text converted: the replacement `"$$$$"` stands for two dollars. |
| MathRoundTrip.InlineRoundTrip | src/prediction_services/post_processors/convert_to_obsidian_latex_math.ts:11-14 | `$x$` is sent as `\(x\)`, and an answer `\(x\)` comes back as `$x$`, when x has no whitespace at its ends. |
| MathRoundTrip.DisplayRoundTrip | src/prediction_services/post_processors/convert_to_obsidian_latex_math.ts:11-14 | `$$x$$` is sent as `\[x\]`, and `\[x\]` comes back as `$$x$$`. |
| SettingsV1.TriggerRefinementIssues | src/settings/versions/v1/v1.ts:15-32 | A string trigger gets no issue, and a regex trigger gets at most two. |
| SettingsV1.TriggerRule | src/settings/versions/v1/v1.ts:12-32 | A trigger is valid exactly in two cases: it is a non-empty string trigger, or it is a non-empty regex trigger that ends with `$` and that `isRegexValid` accepts. |
| SettingsV1.RegexTriggerIssues | src/settings/versions/v1/v1.ts:16-30 | Both regex checks run, so a regex trigger can collect both issues. |
| SettingsV1.SystemMessageBounds | src/settings/versions/v1/v1.ts:44 | Three characters always meet the minimum; one character never does. |
| SettingsV1.LinesContainingEmpty | src/settings/versions/v1/v1.ts:56-65 | The `includes` filter is empty exactly when no line contains the character. |
| SettingsV1.IgnoredTagsIssues | src/settings/versions/v1/v1.ts:56-65 | The three tag refinements give at most three issues. |
| SettingsV1.IgnoredTagsRule | src/settings/versions/v1/v1.ts:56-65 | The tags are valid exactly when the text has no space, no `#` and no `,`. |
| SettingsV1.NonBlankLines | src/settings/versions/v1/v1.ts:52 | The blank-line filter keeps only lines whose trimmed text is non-empty. |
| SettingsV1.InvalidPatterns | src/settings/versions/v1/v1.ts:53 | The second filter keeps only lines the validator rejects. |
| SettingsV1.FilterPatternsRule | src/settings/versions/v1/v1.ts:50-55 | After both filters nothing is left exactly when every line is blank or a valid pattern. |
| SettingsV1.IgnoredFilePatternsRule | src/settings/versions/v1/v1.ts:50-55 | The file patterns are valid exactly when every line is blank or accepted by `isValidIgnorePattern`. |
| SettingsV1.DefaultTriggersWellFormed | src/settings/versions/v1/v1.ts:89-113 | Every default trigger is a string or regex trigger with a value, and every regex one ends with `$`. |
| SettingsV1.DefaultSettingsValid | src/settings/versions/v1/v1.ts:75-149 | The default settings meet every refinement, given that the five default regexes and `**/secret/**` are accepted by the validators. |
| Fim.FromSettings | src/prediction_services/FIM/index.ts:50-94 | A provider other than "ollama" is an error. Otherwise the pre-processors are: the data-view remover first exactly when enabled, then the math conversion, then the length limiter last. The post-processors are: the math- and code-indicator removers, each exactly when enabled, then the math conversion, overlap removal and whitespace removal. |
| Fim.RunPreProcessors | src/prediction_services/FIM/index.ts:102-113 | The loop gives no text exactly when some pre-processor reports a removed cursor on the text as transformed by those before it. Otherwise it gives the text transformed by all of them in order. |
| Fim.MathConversionPrecedesLimit | src/prediction_services/FIM/index.ts:55-62 | With the chain built from the settings, the length limiter works on, and decides cancellation from, the already converted text. |
| Fim.PostProcessedAppend | src/prediction_services/FIM/index.ts:149-151 | Post-processors run in order: running `a + b` is running `b` on the result of `a`. |
| Fim.ApplyPostProcessors | src/prediction_services/FIM/index.ts:149-151 | The loop computes `PostProcessed`. |
| Fim.StopAt | src/prediction_services/FIM/index.ts:141-153 | The first event that ends the iteration (a `done` chunk or an error). Every event before it is an unfinished chunk. |
| Fim.Streamer | src/prediction_services/FIM/index.ts:137-170 | The stream fold computes `StreamOutcome`. |
| Fim.DoneChunkCompletes | src/prediction_services/FIM/index.ts:141-156 | The result is the post-processed concatenation of the chunks before the first `done` chunk. That chunk's own text and everything after it are ignored. |
| Fim.AbortIsNoPrediction | src/prediction_services/FIM/index.ts:157-164 | An `AbortError` gives `Ok(null)`. |
| Fim.OtherErrorIsError | src/prediction_services/FIM/index.ts:157-166 | Any other error is the result. |
| Fim.EndWithoutDoneIsError | src/prediction_services/FIM/index.ts:169 | A stream ending without `done` gives the "Unexpected end of stream" error. |
| Fim.SystemMessageFor | src/prediction_services/FIM/index.ts:182-216 | The system message always starts with the configured message followed by a blank line. |
| Fim.FetchPredictions | src/prediction_services/FIM/index.ts:96-180 | The context is computed once from the editor's text and passed to every processor and to the system message. A cancelling pre-processor gives `Ok(null)` and no request. Otherwise the request carries the model, that system message and the processed prefix and suffix, and the result is the stream's outcome. |
| PredictingStates.SuggestionOf | src/states/predicting_state.ts:88-94 | A suggestion is never empty. |
| PredictingStates.SuggestionOfIff | src/states/predicting_state.ts:88-95 | The text `t` is suggested exactly when the response is `Ok(t)` with `t` non-empty. |
| PredictingStates.PredictTransitions | src/states/predicting_state.ts:80-95 | One or two transitions. Two happen exactly on an error, and every transition before the last is idle. The last is suggesting exactly when there is a suggestion, and then it carries that text and the state's prefix and suffix. Without a suggestion (`Ok(null)`, `Ok("")` or an error) the last is idle. |
| PredictingStates.PredictingState.constructor | src/states/predicting_state.ts:13-17 | Prefix and suffix are fixed, and no prediction has been issued. |
| PredictingStates.PredictingState.CreateAndStartPredicting | src/states/predicting_state.ts:19-28 | A new state that has issued one request for its prefix and suffix. The listener's context is set from them, and no transition is requested. |
| PredictingStates.PredictingState.HandleCancelKeyPressed | src/states/predicting_state.ts:30-33 | Returns true and cancels: idle is requested, and the pending request, if any, is aborted. |
| PredictingStates.PredictingState.HandleDocumentChange | src/states/predicting_state.ts:35-46 | Cancels exactly when the cursor moved, the user typed or deleted, or text was added. Otherwise nothing changes. |
| PredictingStates.PredictingState.CancelPrediction | src/states/predicting_state.ts:48-62 | Always requests idle, and aborts the pending request only when there is one. |
| PredictingStates.PredictingState.StartPredicting | src/states/predicting_state.ts:64-74 | A pending request is cancelled first, then a new one is issued. |
| PredictingStates.PredictingState.Predict | src/states/predicting_state.ts:76-96 | The listener receives exactly the transitions of `PredictTransitions`, and an error shows one notice. |
| PredictingStates.PredictingState.GetStatusBarText | src/states/predicting_state.ts:98-100 | "Predicting for " followed by the listener's context. |
| PredictingStates.LateResultStillApplies | src/states/predicting_state.ts:76-96 | After a cancel, a late non-empty response still moves the listener from idle to suggesting. |
| PredictingStates.RestartAbortsPending | src/states/predicting_state.ts:64-74 | Starting again asks for the first request to be aborted and issues a second request. The abort runs later, when the first request's promise settles. |

## Left out

- The context classifier (`context_detection`) is not part of this model. Its
  result is a parameter (`Collaborators.getContext`), and so is the listener's
  context name in `GetStatusBarText`. Its test
  (`convert_to_notebook_latex_math.test.ts:58-63`) is not modelled.
- The other processors are not part of this model: the data-view remover, the
  length limiter, and the math-indicator, code-indicator, overlap and
  whitespace post-processors. Their behaviour is a function parameter.
- The Ollama client is reduced to the host it is built with:
  - creating the stream is not modelled, and an error thrown while creating it
    is not modelled either;
  - the stream is a given finite sequence of events;
  - `abort` is represented only by the `AbortError` event it causes;
  - an exception thrown by a post-processor inside the `try` is not modelled,
    because post-processors are pure functions here.
- The model options (`temperature`, `top_p`, penalties, `max_tokens`, `num_ctx`)
  are floating-point or pass-through values without logic. They are absent
  from `Settings` and from the request.
- Promises and `async`/`await` are not modelled. A prediction resolving is a
  call of `Predict`, and an abort is counted when it is asked for rather than
  when the promise callback runs.
- Optional chaining on `predictionService` is not modelled. The service is
  taken to be present.
- Debug output (`console.log`, `console.error`) is left out. A `Notice` is
  counted in `EventListener.notices`; its text is not kept.
- `EventListener` and `DocumentChanges` are not part of this model. They are
  reduced to the fields and flags the predicting state uses.
- Zod machinery is left out:
  - `.strict()`, literal and enum field checks, type inference, and the messages
    of the `min` checks;
  - the numeric bounds of `delay` and the character limits, which come from
    `../shared`, a file that is not part of this model;
  - `settings/versions/migration.ts` and the `ConnectivityCheck` component.
- `isRegexValid` and `isValidIgnorePattern` are parameters. They live in a
  utilities module that is not part of this model.
- Fim.SystemMessageFor: the contract states the shared prefix. The nine
  context sentences appear only in the body, and no lemma proves that
  different contexts get different messages.
- NotebookMath.Process: only the code-block gate is stated on the function.
  Its behaviour elsewhere is that of `Tokenise`, proved through the lemmas of
  `NotebookMathProofs`.
- The context classifier is taken to return exactly the nine `Context` values
  that `getSystemMessageFor` tests for. Its final `return this.systemMessage`
  (`FIM/index.ts:214`) is for any other value, so it is not part of this model.
