/**
 * The fill-in-the-middle prediction service (prediction_services/FIM/index.ts):
 * the processor chains assembled from the settings, the pre-processor loop with
 * its `removesCursor` short-circuit, the fold over the streamed answer and the
 * choice of system message.
 *
 * The context classifier, the processors whose code is not part of this model
 * and the model server are parameters: the classifier and those processors are
 * functions in `Collaborators`, and the server's answer is a finite sequence of
 * stream events.
 */
module Fim {
  import opened Types
  import SettingsV1
  import NotebookMath
  import ObsidianMath

  datatype PreProcessor =
    | DataViewRemover
    | ConvertNotebookMathIndicators
    | LengthLimiter(maxPrefixCharLimit: int, maxSuffixCharLimit: int)

  datatype PostProcessor =
    | RemoveMathIndicators
    | RemoveCodeIndicators
    | ConvertObsidianMathIndicators
    | RemoveOverlap
    | RemoveWhitespace

  /** The behaviour of the context classifier and of the processors defined elsewhere. */
  datatype Collaborators = Collaborators(
    getContext: (string, string) -> Context,
    removeDataViews: (PrefixAndSuffix, Context) -> PrefixAndSuffix,
    dataViewsRemoveCursor: PrefixAndSuffix -> bool,
    limitLength: (int, int, PrefixAndSuffix, Context) -> PrefixAndSuffix,
    limitRemovesCursor: (int, int, PrefixAndSuffix) -> bool,
    removeMathIndicators: (string, string, string, Context) -> string,
    removeCodeIndicators: (string, string, string, Context) -> string,
    removeOverlap: (string, string, string, Context) -> string,
    removeWhitespace: (string, string, string, Context) -> string)

  /** The service as `fromSettings` builds it (the client is reduced to its host). */
  datatype FimService = FimService(
    host: string,
    model: string,
    systemMessage: string,
    preProcessors: seq<PreProcessor>,
    postProcessors: seq<PostProcessor>,
    debugMode: bool)

  /** The request sent to the model server, without the floating-point options. */
  datatype GenerateRequest = GenerateRequest(model: string, system: string, prompt: string, suffix: string)

  /** One event of the server's stream: a chunk of the answer, or the error the iteration throws. */
  datatype StreamEvent = Chunk(response: string, done: bool) | Thrown(error: Error)

  const InvalidApiProvider := Error("Error", "Invalid API provider")
  const UnexpectedEndOfStream := Error("Error", "Unexpected end of stream")

  // ---------------------------------------------------------------------------
  // Assembling the service
  // ---------------------------------------------------------------------------

  /**
   * `fromSettings`. The data-view remover comes first exactly when it is
   * enabled, the math conversion next and the length limiter last; the two
   * duplicate-indicator removers come first, each exactly when enabled,
   * followed by the math conversion, overlap removal and whitespace removal.
   */
  method FromSettings(s: SettingsV1.Settings) returns (r: Result<FimService, Error>)
    ensures r.Ok? <==> s.apiProvider == "ollama"
    ensures r.Err? ==> r.error == InvalidApiProvider
    ensures r.Ok? ==>
      r.value.host == s.ollamaApiSettings.host && r.value.model == s.ollamaApiSettings.model
      && r.value.systemMessage == s.systemMessage && r.value.debugMode == s.debugMode
    ensures r.Ok? ==>
      var pre := r.value.preProcessors;
      |pre| == (if s.dontIncludeDataviews then 3 else 2)
      && (pre[0] == DataViewRemover <==> s.dontIncludeDataviews)
      && pre[|pre| - 2] == ConvertNotebookMathIndicators
      && pre[|pre| - 1] == LengthLimiter(s.maxPrefixCharLimit, s.maxSuffixCharLimit)
    ensures r.Ok? ==>
      var post := r.value.postProcessors;
      var math := if s.removeDuplicateMathBlockIndicator then 1 else 0;
      var code := if s.removeDuplicateCodeBlockIndicator then 1 else 0;
      |post| == math + code + 3
      && (s.removeDuplicateMathBlockIndicator ==> post[0] == RemoveMathIndicators)
      && (s.removeDuplicateCodeBlockIndicator ==> post[math] == RemoveCodeIndicators)
      && post[math + code..] == [ConvertObsidianMathIndicators, RemoveOverlap, RemoveWhitespace]
  {
    var pre: seq<PreProcessor> := [];
    if s.dontIncludeDataviews {
      pre := pre + [DataViewRemover];
    }
    pre := pre + [ConvertNotebookMathIndicators, LengthLimiter(s.maxPrefixCharLimit, s.maxSuffixCharLimit)];

    var post: seq<PostProcessor> := [];
    if s.removeDuplicateMathBlockIndicator {
      post := post + [RemoveMathIndicators];
    }
    if s.removeDuplicateCodeBlockIndicator {
      post := post + [RemoveCodeIndicators];
    }
    post := post + [ConvertObsidianMathIndicators];
    post := post + [RemoveOverlap];
    post := post + [RemoveWhitespace];

    if s.apiProvider == "ollama" {
      r := Ok(FimService(s.ollamaApiSettings.host, s.ollamaApiSettings.model, s.systemMessage, pre, post, s.debugMode));
    } else {
      r := Err(InvalidApiProvider);
    }
  }

  // ---------------------------------------------------------------------------
  // Pre-processing
  // ---------------------------------------------------------------------------

  function ApplyPre(c: Collaborators, p: PreProcessor, ps: PrefixAndSuffix, context: Context): PrefixAndSuffix
  {
    match p
    case DataViewRemover => c.removeDataViews(ps, context)
    case ConvertNotebookMathIndicators => NotebookMath.Process(ps.prefix, ps.suffix, context)
    case LengthLimiter(a, b) => c.limitLength(a, b, ps, context)
  }

  predicate RemovesCursor(c: Collaborators, p: PreProcessor, ps: PrefixAndSuffix)
  {
    match p
    case DataViewRemover => c.dataViewsRemoveCursor(ps)
    case ConvertNotebookMathIndicators => NotebookMath.RemovesCursor(ps.prefix, ps.suffix)
    case LengthLimiter(a, b) => c.limitRemovesCursor(a, b, ps)
  }

  /** The text after every processor of `pre` has transformed it, in order, with no short-circuit. */
  function Through(c: Collaborators, pre: seq<PreProcessor>, ps: PrefixAndSuffix, context: Context): PrefixAndSuffix
    decreases |pre|
  {
    if pre == [] then ps
    else ApplyPre(c, pre[|pre| - 1], Through(c, pre[..|pre| - 1], ps, context), context)
  }

  /** No processor reports a removed cursor on the text the processors before it produced. */
  predicate NoneRemovesCursor(c: Collaborators, pre: seq<PreProcessor>, ps: PrefixAndSuffix, context: Context)
  {
    forall k :: 0 <= k < |pre| ==> !RemovesCursor(c, pre[k], Through(c, pre[..k], ps, context))
  }

  /** The first `i` processors of `pre` all let the prediction go ahead. */
  predicate ClearBefore(c: Collaborators, pre: seq<PreProcessor>, ps: PrefixAndSuffix, context: Context, i: nat)
    requires i <= |pre|
  {
    forall k :: 0 <= k < i ==> !RemovesCursor(c, pre[k], Through(c, pre[..k], ps, context))
  }

  lemma ThroughStep(c: Collaborators, pre: seq<PreProcessor>, i: nat, ps: PrefixAndSuffix, context: Context)
    requires i < |pre|
    ensures Through(c, pre[..i + 1], ps, context) == ApplyPre(c, pre[i], Through(c, pre[..i], ps, context), context)
  {
    assert pre[..i + 1][..i] == pre[..i];
  }

  lemma ClearStep(c: Collaborators, pre: seq<PreProcessor>, ps: PrefixAndSuffix, context: Context, i: nat)
    requires i < |pre| && ClearBefore(c, pre, ps, context, i)
    requires !RemovesCursor(c, pre[i], Through(c, pre[..i], ps, context))
    ensures ClearBefore(c, pre, ps, context, i + 1)
  {
  }

  lemma ClearAll(c: Collaborators, pre: seq<PreProcessor>, ps: PrefixAndSuffix, context: Context)
    ensures ClearBefore(c, pre, ps, context, |pre|) <==> NoneRemovesCursor(c, pre, ps, context)
  {
  }

  /**
   * The pre-processor loop of `fetchPredictions`: `None` stands for the early
   * `ok(null)` return, `Some` for the text handed on to the request.
   */
  method RunPreProcessors(c: Collaborators, pre: seq<PreProcessor>, ps: PrefixAndSuffix, context: Context)
    returns (r: Option<PrefixAndSuffix>)
    ensures r.Some? <==> NoneRemovesCursor(c, pre, ps, context)
    ensures r.Some? ==> r.value == Through(c, pre, ps, context)
  {
    var cur := ps;
    var i := 0;
    ClearAll(c, pre, ps, context);
    while i < |pre|
      invariant i <= |pre|
      invariant cur == Through(c, pre[..i], ps, context)
      invariant ClearBefore(c, pre, ps, context, i)
    {
      if RemovesCursor(c, pre[i], cur) {
        return None;
      }
      ClearStep(c, pre, ps, context, i);
      ThroughStep(c, pre, i, ps, context);
      cur := ApplyPre(c, pre[i], cur, context);
      i := i + 1;
    }
    assert pre[..i] == pre;
    r := Some(cur);
  }

  /**
   * The chain `fromSettings` builds without the data-view remover: the math
   * delimiters are converted before the length limit applies, and only the
   * limiter can cancel, judging the converted text.
   */
  lemma {:induction false} MathConversionPrecedesLimit(c: Collaborators, a: int, b: int, ps: PrefixAndSuffix, context: Context)
    ensures var pre := [ConvertNotebookMathIndicators, LengthLimiter(a, b)];
            var converted := NotebookMath.Process(ps.prefix, ps.suffix, context);
            Through(c, pre, ps, context) == c.limitLength(a, b, converted, context)
            && (NoneRemovesCursor(c, pre, ps, context) <==> !c.limitRemovesCursor(a, b, converted))
  {
    var pre := [ConvertNotebookMathIndicators, LengthLimiter(a, b)];
    assert pre[..0] == [] && pre[..1] == [ConvertNotebookMathIndicators] && pre[..1][..0] == [];
    assert Through(c, pre[..1], ps, context) == NotebookMath.Process(ps.prefix, ps.suffix, context);
    assert pre[..|pre| - 1] == pre[..1];
  }

  // ---------------------------------------------------------------------------
  // Post-processing and the stream
  // ---------------------------------------------------------------------------

  function ApplyPost(c: Collaborators, p: PostProcessor, prefix: string, suffix: string, completion: string, context: Context): string
  {
    match p
    case RemoveMathIndicators => c.removeMathIndicators(prefix, suffix, completion, context)
    case RemoveCodeIndicators => c.removeCodeIndicators(prefix, suffix, completion, context)
    case ConvertObsidianMathIndicators => ObsidianMath.Process(prefix, suffix, completion, context)
    case RemoveOverlap => c.removeOverlap(prefix, suffix, completion, context)
    case RemoveWhitespace => c.removeWhitespace(prefix, suffix, completion, context)
  }

  /** The completion after every post-processor of `post`, each given the same prefix, suffix and context. */
  function PostProcessed(c: Collaborators, post: seq<PostProcessor>, prefix: string, suffix: string, completion: string, context: Context): string
    decreases |post|
  {
    if post == [] then completion
    else ApplyPost(c, post[|post| - 1], prefix, suffix, PostProcessed(c, post[..|post| - 1], prefix, suffix, completion, context), context)
  }

  /** Running two chains one after the other is running their concatenation. */
  lemma {:induction false} PostProcessedAppend(c: Collaborators, a: seq<PostProcessor>, b: seq<PostProcessor>,
                                               prefix: string, suffix: string, completion: string, context: Context)
    ensures PostProcessed(c, a + b, prefix, suffix, completion, context)
         == PostProcessed(c, b, prefix, suffix, PostProcessed(c, a, prefix, suffix, completion, context), context)
    decreases |b|
  {
    if b == [] {
      assert a + b == a;
    } else {
      var init := b[..|b| - 1];
      assert (a + b)[..|a + b| - 1] == a + init;
      PostProcessedAppend(c, a, init, prefix, suffix, completion, context);
    }
  }

  /** The post-processing loop of `streamer`. */
  method ApplyPostProcessors(c: Collaborators, post: seq<PostProcessor>, prefix: string, suffix: string, completion: string, context: Context)
    returns (result: string)
    ensures result == PostProcessed(c, post, prefix, suffix, completion, context)
  {
    result := completion;
    var i := 0;
    while i < |post|
      invariant i <= |post|
      invariant result == PostProcessed(c, post[..i], prefix, suffix, completion, context)
    {
      result := ApplyPost(c, post[i], prefix, suffix, result, context);
      assert post[..i + 1][..i] == post[..i];
      i := i + 1;
    }
    assert post[..i] == post;
  }

  /** An event that ends the iteration: a `done` chunk or a thrown error. */
  predicate Stops(e: StreamEvent)
  {
    e.Thrown? || e.done
  }

  /** The position of the first event that ends the iteration, or the length when there is none. */
  function StopAt(events: seq<StreamEvent>): (k: nat)
    ensures k <= |events|
    ensures forall j :: 0 <= j < k ==> !Stops(events[j])
    ensures k < |events| ==> Stops(events[k])
    decreases |events|
  {
    if events == [] || Stops(events[0]) then 0 else 1 + StopAt(events[1..])
  }

  /** The answer text the chunks carry, in order. */
  function Responses(events: seq<StreamEvent>): string
    decreases |events|
  {
    if events == [] then []
    else
      var last := events[|events| - 1];
      Responses(events[..|events| - 1]) + (if last.Chunk? then last.response else [])
  }

  /**
   * What `streamer` resolves to: the post-processed text of the chunks before
   * the first `done` chunk, nothing when the stream is aborted, the error when
   * another one is thrown, and an error when the stream ends without `done`.
   */
  function StreamOutcome(c: Collaborators, post: seq<PostProcessor>, prefix: string, suffix: string,
                         context: Context, events: seq<StreamEvent>): PredictionResponse
  {
    var k := StopAt(events);
    if k == |events| then Err(UnexpectedEndOfStream)
    else match events[k]
      case Chunk(_, _) => Ok(Some(PostProcessed(c, post, prefix, suffix, Responses(events[..k]), context)))
      case Thrown(e) => if e.name == "AbortError" then Ok(None) else Err(e)
  }

  /** `streamer`: the fold over the stream. */
  method Streamer(c: Collaborators, post: seq<PostProcessor>, prefix: string, suffix: string,
                  context: Context, events: seq<StreamEvent>)
    returns (r: PredictionResponse)
    ensures r == StreamOutcome(c, post, prefix, suffix, context, events)
  {
    var result := "";
    var i := 0;
    while i < |events|
      invariant i <= |events|
      invariant forall j :: 0 <= j < i ==> !Stops(events[j])
      invariant result == Responses(events[..i])
    {
      match events[i]
      case Thrown(e) =>
        assert StopAt(events) == i;
        if e.name == "AbortError" {
          return Ok(None);
        }
        return Err(e);
      case Chunk(response, done) =>
        if done {
          assert StopAt(events) == i;
          result := ApplyPostProcessors(c, post, prefix, suffix, result, context);
          return Ok(Some(result));
        }
        result := result + response;
        assert events[..i + 1][..i] == events[..i];
      i := i + 1;
    }
    assert StopAt(events) == |events|;
    r := Err(UnexpectedEndOfStream);
  }

  /** Chunks that neither finish the answer nor fail. */
  predicate Pending(chunks: seq<StreamEvent>)
  {
    forall j :: 0 <= j < |chunks| ==> chunks[j].Chunk? && !chunks[j].done
  }

  lemma StopsAfter(chunks: seq<StreamEvent>, e: StreamEvent, rest: seq<StreamEvent>)
    requires Pending(chunks) && Stops(e)
    ensures StopAt(chunks + [e] + rest) == |chunks|
    ensures (chunks + [e] + rest)[..|chunks|] == chunks
  {
    var events := chunks + [e] + rest;
    assert forall j :: 0 <= j < |chunks| ==> events[j] == chunks[j];
    assert events[|chunks|] == e;
  }

  /**
   * A `done` chunk completes the answer with the text of the chunks before it;
   * its own `response` and everything after it are not read.
   */
  lemma DoneChunkCompletes(c: Collaborators, post: seq<PostProcessor>, prefix: string, suffix: string, context: Context,
                           chunks: seq<StreamEvent>, last: string, rest: seq<StreamEvent>)
    requires Pending(chunks)
    ensures StreamOutcome(c, post, prefix, suffix, context, chunks + [Chunk(last, true)] + rest)
         == Ok(Some(PostProcessed(c, post, prefix, suffix, Responses(chunks), context)))
  {
    StopsAfter(chunks, Chunk(last, true), rest);
  }

  /** An aborted stream resolves to no prediction, whatever arrived before. */
  lemma AbortIsNoPrediction(c: Collaborators, post: seq<PostProcessor>, prefix: string, suffix: string, context: Context,
                            chunks: seq<StreamEvent>, message: string, rest: seq<StreamEvent>)
    requires Pending(chunks)
    ensures StreamOutcome(c, post, prefix, suffix, context, chunks + [Thrown(Error("AbortError", message))] + rest)
         == Ok(None)
  {
    StopsAfter(chunks, Thrown(Error("AbortError", message)), rest);
  }

  /** Any other error thrown by the stream is the outcome. */
  lemma OtherErrorIsError(c: Collaborators, post: seq<PostProcessor>, prefix: string, suffix: string, context: Context,
                          chunks: seq<StreamEvent>, e: Error, rest: seq<StreamEvent>)
    requires Pending(chunks) && e.name != "AbortError"
    ensures StreamOutcome(c, post, prefix, suffix, context, chunks + [Thrown(e)] + rest) == Err(e)
  {
    StopsAfter(chunks, Thrown(e), rest);
  }

  /** A stream that ends without a `done` chunk is an error, even when text arrived. */
  lemma EndWithoutDoneIsError(c: Collaborators, post: seq<PostProcessor>, prefix: string, suffix: string, context: Context,
                              chunks: seq<StreamEvent>)
    requires Pending(chunks)
    ensures StreamOutcome(c, post, prefix, suffix, context, chunks) == Err(UnexpectedEndOfStream)
  {
    assert forall j :: 0 <= j < |chunks| ==> !Stops(chunks[j]);
  }

  // ---------------------------------------------------------------------------
  // The system message
  // ---------------------------------------------------------------------------

  /** The sentence `getSystemMessageFor` adds for each context. */
  function ContextHint(context: Context): string
  {
    match context
    case Text =>
      "The text is located in a paragraph. "
      + "Your answer must complete this "
      + "paragraph or sentence in a way that "
      + "fits the surrounding text without "
      + "overlapping with it. It must be in "
      + "the same language as the paragraph."
    case Heading =>
      "The text is located in the Markdown "
      + "heading. Your answer must complete "
      + "this title in a way that fits the "
      + "content of this paragraph and be in "
      + "the same language as the paragraph."
    case BlockQuotes =>
      "The text is located within a quote. "
      + "Your answer must complete this quote "
      + "in a way that fits the context of "
      + "the paragraph."
    case UnorderedList =>
      "The text is located in an unordered "
      + "list. Your answer must include one "
      + "or more list items that fit with the "
      + "surrounding list without overlapping "
      + "with it."
    case NumberedList =>
      "The text is located in a numbered "
      + "list. Your answer must include one "
      + "or more list items that fit the "
      + "sequence and context of the "
      + "surrounding list without overlapping "
      + "with it."
    case CodeBlock =>
      "The text is located in a code block. "
      + "Your answer must complete this code "
      + "block in the same programming "
      + "language and support the surrounding "
      + "code and text outside of the code "
      + "block."
    case MathBlock =>
      "The text is located in a math block. "
      + "Your answer must only contain LaTeX "
      + "code that captures the math "
      + "discussed in the surrounding text. "
      + "No text or explaination only LaTex "
      + "math code."
    case MathBlockOpen =>
      "The text is located in an opened "
      + "math block. Your answer must only "
      + "contain LaTeX code that captures the "
      + "math discussed in the surrounding "
      + "text. No text or explaination only "
      + "LaTex math code, then close the "
      + "block."
    case TaskList =>
      "The text is located in a task list. "
      + "Your answer must include one or more "
      + "(sub)tasks that are logical given "
      + "the other tasks and the surrounding "
      + "text."
  }

  /** `getSystemMessageFor`: the configured message, a blank line and the context's sentence. */
  function SystemMessageFor(systemMessage: string, context: Context): (r: string)
    ensures |r| >= |systemMessage| + 2
    ensures r[..|systemMessage|] == systemMessage
    ensures r[|systemMessage|..|systemMessage| + 2] == "\n\n"
  {
    systemMessage + "\n\n" + ContextHint(context)
  }

  // ---------------------------------------------------------------------------
  // A whole prediction
  // ---------------------------------------------------------------------------

  /**
   * `fetchPredictions`: the request sent (none when a pre-processor cancels)
   * and what the prediction resolves to. The context is classified once, on
   * the text as it came from the editor, and that one value reaches every
   * processor and the system message; the request carries the pre-processed
   * prefix and suffix.
   */
  method FetchPredictions(fim: FimService, c: Collaborators, prefix: string, suffix: string, events: seq<StreamEvent>)
    returns (request: Option<GenerateRequest>, r: PredictionResponse)
    ensures var context := c.getContext(prefix, suffix);
            var ps := PrefixAndSuffix(prefix, suffix);
            (!NoneRemovesCursor(c, fim.preProcessors, ps, context) ==> request == None && r == Ok(None))
            && (NoneRemovesCursor(c, fim.preProcessors, ps, context) ==>
                  var sent := Through(c, fim.preProcessors, ps, context);
                  request == Some(GenerateRequest(fim.model, SystemMessageFor(fim.systemMessage, context), sent.prefix, sent.suffix))
                  && r == StreamOutcome(c, fim.postProcessors, sent.prefix, sent.suffix, context, events))
  {
    var context := c.getContext(prefix, suffix);
    var processed := RunPreProcessors(c, fim.preProcessors, PrefixAndSuffix(prefix, suffix), context);
    if processed.None? {
      return None, Ok(None);
    }
    var sent := processed.value;
    var system := SystemMessageFor(fim.systemMessage, context);
    request := Some(GenerateRequest(fim.model, system, sent.prefix, sent.suffix));
    r := Streamer(c, fim.postProcessors, sent.prefix, sent.suffix, context, events);
  }
}
