/**
 * The predicting state of the completion lifecycle (states/predicting_state.ts)
 * and the part of the event listener it drives.
 *
 * The event listener's own code is not part of this model: `EventListener`
 * keeps only what the predicting state reads and changes (the current
 * lifecycle state, the detected context, the notices shown) and records every
 * transition it is asked for. A prediction's promise resolving is a call of
 * `Predict` by the environment, which may come at any time, also after the
 * state has been cancelled.
 */
module PredictingStates {
  import opened Types

  /**
   * The lifecycle states the listener moves between. The listener itself
   * enters `Predicting` when it creates a predicting state; that step is the
   * listener's, and no operation here produces it.
   */
  datatype Lifecycle = Idle | Predicting | Suggesting(text: string, prefix: string, suffix: string)

  /** What changed in the document since the last event. */
  datatype DocumentChanges = DocumentChanges(cursorMoved: bool, userTyped: bool, userDeleted: bool, textAdded: bool)

  /** A request handed to the prediction service. */
  datatype Request = Request(prefix: string, suffix: string)

  class EventListener {
    var state: Lifecycle
    var context: Context
    /** How many error notices have been shown. */
    var notices: nat
    /** Every transition requested, oldest first. */
    var transitions: seq<Lifecycle>

    constructor (context: Context)
      ensures state == Idle && this.context == context && notices == 0 && transitions == []
    {
      state := Idle;
      this.context := context;
      notices := 0;
      transitions := [];
    }

    method TransitionToIdleState()
      modifies this
      ensures state == Idle && transitions == old(transitions) + [Idle]
      ensures context == old(context) && notices == old(notices)
    {
      state := Idle;
      transitions := transitions + [Idle];
    }

    method TransitionToSuggestingState(text: string, prefix: string, suffix: string)
      modifies this
      ensures state == Suggesting(text, prefix, suffix)
      ensures transitions == old(transitions) + [Suggesting(text, prefix, suffix)]
      ensures context == old(context) && notices == old(notices)
    {
      state := Suggesting(text, prefix, suffix);
      transitions := transitions + [state];
    }

    method SetContext(context: Context)
      modifies this
      ensures this.context == context
      ensures state == old(state) && notices == old(notices) && transitions == old(transitions)
    {
      this.context := context;
    }

    method ShowNotice()
      modifies this
      ensures notices == old(notices) + 1
      ensures state == old(state) && context == old(context) && transitions == old(transitions)
    {
      notices := notices + 1;
    }
  }

  /** `handleDocumentChange` cancels on any of the four kinds of change. */
  predicate CancelsPrediction(changes: DocumentChanges)
  {
    changes.cursorMoved || changes.userTyped || changes.userDeleted || changes.textAdded
  }

  /**
   * The suggestion a prediction response leads to: `unwrapOr("")` turns an
   * error into the empty text, and neither nothing nor the empty text is
   * suggested.
   */
  function SuggestionOf(result: PredictionResponse): (s: Option<string>)
    ensures s.Some? ==> s.value != ""
  {
    var prediction := if result.Ok? then result.value else Some("");
    if prediction.None? || prediction.value == "" then None else prediction
  }

  /** Only a successful, non-empty response is suggested, and then as it came. */
  lemma SuggestionOfIff(result: PredictionResponse, text: string)
    ensures SuggestionOf(result) == Some(text) <==> result == Ok(Some(text)) && text != ""
  {
  }

  /** The transitions `predict` asks for: an error asks for idle twice. */
  function PredictTransitions(result: PredictionResponse, prefix: string, suffix: string): (t: seq<Lifecycle>)
    ensures 1 <= |t| <= 2
    ensures |t| == 2 <==> result.Err?
    ensures t[|t| - 1].Suggesting? <==> SuggestionOf(result).Some?
    ensures SuggestionOf(result).Some? ==> t[|t| - 1] == Suggesting(SuggestionOf(result).value, prefix, suffix)
    ensures SuggestionOf(result).None? ==> t[|t| - 1] == Idle
    ensures forall k :: 0 <= k < |t| - 1 ==> t[k] == Idle
  {
    (if result.Err? then [Idle] else [])
    + (match SuggestionOf(result) case None => [Idle] case Some(text) => [Suggesting(text, prefix, suffix)])
  }

  class PredictingState {
    const listener: EventListener
    const prefix: string
    const suffix: string
    /** The pending request, once one has been issued; it is never cleared. */
    var prediction: Option<Request>
    /** Every request issued to the prediction service, oldest first. */
    var fetches: seq<Request>
    /** How many times an abort of the pending request has been asked for. */
    var aborts: nat

    constructor (listener: EventListener, prefix: string, suffix: string)
      ensures this.listener == listener && this.prefix == prefix && this.suffix == suffix
      ensures prediction == None && fetches == [] && aborts == 0
    {
      this.listener := listener;
      this.prefix := prefix;
      this.suffix := suffix;
      prediction := None;
      fetches := [];
      aborts := 0;
    }

    /**
     * `createAndStartPredicting`: a new state that has issued its request, and
     * the listener's context set from the prefix and suffix; no transition is
     * asked for.
     */
    static method CreateAndStartPredicting(listener: EventListener, prefix: string, suffix: string,
                                           getContext: (string, string) -> Context)
      returns (s: PredictingState)
      modifies listener
      ensures fresh(s) && s.listener == listener && s.prefix == prefix && s.suffix == suffix
      ensures s.prediction == Some(Request(prefix, suffix)) && s.fetches == [Request(prefix, suffix)] && s.aborts == 0
      ensures listener.context == getContext(prefix, suffix)
      ensures listener.state == old(listener.state) && listener.transitions == old(listener.transitions)
      ensures listener.notices == old(listener.notices)
    {
      s := new PredictingState(listener, prefix, suffix);
      s.StartPredicting();
      listener.SetContext(getContext(prefix, suffix));
    }

    /** `handleCancelKeyPressed`: cancels and reports the key as handled. */
    method HandleCancelKeyPressed() returns (handled: bool)
      modifies this, listener
      ensures handled
      ensures listener.state == Idle && listener.transitions == old(listener.transitions) + [Idle]
      ensures aborts == old(aborts) + (if old(prediction).Some? then 1 else 0)
      ensures prediction == old(prediction) && fetches == old(fetches)
      ensures listener.context == old(listener.context) && listener.notices == old(listener.notices)
    {
      CancelPrediction();
      handled := true;
    }

    /** `handleDocumentChange`: cancels exactly when the document changed in one of the four ways. */
    method HandleDocumentChange(changes: DocumentChanges)
      modifies this, listener
      ensures CancelsPrediction(changes) ==>
        listener.state == Idle && listener.transitions == old(listener.transitions) + [Idle]
        && aborts == old(aborts) + (if old(prediction).Some? then 1 else 0)
      ensures !CancelsPrediction(changes) ==>
        listener.state == old(listener.state) && listener.transitions == old(listener.transitions) && aborts == old(aborts)
      ensures prediction == old(prediction) && fetches == old(fetches)
      ensures listener.context == old(listener.context) && listener.notices == old(listener.notices)
    {
      if changes.cursorMoved || changes.userTyped || changes.userDeleted || changes.textAdded {
        CancelPrediction();
      }
    }

    /**
     * `cancelPrediction`: asks for the pending request to be aborted, if there
     * is one (a failing abort is ignored), and for the idle state in any case.
     */
    method CancelPrediction()
      modifies this, listener
      ensures listener.state == Idle && listener.transitions == old(listener.transitions) + [Idle]
      ensures aborts == old(aborts) + (if old(prediction).Some? then 1 else 0)
      ensures prediction == old(prediction) && fetches == old(fetches)
      ensures listener.context == old(listener.context) && listener.notices == old(listener.notices)
    {
      if prediction.Some? {
        aborts := aborts + 1;
      }
      listener.TransitionToIdleState();
    }

    /** `startPredicting`: cancels a pending request first, then issues a new one for this prefix and suffix. */
    method StartPredicting()
      modifies this, listener
      ensures prediction == Some(Request(prefix, suffix)) && fetches == old(fetches) + [Request(prefix, suffix)]
      ensures old(prediction).Some? ==>
        listener.state == Idle && listener.transitions == old(listener.transitions) + [Idle] && aborts == old(aborts) + 1
      ensures old(prediction).None? ==>
        listener.state == old(listener.state) && listener.transitions == old(listener.transitions) && aborts == old(aborts)
      ensures listener.context == old(listener.context) && listener.notices == old(listener.notices)
    {
      if prediction.Some? {
        CancelPrediction();
      }
      prediction := Some(Request(prefix, suffix));
      fetches := fetches + [Request(prefix, suffix)];
    }

    /**
     * `predict`: an error shows a notice and asks for idle; then the response,
     * with an error read as the empty text, asks for idle when there is no
     * text and for a suggestion of the text otherwise. The suggestion carries
     * the prefix and suffix this state was created with, and nothing checks
     * that this state is still the current one.
     */
    method Predict(result: PredictionResponse)
      modifies listener
      ensures listener.transitions == old(listener.transitions) + PredictTransitions(result, prefix, suffix)
      ensures listener.state == PredictTransitions(result, prefix, suffix)[|PredictTransitions(result, prefix, suffix)| - 1]
      ensures listener.notices == old(listener.notices) + (if result.Err? then 1 else 0)
      ensures listener.context == old(listener.context)
    {
      if result.Err? {
        listener.ShowNotice();
        listener.TransitionToIdleState();
      }
      var prediction := if result.Ok? then result.value else Some("");
      if prediction.None? || prediction.value == "" {
        listener.TransitionToIdleState();
        return;
      }
      listener.TransitionToSuggestingState(prediction.value, prefix, suffix);
    }

    /** `getStatusBarText`: "Predicting for " and the context's name. */
    function GetStatusBarText(name: Context -> string): (r: string)
      reads this, listener
      ensures |r| == 15 + |name(listener.context)|
      ensures r[..15] == "Predicting for " && r[15..] == name(listener.context)
    {
      "Predicting for " + name(listener.context)
    }
  }

  /**
   * A response that arrives after the user cancelled still takes effect: the
   * listener goes idle on the cancel key and then moves on to suggesting the
   * late text.
   */
  method LateResultStillApplies(listener: EventListener, prefix: string, suffix: string, text: string,
                                getContext: (string, string) -> Context)
    returns (s: PredictingState)
    requires text != ""
    modifies listener
    ensures listener.state == Suggesting(text, prefix, suffix)
    ensures listener.transitions == old(listener.transitions) + [Idle, Suggesting(text, prefix, suffix)]
  {
    s := PredictingState.CreateAndStartPredicting(listener, prefix, suffix, getContext);
    var handled := s.HandleCancelKeyPressed();
    s.Predict(Ok(Some(text)));
  }

  /**
   * Starting again while a request is pending cancels it: an abort of the
   * first request is asked for, and the second request is issued. The abort
   * itself runs later, once the first request's promise settles, so it is
   * counted here as asked for, not ordered against the second request.
   */
  method RestartAbortsPending(listener: EventListener, prefix: string, suffix: string,
                              getContext: (string, string) -> Context)
    returns (s: PredictingState)
    modifies listener
    ensures s.aborts == 1 && s.fetches == [Request(prefix, suffix), Request(prefix, suffix)]
    ensures listener.state == Idle && listener.transitions == old(listener.transitions) + [Idle]
  {
    s := PredictingState.CreateAndStartPredicting(listener, prefix, suffix, getContext);
    s.StartPredicting();
  }
}
