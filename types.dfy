/**
 * The shared shapes of the prediction services: the cursor-split text that
 * pre-processors exchange, the classification of the cursor position, and the
 * `Result` a prediction resolves to.
 */
module Types {

  datatype Option<+T> = None | Some(value: T)

  /** The `neverthrow` result: a value or an error. */
  datatype Result<+T, +E> = Ok(value: T) | Err(error: E)

  /** Where the cursor sits, as the context detector classifies it. */
  datatype Context =
    | Text
    | Heading
    | BlockQuotes
    | UnorderedList
    | NumberedList
    | TaskList
    | CodeBlock
    | MathBlock
    | MathBlockOpen

  /** The document around the cursor: everything before it and everything after it. */
  datatype PrefixAndSuffix = PrefixAndSuffix(prefix: string, suffix: string)

  /** A JavaScript `Error`: its `name` (such as `"AbortError"`) and its message. */
  datatype Error = Error(name: string, message: string)

  /**
   * What a prediction resolves to: a completion, `None` when there is nothing
   * to suggest (the cursor was removed or the request was aborted), or an error.
   */
  type PredictionResponse = Result<Option<string>, Error>
}
