/**
 * The error values of the storage client that the modelled code can return.
 * Conversions performed by `?` in the source are folded into these variants.
 */
module Errors {

  /** Failures of the XML path helpers (`traverse`, `cast_must`, `cast_optional`). */
  datatype TraversingError =
    | PathNotFound(item: string)
    | MultipleNode(item: string)
    | TextNotFound
    | ParsingError(text: string)

  datatype AzureError =
    | MissingHeaderError(header: string)
    /** `HeaderValue::to_str` met a byte that is not visible ASCII. */
    | HeaderToStrError
    /** The RFC 2822 date parser refused the text. */
    | DateTimeParseError(text: string)
    /** An enumeration's or `bool`'s `from_str` refused the text. */
    | ParseError(text: string)
    | Traversing(cause: TraversingError)
    | UnexpectedXMLError(message: string)

  /** `Result<T, AzureError>`, usable with `:-` the way `?` is used in the source. */
  datatype Result<+T> = Ok(value: T) | Err(error: AzureError) {

    predicate IsFailure() {
      Err?
    }

    function PropagateFailure<U>(): Result<U>
      requires Err?
    {
      Err(error)
    }

    function Extract(): T
      requires Ok?
    {
      value
    }
  }
}
