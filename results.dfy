/** The ways a conversion can fail, and the result types that carry them. */
module Results {

  /** What `markup` can raise. */
  datatype Error =
    | IndexOutOfRange(index: nat)   // `{k}` names a blob that was never preserved (IndexError)
    | SingleBrace                   // a `}` not followed by another `}` (ValueError)
    | UnsupportedField              // a `{` that opens anything but `{digits}` or `{{`
    | EmptyCode                     // a code area whose stripped text has no line (max() of an empty list)
    | CannotInline(src: string)     // an inlined resource whose suffix is neither an image nor source code
    | FileNotFound(path: string)    // an inlined source file that cannot be opened

  datatype Result<+T> = Ok(value: T) | Err(error: Error)

  datatype Option<+T> = None | Some(value: T)
}
