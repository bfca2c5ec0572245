/**
 The failures the recogniser's core can raise, and a failure-compatible
 result type so that the exceptions the Python recogniser raises become values here.
 */
module Results {

  /** One constructor per exception the Python recogniser stops with. */
  datatype Error =
    | TooFewFields(line: string)       // `assert len(line_split) >= 9` in the manifest parser
    | MissingIdSegment(id: string)     // an id without '-' makes `file_name_split[1]` raise
    | UnknownChar(c: char)             // `charList.index(c)` raises for a character not in the alphabet
    | IndexOutOfRange                  // any other list subscript outside the list
    | DivisionByZero                   // `x / 0` on Python numbers
    | NoSavedModel                     // restore requested but no checkpoint exists

  datatype Result<+T> = Ok(value: T) | Err(error: Error) {

    predicate IsFailure() {
      Err?
    }

    function PropagateFailure<U>(): Result<U>
      requires Err?
    {
      Err(error)
    }

    function Extract(): T
      requires Ok?
    {
      value
    }
  }

  datatype Option<+T> = None | Some(value: T)
}
