/** The Python exceptions the modelled code can raise, and a result type that
    carries either a value or the exception that ended the computation. */
module Failures {

  datatype Exception =
    | IndexError                   // a list or string index past its end
    | KeyError(key: string)        // a dictionary lookup of a missing key
    | AttributeError(line: string) // `.groups()` called on the None of a failed `re.match`
    | NameError(name: string)      // a name that is defined nowhere

  datatype Result<+T> = Ok(value: T) | Err(error: Exception)

  /** Python's `None`-or-value, as `re.match` returns it. */
  datatype Option<+T> = None | Some(value: T)
}
