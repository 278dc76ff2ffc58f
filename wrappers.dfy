/** Failure-compatible result types shared by the model, and the Python
    exceptions the modelled code can raise. */
module Wrappers {

  datatype Option<T> = None | Some(value: T)

  /** The exceptions the modelled code raises on its error paths. */
  datatype PyError =
    | IndexError        // indexing past the end of a list or string
    | ValueError        // tuple unpacking with the wrong number of values
    | AttributeError    // a Whoosh writer that was never created
    | IndexationError   // the Elasticsearch indices refusing an entry
    | NoTitle           // a verb file whose forms carry no title

  datatype Result<T> = Ok(value: T) | Err(error: PyError)

  datatype Outcome = Pass | Fail(error: PyError)
}
