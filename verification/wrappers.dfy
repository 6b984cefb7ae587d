/** Failure-carrying values for the runtime exceptions the tagger and its helpers can throw. */
module Wrappers {

  /** The unchecked Java exceptions the modelled code can raise. */
  datatype Exception =
    | ArrayIndexOutOfBounds   // `toArray()[0]` on an empty set, a short CSV row, a histogram cell past the end
    | StringIndexOutOfBounds  // `substring` past the end of a sentence
    | NullPointer             // a null key or word given to `Multimap.put`

  datatype Result<+T> = Ok(value: T) | Err(error: Exception)

  /** A Java reference that may be null. */
  datatype Option<+T> = None | Some(value: T)
}
