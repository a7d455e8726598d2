/** Failure-carrying values used across the model. */
module Wrappers {

  datatype Option<+T> = None | Some(value: T)

  /** The exceptions the modelled Java code can raise on its own inputs. */
  datatype Fault =
    /** `getDocumentLine` returned null (no further newline-terminated line)
        and the caller dereferenced it. */
    | NullPointer
    /** A `TextRange` whose start offset is negative. */
    | BadRange

  datatype Result<+T> = Ok(value: T) | Err(fault: Fault)

  /** Outcome of an operation that returns nothing in the source. */
  datatype Outcome = Done | Failed(fault: Fault)
}
