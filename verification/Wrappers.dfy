/** Result shapes shared by the component models. */
module Wrappers {
  datatype Option<+T> = None | Some(value: T)

  datatype Result<+T, +E> = Ok(value: T) | Err(error: E)

  /** How a call that has an effect ends: it works, or it reports an error, before or after its effect. */
  datatype Ending = Works | FailsFirst | FailsLate {
    /** The call took effect. */
    predicate Happened() {
      !FailsFirst?
    }
  }
}
