/** Optional values and the failures the statistics routines report. */
module Results {

  datatype Option<+T> = None | Some(value: T)

  /** The two input errors: a sensor's `times` and `charges` differ in length,
      or a batch call's outer lists differ in length. The batch error's
      message names no lengths; the model carries them anyway, so that a
      contract can say which lists disagreed. */
  datatype Error =
    | LengthMismatch(timesLength: nat, chargesLength: nat)
    | ListLengthMismatch(timesLists: nat, chargesLists: nat)

  datatype Result<+T> = Ok(value: T) | Err(error: Error)
}
