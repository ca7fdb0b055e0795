/** Small value wrappers shared by the whole model. */
module Common {

  /** A JavaScript value that is either present or `undefined`/`null`. */
  datatype Option<+T> = None | Some(value: T)

  /** The result of calling code the model cannot see (a library or the
      database): either it returned a value, or it threw an exception. */
  datatype Call<+T> = Returned(value: T) | Threw
}
