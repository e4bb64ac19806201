/** Small result types shared by the model. */
module Wrappers {

  datatype Option<+T> = None | Some(value: T)

  /** The outcome of a call into an agent (or any code the model does not see):
      it either returns a value or raises an exception whose text is `error`. */
  datatype Reply<+T> = Returned(value: T) | Raised(error: string)
}
