/** The result of a call into an external service that may raise. */
module Optional {

  /** `None` stands for "the call raised an exception"; `Some(v)` for a returned value. */
  datatype Option<+T> = None | Some(value: T)
}
