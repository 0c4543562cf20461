/** Small failure-carrying datatypes shared by the model. */
module Wrappers {

  datatype Option<+T> = None | Some(value: T)

  /** The outcome of one remote call: either the call failed (connect failure,
      non-200 status, unreadable body or undecodable JSON, all carried as the
      cause's text) or it produced an already-decoded value. */
  datatype Reply<+T> = Failed(cause: string) | Received(value: T)
}
