/** Results shared by every module of the model. */
module Wrappers {

  datatype Option<+T> = None | Some(value: T)

  /** The exception classes that the modelled code raises. */
  datatype Error =
    | ValueError
    | KeyError
    | IntegrityError
    | ProjectionConflict
    | BlockGap
    | RpcError
    | AbiDecodeError
    | PersistenceConflict
    | TransactionConflict
    | InvalidTransition

  /** How one call ends: it returns a value, or it raises. */
  datatype Outcome<+T> = Returned(value: T) | Raised(error: Error)

  /** Some member of a non-empty set. */
  ghost function PickOne<T>(s: set<T>): (x: T)
    requires s != {}
    ensures x in s
  {
    var x :| x in s; x
  }
}
