/** Failure-carrying results and Go's machine integers, shared by every module. */
module Results {

  /** Go's `int` on a 64-bit platform. */
  type Int64 = n: int | -0x8000_0000_0000_0000 <= n < 0x8000_0000_0000_0000

  /** A value that may be absent (Go's nil pointer, a missing map key). */
  datatype Option<+T> = None | Some(value: T)

  /** Go's `(value, error)` pair: exactly one of the two is meaningful. */
  datatype Result<+T, +E> = Ok(value: T) | Err(error: E) {
    predicate IsFailure() {
      Err?
    }

    function PropagateFailure<U>(): Result<U, E>
      requires Err?
    {
      Err(error)
    }

    function Extract(): T
      requires Ok?
    {
      value
    }
  }
}

/**
 * Failures of the collaborators the model does not implement (the document
 * store, the key-value cache, bcrypt and the JWT signer). A call receives the
 * set of collaborator calls that fail during it; an empty set is the run in
 * which every collaborator answers normally.
 */
module Faults {

  datatype Fault =
    | CountFails        // collection.CountDocuments returns an error
    | FindFails         // collection.FindOne returns an error other than "no documents"
    | InsertFails       // collection.InsertOne returns an error
    | UpdateFails       // collection.UpdateOne returns an error
    | DeleteFails       // collection.DeleteOne returns an error
    | HashFails         // bcrypt.GenerateFromPassword returns an error
    | SignAccessFails   // signing the access token returns an error
    | SignRefreshFails  // signing the refresh token returns an error
    | CacheGetFails     // the cache GET returns a backend error (not a miss)
    | CacheSetFails     // the cache SET returns a backend error
}
