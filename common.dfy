/** Shared result types and the error conditions the services can end with. */
module Common {

  datatype Option<+T> = None | Some(value: T)

  /** Why a store statement, a token exchange or a sync ended without result. */
  datatype Error =
    | NullKey             // INSERT with a NULL primary key
    | DuplicateKey        // primary-key conflict (already stored or repeated in the batch)
    | ForeignKeyViolation // a join row pointing at a parent row that is not stored
    | MissingAccessToken  // auth response without "access_token" (KeyError)
    | MissingExpiresIn    // auth response without "expires_in" (KeyError)
    | FuelExhausted       // the pagination walk did not end within its fetch bound
    | NullLength          // `float(None)`: the playlist's summed duration is NULL (TypeError)

  /** Outcome of a statement that returns nothing: committed, or failed with no change. */
  datatype Outcome = Pass | Fail(error: Error)

  datatype Result<+T> = Ok(value: T) | Err(error: Error)

  /** The errors a plain INSERT can end with: a key conflict or a dangling reference. */
  predicate IntegrityError(e: Error) {
    e == DuplicateKey || e == ForeignKeyViolation
  }
}
