/**
 * Outcomes of the service operations.
 *
 * Every service method runs in one transaction: it either commits a new store
 * or throws, in which case nothing it wrote survives. A `Result<Store>` models
 * exactly that: an `Err` carries no store, so the caller keeps the old one.
 */
module Results {

  /** A Java reference that may be null. */
  datatype Option<+T> = None | Some(value: T) {

    /** The value, or `default` when null (the `x != null ? x : default` idiom). */
    function GetOr(default: T): T {
      match this
      case Some(v) => v
      case None => default
    }
  }

  /** The kinds of failure the services raise. */
  datatype Error =
    | NotFound            // a referenced id does not exist
    | Conflict            // a uniqueness rule checked by the service
    | Validation          // a cross-entity rule (student not in class, unknown mentor type)
    | ConstraintViolation // rejected by a database constraint (NOT NULL, UNIQUE, foreign key)

  datatype Result<+T> = Ok(value: T) | Err(error: Error)
}
