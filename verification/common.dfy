/** Identifiers, optional values and the failure kinds shared by every service. */
module Common {

  /** Database identifiers. The repository generates UUIDs; the model only needs them distinct. */
  type Id = nat

  /** A wall-clock instant, treated as an opaque value supplied by the caller. */
  type Timestamp = int

  /** A nullable column or parameter. */
  datatype Option<+T> = None | Some(value: T) {
    function GetOr(default: T): T {
      match this
      case Some(v) => v
      case None => default
    }
  }

  /** The exceptions the services throw, grouped by meaning:
      NotFound is the `RuntimeException("... not found with id ...")` raised by every lookup;
      InvalidArgument is `IllegalArgumentException`, and also the constraint violation raised
      when a template with a negative break (`@PositiveOrZero`) is saved; Conflict and
      InvalidState are the two uses of `IllegalStateException` (a uniqueness or overlap clash,
      and a status that does not permit the transition). */
  datatype Error = NotFound | InvalidArgument | Conflict | InvalidState

  /** The outcome of a service call: a value, or the exception it throws. */
  datatype Result<+T> = Ok(value: T) | Err(error: Error)

  /** `m'` is `m` with the record under `k` written as `v` (added or replaced), every other
      record as before: what one `save` does to a table. */
  predicate Replaces<K, V(==)>(m: map<K, V>, m': map<K, V>, k: K, v: V) {
    && m'.Keys == m.Keys + {k}
    && m'[k] == v
    && forall o :: o in m && o != k ==> m'[o] == m[o]
  }
}
