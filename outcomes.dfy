/** Optional values, the typed errors the procedures raise, and procedure results. */
module Outcomes {

  datatype Option<T> = None | Some(value: T)

  /** The error codes a procedure can end with. `InternalError` stands for a plain `Error`
      thrown by application code or a failure reported by the store (a foreign key that names
      no record, a unique constraint, a negative `skip`): the RPC layer reports both as
      INTERNAL_SERVER_ERROR. Input that does not satisfy a procedure's schema is BadRequest. */
  datatype ErrorCode = NotFound | Conflict | BadRequest | Unauthorized | Forbidden | InternalError

  datatype Result<T> = Ok(value: T) | Err(code: ErrorCode)

  /** A check that either passes or fails with an error code. */
  datatype Outcome = Pass | Fail(code: ErrorCode)

  /** A field of a partial update: left as it is, or set to a new value. */
  datatype Patch<T> = Keep | Set(value: T) {
    function Apply(old_: T): T {
      if Set? then value else old_
    }
  }

  /** JavaScript truthiness of an optional string: absent and "" are both falsy. */
  predicate Truthy(s: Option<string>) {
    s.Some? && s.value != ""
  }
}
