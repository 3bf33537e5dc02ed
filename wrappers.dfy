/** Result and option types shared by every service model.

    The C# services signal failure by throwing; the model returns values instead:
    - NotFound          — KeyNotFoundException: the target is missing or belongs to another user
                          (controllers answer 404);
    - InvalidOperation  — InvalidOperationException: a valid target in the wrong state, or a
                          rejected input (controllers answer 400);
    - ConstraintViolation — the database refuses the commit because a unique index or a foreign
                          key would be broken (DbUpdateException, answered 500);
    - Malformed         — input that a parser refuses (JsonException) or that makes the code fault.
 */
module Wrappers {

  datatype Option<+T> = None | Some(value: T) {
    function GetOr(default: T): T {
      match this
      case Some(v) => v
      case None => default
    }
  }

  datatype Error = NotFound | InvalidOperation | ConstraintViolation | Malformed

  datatype Result<+T> = Ok(value: T) | Err(error: Error)

  /** A null or empty text field: `string.IsNullOrEmpty`. */
  predicate NullOrEmpty(s: Option<string>) { s.None? || s.value == "" }

  /** The outcome of an operation that returns nothing on success. */
  datatype Outcome = Pass | Fail(error: Error)
}
