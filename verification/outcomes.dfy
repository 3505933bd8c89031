/**
  Results of the core's checks and operations.

  Every check either passes or answers with one HTTP error status. The error
  taxonomy is small: 400 for business-rule and uniqueness conflicts, 403 for
  denied access, 404 for a missing or out-of-tenant resource, 422 for a request
  body the schema layer rejects, and 500 for a failure nobody translates into
  a user-facing error.
 */
module Outcomes {

  datatype Status = BadRequest | Forbidden | NotFound | Unprocessable | Internal

  /** The numeric HTTP status code of each error. */
  function Code(s: Status): (code: int)
    ensures 400 <= code < 600
    ensures s == Internal <==> code >= 500
  {
    match s
    case BadRequest => 400
    case Forbidden => 403
    case NotFound => 404
    case Unprocessable => 422
    case Internal => 500
  }

  datatype Option<+T> = None | Some(value: T)

  /** Python truthiness of an optional integer id: `None` and `0` are falsy. */
  predicate Truthy(o: Option<int>) {
    o.Some? && o.value != 0
  }

  /** A failure-compatible result, usable with `:-`. */
  datatype Result<+T> = Ok(value: T) | Err(status: Status) {
    predicate IsFailure() {
      Err?
    }

    function PropagateFailure<U>(): Result<U>
      requires Err?
    {
      Err(status)
    }

    function Extract(): T
      requires Ok?
    {
      value
    }
  }

  /** A check that carries no value: it passes or fails with a status. */
  type Check = Result<()>

  const Pass: Check := Ok(())

  /** Passes exactly when `cond` holds, otherwise fails with `status`. */
  function Require(cond: bool, status: Status): (r: Check)
    ensures r.Ok? <==> cond
    ensures r.Err? ==> r.status == status
  {
    if cond then Pass else Err(status)
  }

  /** The check part of a result, its value dropped. */
  function Ignore<T>(r: Result<T>): (c: Check)
    ensures c.Ok? <==> r.Ok?
    ensures c.Err? ==> c.status == r.status
  {
    match r
    case Ok(_) => Pass
    case Err(s) => Err(s)
  }

  /**
    A field of a partial-update request body. Pydantic distinguishes a field
    the client left out (`Unset`) from one it sent as JSON null (`Null`).
   */
  datatype Field<+T> = Unset | Null | Given(value: T)

  /** A non-nullable column after a partial update: only a supplied value replaces it. */
  function Patch<T>(f: Field<T>, current: T): T {
    if f.Given? then f.value else current
  }

  /** A nullable column after a partial update: a supplied null clears it. */
  function PatchOption<T>(f: Field<T>, current: Option<T>): Option<T> {
    match f
    case Unset => current
    case Null => None
    case Given(v) => Some(v)
  }
}
