/**
  The ORM's row constructor. A mapped model is built from keyword arguments,
  one per attribute; a keyword that names no attribute of the model raises an
  error that no handler catches, so the request is answered with 500.
 */
module Orm {
  import opened Outcomes

  /** Building a row of a model with attributes `columns` from the keywords `keys`. */
  function Construct(columns: set<string>, keys: set<string>): (r: Check)
    ensures r.Ok? <==> keys <= columns
    ensures r.Err? ==> r.status == Internal
    ensures forall k :: k in keys && k !in columns ==> r == Err(Internal)
  {
    Require(keys <= columns, Internal)
  }
}
