/** Values shared by every controller: optional values, results, and the
    JavaScript truthiness tests the controllers apply to request fields. */
module Common {

  datatype Option<+T> = None | Some(value: T)

  datatype Result<+T, +E> = Ok(value: T) | Err(error: E)

  /** A numeric request field (an id, a threshold) is truthy in JavaScript when it is
      present, not null and not 0.  `None` stands for an absent or null field. */
  predicate Truthy(x: Option<int>)
  {
    x.Some? && x.value != 0
  }

  /** `x || null`: a falsy field is stored as SQL NULL. */
  function OrNull(x: Option<int>): (r: Option<int>)
    ensures r.Some? <==> Truthy(x)
    ensures r.Some? ==> r == x
  {
    if Truthy(x) then x else None
  }

  /** A text request field is truthy when it is present and not empty; the model
      writes an absent text field as the empty string. */
  predicate Given(s: string)
  {
    |s| > 0
  }
}
