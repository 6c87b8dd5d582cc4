/** Identifiers, request arguments, JavaScript truthiness and handler outcomes,
    shared by every service of the model. */
module Common {

  /** Document identifiers.  The store's ObjectIds are opaque values compared
      for equality only. */
  type ProductId = nat
  type UserId = nat
  type CategoryId = nat
  type CouponId = nat
  type ReviewId = nat

  /** An optional value; `None` stands for an absent request field (JavaScript
      `undefined`) or for a stored `null`. */
  datatype Option<+T> = None | Some(value: T)

  /** A request field whose `null` must be told apart from `undefined`,
      because the handler tests `x !== undefined` on it. */
  datatype Arg<+T> = Undefined | Null | Val(value: T)

  /** The authenticated principal the identity collaborator attaches to a request. */
  datatype Principal = Principal(id: UserId, role: string)

  /** The status vocabulary of the handlers: 200, 201, 400, 403, 404 and 500,
      with the message of the JSON body where the handler sets one. */
  datatype Outcome =
    | Ok
    | Created
    | NotFound(message: string)
    | BadRequest(message: string)
    | Forbidden(message: string)
    | ServerError

  /** `x || current` for a string field: the empty string is falsy. */
  function OrString(x: Option<string>, current: string): string
  {
    if x.Some? && x.value != "" then x.value else current
  }

  /** `x || current` for a number field: zero is falsy. */
  function OrNumber(x: Option<real>, current: real): real
  {
    if x.Some? && x.value != 0.0 then x.value else current
  }

  /** `x || current` for an array field: every array, even an empty one, is truthy. */
  function OrList<T>(x: Option<seq<T>>, current: seq<T>): seq<T>
  {
    if x.Some? then x.value else current
  }

  /** `x !== undefined ? x : current`. */
  function IfDefined<T>(x: Option<T>, current: T): T
  {
    if x.Some? then x.value else current
  }
}
