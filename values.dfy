/** JSON values as the request handlers see them, JavaScript truthiness over
    them, and the HTTP status codes the handlers answer with. */
module Values {

  /** A field of a decoded JSON body: absent (undefined or null) or present. */
  datatype Option<T> = None | Some(value: T)

  /** `!s` for a string field: undefined, null and "" are falsy. */
  predicate FalsyString(s: Option<string>)
    ensures FalsyString(s) <==> s in {None, Some("")}
    ensures !FalsyString(s) ==> |s.value| >= 1
  {
    s.None? || s.value == ""
  }

  /** `!n` for a number field: undefined, null and 0 are falsy. */
  predicate FalsyNumber(n: Option<int>)
    ensures FalsyNumber(n) <==> n in {None, Some(0)}
  {
    n.None? || n.value == 0
  }

  const StatusOk: nat := 200
  const StatusCreated: nat := 201
  const StatusNoContent: nat := 204
  const StatusBadRequest: nat := 400
}
