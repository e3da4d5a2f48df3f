/** Shared result types: an optional value, a request field that may be absent
    or fail to convert, and the reply of an HTTP handler. */
module Wrappers {

  datatype Option<T> = None | Some(value: T)

  /** A request field before conversion: absent from the JSON body, present but
      rejected by the conversion (`int(...)`, `strptime`), or converted. */
  datatype Field<T> = Absent | Malformed | Given(value: T)

  /** What a handler returns: a success status with its body, or an error status
      with the error message the handler puts in its JSON reply. */
  datatype Reply<T> = Ok(status: int, body: T) | Fail(status: int, message: string)

  /** Flask's `if not x` on an optional string argument: absent or empty. */
  predicate Blank(s: Option<string>)
  {
    s.None? || s.value == ""
  }
}
