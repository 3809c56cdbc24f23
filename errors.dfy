/** Values that reach a `catch` block, with just the properties the
    application looks at. */
module Errors {
  import opened Text

  /** One property of a thrown object: missing, present with the JavaScript
      type the code expects, or present with another type. `asNumber` is
      what a relational comparison such as `>=` converts that other value
      to (the string "503" becomes 503); it is None when the conversion
      gives NaN. */
  datatype Field<+T> = Absent | Has(value: T) | Mistyped(asNumber: Option<int>)

  datatype ErrorValue =
    | Undefined
      // null, a string, a number, a function: anything `typeof` does not call "object"
    | Primitive
      // an object; `message` is Some(m) exactly when it is an `Error` instance with message m
    | Obj(message: Option<string>, statusCode: Field<int>, status: Field<int>,
          code: Field<string>, reason: Field<string>)

  /** `new Error(m)`. */
  function NewError(m: string): ErrorValue {
    Obj(Some(m), Absent, Absent, Absent, Absent)
  }

  /** `e instanceof Error ? e.message : fallback`. */
  function MessageOr(e: ErrorValue, fallback: string): string
  {
    if e.Obj? && e.message.Some? then e.message.value else fallback
  }
}
