/** Values, errors and failure-compatible wrappers shared by the parser model. */
module Types {

  datatype Option<+T> = None | Some(value: T)

  /** The three exception kinds the parser raises, plus any failure a custom converter reports. */
  datatype Error =
    | UnsupportedType(typeName: string)            // UnsupportedTypeException
    | CastFailure(value: string, target: string)   // CastException from the numeric guard
    | MissingParameter(typeName: string)           // a parameterised built-in used without its parameter
    | ConverterFailure(message: string)            // an exception thrown inside a custom converter

  /** A converted field: the built-ins produce the first four variants, custom converters any of them. */
  datatype Value =
    | Str(s: string)
    | Int(i: int)
    | Float(x: real)
    | List(items: seq<string>)

  datatype Result<+T> = Ok(value: T) | Err(error: Error) {
    predicate IsFailure() { Err? }

    function PropagateFailure<U>(): Result<U>
      requires Err?
    {
      Err(error)
    }

    function Extract(): T
      requires Ok?
    {
      value
    }
  }

  datatype Outcome = Pass | Fail(error: Error)

  /** A user-supplied converter: receives the raw column value and the type's parameter (None when
      the type expression has no `:`), and returns a value or fails. Its internals are opaque. */
  type CustomConverter = (string, Option<string>) -> Result<Value>
}
