/** PHP runtime notions the toggle engine leans on: the values a strategy
    can return, PHP truthiness, `empty()` on strings, and the exceptions the
    library raises, carried in a failure-compatible Result. */
module Php {

  /** The PHP values a behavior can produce or receive as an argument.
      Arrays are kept as plain lists: no code of the engine looks inside them. */
  datatype Value =
    | Null
    | Bool(b: bool)
    | Int(i: int)
    | Str(s: string)
    | List(items: seq<Value>)

  /** PHP's boolean conversion (`$x ?: $y`, `if ($x)`). */
  predicate Truthy(v: Value)
  {
    match v
    case Null => false
    case Bool(b) => b
    case Int(i) => i != 0
    case Str(s) => s != "" && s != "0"
    case List(items) => |items| > 0
  }

  /** `empty($s)` for a string: true for "" and for "0". */
  predicate EmptyString(s: string)
  {
    s == "" || s == "0"
  }

  /** The exceptions and engine errors the modelled code can raise.
      EngineError is PHP's base `Error` (an undefined constant, a method
      called on null). */
  datatype Error =
    | LogicError(message: string)
    | ArithmeticError(message: string)
    | TypeError(message: string)
    | EngineError(message: string)

  const ShiftByNegative := "Bit shift by negative number"

  datatype Option<+T> = None | Some(value: T)

  /** Either a value or the error that aborted the operation. */
  datatype Result<+T> = Ok(value: T) | Err(error: Error) {
    predicate IsFailure() { Err? }

    function PropagateFailure<U>(): Result<U>
      requires Err?
    {
      Err(error)
    }

    function Extract(): T
      requires Ok?
    {
      value
    }
  }
}
