/** Option and Result values, and the errors the converter can end with. */
module Wrappers {

  datatype Option<+T> = None | Some(value: T) {
    function GetOr(default: T): T {
      match this
      case Some(v) => v
      case None => default
    }
  }

  datatype Result<+R> = Ok(value: R) | Err(error: Error) {
    predicate IsFailure() { Err? }

    function PropagateFailure<U>(): Result<U>
      requires Err?
    {
      Err(error)
    }

    function Extract(): R
      requires Ok?
    {
      value
    }
  }

  /** Errors raised by Python itself rather than by the converter's own exception classes. */
  datatype PyErrorKind = KeyError | ValueError | TypeError | IndexError | AttributeError | ZeroDivisionError

  /** The ways a conversion can fail. */
  datatype Error =
    | MeiValueError(attrName: string, attrValue: Option<string>)  // 'Unexpected value for "name" attribute: value'
    | MeiValidityError(message: string)
    | MeiAttributeError(message: string)
    | RuntimeError(message: string)
    | PyError(kind: PyErrorKind)
}
