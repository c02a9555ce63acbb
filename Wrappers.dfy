/** Option and Result, used where the Java code returns null or throws. */
module Wrappers {

  datatype Option<+T> = None | Some(value: T)

  /**
   * The exceptions the modelled code raises, by Java class name. A
   * `Runtime("")` is a RuntimeException built without a message.
   */
  datatype JavaError =
    | NoSuchElement
    | IndexOutOfBounds
    | IllegalArgument(message: string)
    | IllegalState(message: string)
    | IO(className: string, message: string)
    | Runtime(message: string)
    | NullPointer

  /** The class names of the IOExceptions the modelled code raises. */
  const IO_EXCEPTION := "java.io.IOException"
  const NO_SUCH_FILE := "java.nio.file.NoSuchFileException"

  /** `Throwable.toString()`: the exception's class name, then ": " and its message when it has one. */
  function ExceptionText(e: JavaError): (text: string)
    ensures e.IO? ==> text == e.className + ": " + e.message
    ensures e == Runtime("") ==> text == "java.lang.RuntimeException"
  {
    match e
    case NoSuchElement => "java.util.NoSuchElementException"
    case IndexOutOfBounds => "java.lang.IndexOutOfBoundsException"
    case IllegalArgument(m) => "java.lang.IllegalArgumentException: " + m
    case IllegalState(m) => "java.lang.IllegalStateException: " + m
    case IO(c, m) => c + ": " + m
    case Runtime(m) => if m == "" then "java.lang.RuntimeException" else "java.lang.RuntimeException: " + m
    case NullPointer => "java.lang.NullPointerException"
  }

  /** `new RuntimeException(cause)`, whose message is `cause.toString()`. */
  function Wrap(cause: JavaError): JavaError {
    Runtime(ExceptionText(cause))
  }

  datatype Result<+T> = Ok(value: T) | Err(error: JavaError)
}
