/** Option, the Java exceptions the model distinguishes, and Result/Outcome over them. */
module Wrappers {

  datatype Option<+T> = None | Some(value: T)

  /** The exceptions (and non-terminations) of the modelled Java code that callers can observe. */
  datatype Error =
    | NullPointer                                  // NullPointerException
    | IndexOutOfBounds                             // ArrayIndexOutOfBounds / StringIndexOutOfBounds
    | NumberFormat(input: string)                  // NumberFormatException from Integer.parseInt
    | Arithmetic                                   // ArithmeticException: / by zero
    | NegativeArraySize                            // NegativeArraySizeException
    | IllegalArgument(message: string)             // IllegalArgumentException
    | UnsupportedCharset(charsetName: string)      // Charset.forName rejects the name
    | UnsupportedOperation                         // put into an immutable map
    | Evaluation(message: string)                  // RuntimeException raised by the expression evaluator
    | InvalidConfiguration(path: string, key: string, message: string)
    | Runtime(message: string)                     // new RuntimeException(message, cause)
    | Wrapped(cause: Error)                        // new RuntimeException(cause)
    | StackOverflow                                // StackOverflowError: recursion without end
    | NonTermination                               // a loop or a self-call that never ends
    | UncheckedIO                                  // UncheckedIOException around an IOException

  datatype Result<+T> = Ok(value: T) | Err(error: Error) {
    predicate IsFailure() { Err? }
    function PropagateFailure<U>(): Result<U>
      requires Err?
    {
      Err(error)
    }
    function Extract(): T
      requires Ok?
    {
      value
    }
  }

  datatype Outcome = Pass | Fail(error: Error) {
    predicate IsFailure() { Fail? }
    function PropagateFailure(): Outcome
      requires Fail?
    {
      this
    }
  }
}
