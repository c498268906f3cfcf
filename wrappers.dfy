/** Failure-carrying values shared by every module of the model.
    The simulator is written in Python and reports failures by raising;
    the model returns the class of the exception instead. */
module Wrappers {

  /** The Python exception classes the simulator raises (or lets escape). */
  datatype Error =
    | TypeError        // wrong operand type, unknown keyword to Simulator(...)
    | ValueError       // value out of range, bad width, negative shift count, bad int literal
    | KeyError         // missing dict key: unknown register name, unmapped memory address
    | IndexError       // list index out of range: register number, missing token
    | NameError        // reference to an undefined global name
    | AttributeError   // reference to a class attribute that does not exist
    | AssertionError   // a failed `assert`
    | Warning          // an explicit `raise Warning(...)`

  datatype Option<+T> = None | Some(value: T)

  datatype Result<+T> = Ok(value: T) | Err(error: Error)
  {
    predicate IsFailure() {
      Err?
    }

    function PropagateFailure<U>(): Result<U>
      requires Err?
    {
      Err(error)
    }

    function Extract(): T
      requires Ok?
    {
      value
    }
  }
}
