/** Failure-compatible wrappers shared by every part of the model, and the
    kinds of fault the modelled programs raise. */
module Outcomes {

  datatype Option<+T> = None | Some(value: T)

  /** Every way a modelled run can stop abnormally. The Python sources raise
      an exception in each case; the model returns the fault instead. */
  datatype Fault =
    | StackUnderflow         // IndexError: pop or index on a list that is too short
    | MissingInstruction     // IndexError: reading an instruction past the end of the program
    | UnknownCondition       // "Unknown condition opcode"
    | UnknownOpcode          // "Unknown opcode"
    | ReturnOutsideFunction  // "Return outside of function"
    | FunctionNotFound(name: string)
    | DivisionByZero         // ZeroDivisionError of Python `/`
    | FloatQuotient          // Python `/` produced a float, which the integer model does not follow
    | OutOfFuel              // the model's bound on nested runs and loop iterations was reached
    | MissingToken           // IndexError: `call` or `function` at the end of the token list
    | BadInteger(token: string)   // ValueError of `int(...)` on a `function` arity
    | UnknownToken(token: string) // "Unknown token"
    | OutOfBounds            // native code: stack array accessed outside its 1024 cells
    | DivisionOverflow       // native code: signed division of the least i32 by -1
    | MalformedModule        // native code: a call that names no function of the module, or a
                             // function body or `main` that runs off its end without a return
    | DuplicateName(name: string) // a second global of the same name in the generated module

  datatype Result<+T> = Ok(value: T) | Err(fault: Fault) {

    predicate IsFailure() {
      Err?
    }

    function PropagateFailure<U>(): Result<U>
      requires Err?
    {
      Err(fault)
    }

    function Extract(): T
      requires Ok?
    {
      value
    }
  }
}
