/**
 The failures the interpreter can report, and a failure-compatible `Result`
 so that the build and resolve phases can use `:-`.
 */
module Results {

  import opened Values

  /** Why a resolution failed at run time (Java exceptions thrown inside a resolve closure). */
  datatype Failure =
    | ClassCast          // a `(Boolean)`, `(Long)`, `(Double)` or `clazz.cast` on a value of another class
    | NullUnboxing       // a null `Boolean`, `Long` or `Double` unboxed to a primitive
    | UnboundVariable    // the resolution context has no binding for a variable

  datatype Error =
    | InvalidType(expected: Type, actual: Type)       // a type error raised while building
    | NotANumber(actual: Type)                        // an arithmetic operand that is not numeric
    | NotADataset                                     // a node that had to build to a dataset expression
    | UnsupportedOperator(op: string)                 // an operator tag the visitor has no case for
    | UndefinedVariable(name: string)                 // a variable absent from the build-time context
    | KeySetsDiffer                                   // type and role maps with different key sets
    | UnknownColumn(name: string)                     // a column name the structure does not hold
    | IndexOutOfBounds(index: int)                    // a cell index outside the row
    | MissingRole(name: string)                       // a computed column with no role
    | Incompatible(position: nat, operand: string)    // a union operand whose structure differs
    | ResolutionFailed(why: Failure)                  // any failure while resolving
    | OutsideModel(builder: string)                   // a builder whose code is not part of this model

  datatype Result<+T> = Ok(value: T) | Err(error: Error) {

    predicate IsFailure() {
      Err?
    }

    function PropagateFailure<U>(): Result<U>
      requires Err?
    {
      Err(error)
    }

    function Extract(): T
      requires Ok?
    {
      value
    }
  }

  datatype Option<+T> = None | Some(value: T)
}
