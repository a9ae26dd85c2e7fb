/** The engine's failure modes. dice.ts throws plain `Error`s for dimension
    mismatches; the BigInt runtime throws for a division by zero and for an
    arithmetic operand that is `undefined`. */
module Errors {

  datatype Error =
    | DimensionMismatch   // a term, value vector or die of the wrong width
    | DivisionByZero      // BigInt division by 0n
    | UndefinedOperand    // BigInt arithmetic on an index past the end of an array

  datatype Result<T> = Ok(value: T) | Err(error: Error)

  datatype Outcome = Pass | Fail(error: Error)
}
