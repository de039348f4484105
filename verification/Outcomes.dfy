/** The value a Java method returns, or the unchecked exception it throws. */
module Outcomes {
  datatype Outcome<+T> = Ok(value: T) | IllegalArgument | IndexOutOfBounds
}
