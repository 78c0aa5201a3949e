/** Outcomes of operations that may throw std::out_of_range in the C++ library. */
module Wrappers {

  datatype Option<+T> = None | Some(value: T)

  /** Every exception the library raises is a std::out_of_range carrying a message. */
  datatype Error = OutOfRange(message: string)

  datatype Result<+T> = Ok(value: T) | Err(error: Error)

  /** The messages the library passes to std::out_of_range. */
  const LengthMismatch: string := "Argument vectors differ in length."
  const EmptyVector: string := "Argument vector is empty."
  const ClosedRange: string := "Argument range: [0, 170]."
  const HalfOpenRange: string := "Argument range: (0, 170]."
}
