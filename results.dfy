/** Option and Result types, and the errors the struct can raise. */
module Results {

  datatype Option<+T> = None | Some(value: T)

  /** The failures a struct access or a learning call can end in. */
  datatype Error =
    | UnknownMember(name: string)   // NoMethodError from `super` in method_missing
    | NotConvertible                // `to_h` / `map` on a value that has no such conversion
    | InvalidRootUsage              // ArgumentError: examples are for learning structs

  datatype Result<+T> = Ok(value: T) | Err(error: Error)
}
