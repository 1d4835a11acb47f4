/** Option and Result values for the places where the JavaScript returns null or throws. */
module Wrappers {

  datatype Option<T> = None | Some(value: T)

  /** `Err` stands for a rejected promise or a thrown exception; its payload is not modelled. */
  datatype Result<T> = Ok(value: T) | Err
}
