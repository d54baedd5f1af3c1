/** Small datatypes and functions shared by the models. */
module Basics {
  datatype Option<+T> = None | Some(value: T)

  datatype Result<+T> = Ok(value: T) | Err

  function Elements<T(==)>(s: seq<T>): set<T> {
    set x | x in s
  }

  function Min(x: real, y: real): real {
    if x <= y then x else y
  }
}
