/** Optional values and error results shared by the three exercises.
    A C# `null` becomes `None`; a thrown exception becomes `Err`. */
module Wrappers {

  datatype Option<+T> = None | Some(value: T)

  datatype Result<+T, +E> = Ok(value: T) | Err(error: E)
}
