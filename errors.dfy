/** Python exceptions raised by the logging library, and the result of an
    operation that either returns a value or raises one of them. */
module Errors {

  datatype Exception =
    | ValueError(message: string)
    | KeyError(key: string)
    | TypeError(message: string)
    | FileNotFoundError(path: string)
    | XmlParseError(path: string)

  datatype Result<+T> = Ok(value: T) | Err(exception: Exception)

  datatype Option<+T> = None | Some(value: T)
}
