/** Small value types shared by the collaborators: an optional value, a
    result, and the crate's closed error taxonomy. */
module Basics {

  datatype Option<+T> = None | Some(value: T) {
    function GetOr(default: T): T {
      match this
      case Some(v) => v
      case None => default
    }
  }

  /** The document formats a configuration file can be written in. */
  datatype Format = Toml | Json

  /** The crate's error enum, plus `Parse` for the boxed error a
      deserializer returns through `?`. */
  datatype Error =
    | Io                    // std::io::Error from a file operation
    | LoggerInit            // a logger was already registered
    | ConfigExt(ext: string) // unsupported configuration extension (upper-cased)
    | Parse(format: Format) // the document did not deserialize

  datatype Result<+R> = Ok(value: R) | Err(error: Error)
}
