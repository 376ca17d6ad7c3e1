/** Error kinds of the file-system layer and the usual result types. */
module Results {

  datatype FsError = NotFound | NotADir | IsADir | Io | Unsupported

  datatype Result<+T> = Ok(value: T) | Err(error: FsError)

  datatype Option<+T> = None | Some(value: T)
}
