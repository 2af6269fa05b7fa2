/** Values shared by every component: paths, bytes, I/O error kinds and the
    three ways a call of the program can end (a value, an error, a panic). */
module Types {

  datatype Option<+T> = None | Some(value: T)

  /** A filesystem path as the sequence of its name components. */
  type Path = seq<string>

  newtype Byte = b: int | 0 <= b < 256

  /** The `std::io::ErrorKind` values the model tells apart. */
  datatype IoErrorKind =
    | NotFound
    | PermissionDenied
    | AlreadyExists
    | UnexpectedEof
    | StorageFull
    | CrossesDevices
    | InvalidFilename
    | Other(code: nat)

  /** `io::Result<T>` (and `anyhow::Result<T>`, whose errors here are all I/O errors). */
  datatype Result<+T> = Ok(value: T) | Err(error: IoErrorKind)

  /** Why a thread unwinds instead of returning. */
  datatype PanicReason =
    | InvalidDate(year: nat, month: nat, day: nat)  // `NaiveDate::from_ymd` on a date that does not exist
    | NoFileName                                     // `Path::file_name().unwrap()` on a path without a last name
    | DigitsExpected                                 // `expect("digits")` when a captured group does not parse
    | NoLocalLow                                     // `Unrotate::new().unwrap()` when the LocalLow folder is unknown

  /** A call either returns its `Result` or panics. */
  datatype Outcome<+T> = Returned(result: Result<T>) | Panicked(reason: PanicReason)
}
