/** Values shared by every part of the code name generator: optional values, the outcome of a
    call that may let an exception escape, and what opening and reading a file can yield. */
module Common {

  datatype Option<+T> = None | Some(value: T)

  /** `Crash` stands for an exception that the called function does not catch, so that it
      propagates out of `main` and ends the run. */
  datatype Result<+T> = Ok(value: T) | Crash

  /** What opening a path and iterating over its lines yields. `Lines` holds the lines as the
      file iterator produces them, each with its line terminator still attached.
      `Unreadable` is every other operating-system error (permission denied, a directory). */
  datatype FileRead = Lines(lines: seq<string>) | NotFound | Undecodable | Unreadable

  /** Python's truthiness of an optional path argument: `None` and `""` are both false. */
  predicate Given(path: Option<string>)
  {
    path.Some? && path.value != ""
  }
}
