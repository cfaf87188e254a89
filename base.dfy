/** Small value types shared by every script model. */
module Base {

  /** A value that may be absent (Python's `None`). */
  datatype Option<+T> = None | Some(value: T)

  /** The result of a step that can fail the way the script fails
      (an uncaught exception, or a message followed by `sys.exit(1)`). */
  datatype Result<+T, +E> = Ok(value: T) | Err(error: E)

  /** A text file on disk as `readlines()` returns it: one string per line,
      each keeping its trailing newline (the last one may lack it).
      `Missing` is a path where opening for reading raises `FileNotFoundError`. */
  datatype File = Missing | Present(lines: seq<string>)

  /** The whole text of a file, as `read()` returns it. */
  function Concat(lines: seq<string>): (text: string)
    ensures lines == [] ==> text == []
    ensures |lines| == 1 ==> text == lines[0]
  {
    if lines == [] then [] else lines[0] + Concat(lines[1..])
  }
}
