/** Java's nullable references and thrown exceptions, as values. */
module Optional {

  /** A reference that may be null: `None` stands for Java's `null`. */
  datatype Option<+T> = None | Some(value: T)

  /** The result of a step that either returns a value or throws. */
  datatype Result<+T, +E> = Ok(value: T) | Err(error: E)

  /** What string concatenation makes of a String that may be null: "null" for null. */
  function JavaText(s: Option<string>): string
  {
    match s
    case None => "null"
    case Some(v) => v
  }
}
