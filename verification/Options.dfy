module Options {
  datatype Option<+T> = None | Some(value: T)

  /** The text of a file; a missing file holds none. */
  function TextOf(file: Option<string>): string {
    if file.None? then "" else file.value
  }
}
