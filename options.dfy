/** The nullable references of the source (`string?`, `List<string>?`) as values. */
module Options {

  datatype Option<+T> = None | Some(value: T)
}
