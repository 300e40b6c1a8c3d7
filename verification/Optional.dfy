/** The value-or-nothing shape used wherever the source says `T | undefined` or `T | null`. */
module Optional {
  datatype Option<+T> = None | Some(value: T)
}
