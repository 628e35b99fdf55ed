/** The optional value used for JavaScript's `undefined` results. */
module Optional {
  datatype Option<+T> = None | Some(value: T)
}
