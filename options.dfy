/** The optional value used where the source has a Swift optional (`T?`). */
module Options {

  datatype Option<+T> = None | Some(value: T)

}
