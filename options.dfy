/** An optional value: `undefined`/`null` in the source become `None`. */
module Options {

  datatype Option<+T> = None | Some(value: T)
}
