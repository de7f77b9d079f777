/** The one optional-value type shared by every module: a C null pointer, a missing
    map entry or an absent Go value is `None`. */
module Options {
  datatype Option<+T> = None | Some(value: T)
}
