/** An optional value, standing for a JavaScript value that may be `null` or `undefined`. */
module Optional {

  datatype Option<T> = None | Some(value: T)
}
