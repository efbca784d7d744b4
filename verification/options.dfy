/** An optional value: the shape Python code expresses with a falsy result or a missing key. */
module Options {

  datatype Option<+T> = None | Some(value: T)

}
