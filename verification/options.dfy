/** The optional value used throughout the model: JavaScript's `null`/`undefined`
    alternatives become `None`. */
module Options {

  datatype Option<+T> = None | Some(value: T)

}
