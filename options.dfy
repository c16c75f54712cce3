/** An optional value: the model's stand-in for a Python early `return` or a value
    that is only computed when there is something to compute it from. */
module Options {

  datatype Option<+T> = None | Some(value: T)

}
