/** The one failure-free wrapper the model needs for values that may be absent. */
module Options {
  datatype Option<+T> = None | Some(value: T)
}
