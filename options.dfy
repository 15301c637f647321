/** The optional value every component uses for "the call raised" or "nothing to record". */
module Options {
  datatype Option<T> = None | Some(value: T)
}
