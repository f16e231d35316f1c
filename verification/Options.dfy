/** The conventional Some/None datatype; None stands for an exception raised by the modelled program. */
module Options {
  datatype Option<+T> = None | Some(value: T)
}
