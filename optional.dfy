/** The conventional Some/None datatype, used for dictionary probes and parse results. */
module Optional {
  datatype Option<+T> = None | Some(value: T)
}
