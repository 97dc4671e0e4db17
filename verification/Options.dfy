/** A value that may be absent, for the nil pointers of the miner. */
module Options {
  datatype Option<+T> = None | Some(value: T)
}
