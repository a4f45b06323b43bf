/** A value that may be absent, as the code's nil pointers, zero times and ok results say. */
module Options {

  datatype Option<+T> = None | Some(value: T)
}
