/** The Option type the model uses for Rust's `Option` and for `Result`s whose error carries nothing. */
module Optional {

  datatype Option<+T> = None | Some(value: T)
}
