/** A value that may be missing, as the source's null pointers and failed searches. */
module Options {
  datatype Option<A> = None | Some(value: A)
}
