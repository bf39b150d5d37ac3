// A value that may be missing: a null pointer, or a search that found nothing.
module Options {
  datatype Option<+T> = None | Some(value: T)
}
