/** A value or none, as the kernel's lookups return it. */
module Options {

  datatype Option<T> = None | Some(value: T)
}
