/** A value, or none: what a search that fails, an absent file or a call that raises leaves. */
module Options {
  datatype Option<T> = None | Some(value: T)
}
