/** The conventional optional value, used for the source's `false` sentinels. */
module Options {

  datatype Option<+T> = None | Some(value: T)
}
