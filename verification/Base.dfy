/** Shared by every component: an optional value, standing for Go's nil pointer,
    empty path or zero time. */
module Base {
  datatype Option<+T> = None | Some(value: T)
}
