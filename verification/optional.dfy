/** A value that may be absent: a missing map key, a line that yields no
    mapping entry, an unset JSON offset. */
module Optional {

  datatype Option<+T> = None | Some(value: T)
}
