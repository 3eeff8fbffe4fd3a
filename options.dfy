/** A value that may be absent: an optional field of a record, a nullable
    piece of component state, or a lookup that may find nothing. */
module Options {

  datatype Option<+T> = None | Some(value: T)

}
