/** An optional value: an empty slot, or a null cloud pointer. */
module Optional {

  datatype Option<T> = None | Some(value: T)
}
