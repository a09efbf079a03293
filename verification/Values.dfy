/** What producers put into the ring: an interface value, which may be nil. */
module Values {
  datatype Any = Nil | Box(id: int)

  datatype Option<+T> = None | Some(value: T)
}
