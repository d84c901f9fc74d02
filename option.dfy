/** An optional value: `Some` result of a lookup or a rate chain, or `None` when nothing
    was found or assigned. Shared by the interest calculator and the task manager. */
module Optional {
  datatype Option<T> = None | Some(value: T)
}
