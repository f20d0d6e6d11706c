/** An optional value: a lookup that may miss, a search that may find nothing. */
module Options {

  datatype Option<+T> = None | Some(value: T)

}
