/** Stock values shared by the other modules. */
module Values {

  type Bytes = seq<bv8>

  datatype Option<+T> = None | Some(value: T)
}
