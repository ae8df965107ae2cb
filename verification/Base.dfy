/** What several parts of the model share. */
module Base {
  datatype Option<T> = None | Some(value: T)

  const PAGE: nat := 4096
  const U32: nat := 0x1_0000_0000
}
