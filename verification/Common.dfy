/** Types that several components share. */
module Common {

  type byte = b: int | 0 <= b < 0x100

  datatype Option<+T> = None | Some(value: T)
}
