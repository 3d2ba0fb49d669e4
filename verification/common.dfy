/** Types that several models share. */
module Common {

  datatype Option<T> = None | Some(value: T)

  /** HAL_StatusTypeDef, as far as it is used. */
  datatype Status = HalOk | HalError
}
