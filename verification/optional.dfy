/** The value-or-nothing wrapper used for JavaScript's `null`. */
module Optional {

  /** `None` stands for `null`; `Some(v)` for a present value. */
  datatype Option<+T> = None | Some(value: T)
}
