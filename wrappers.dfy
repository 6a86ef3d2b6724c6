/** Option and result types shared by every module. */
module Wrappers {
  datatype Option<T> = None | Some(value: T)

  /**
   * The outcome of an operation that can fail. `Err` is an error value the source returns
   * (`Result::Err`, `bail!`, a Python exception); `Panic` is a Rust panic (`assert!`,
   * `unwrap` on `None`, `todo!`, an arithmetic overflow in a debug build).
   */
  datatype Result<T> = Ok(value: T) | Err(reason: string) | Panic(reason: string)
}
