/** Option and Result values shared by every module of the model. */
module Wrappers {

  /** A value that may be absent (`null` / `undefined` in the application). */
  datatype Option<+T> = None | Some(value: T)

  /** The `{ ok, error }` shape every server action returns. */
  datatype Result<+T, +E> = Ok(value: T) | Err(error: E)

  /** A number read from a form field with `parseFloat` / `parseInt`. */
  datatype Parsed<+T> = NaN | Num(value: T)
}
