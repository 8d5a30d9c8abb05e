/** Types shared by every module of the model: Rust's `i8`, `Option`, `Ordering`
    and an `anyhow::Result` whose error is kept as its message. */
module Common {

  /** Rust's `i8`, the type of handler priorities. */
  newtype i8 = x: int | -128 <= x < 128

  datatype Option<T> = None | Some(value: T)

  /** `std::cmp::Ordering`. */
  datatype Ordering = Less | Equal | Greater

  /** `anyhow::Result<T>`: the error is modelled by its message. */
  datatype Result<T> = Ok(value: T) | Err(error: string)

  /** `Ord::cmp` on integers (for `i8` and `usize` alike). */
  function CompareInt(a: int, b: int): (o: Ordering)
    ensures o == Less <==> a < b
    ensures o == Equal <==> a == b
    ensures o == Greater <==> a > b
  {
    if a < b then Less else if a == b then Equal else Greater
  }
}
