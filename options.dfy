/** Rust's `Option`, with the derived ordering in which `None` is below every `Some`. */
module Options {

  datatype Option<+T> = None | Some(value: T)

  /** `a <= b` for `Option<i64>`-like values as Rust's derived `PartialOrd` orders them. */
  predicate OptLe(a: Option<int>, b: Option<int>)
  {
    match (a, b)
    case (None, _) => true
    case (Some(_), None) => false
    case (Some(x), Some(y)) => x <= y
  }
}
