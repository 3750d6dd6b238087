/** Values that may be missing, and the lesser of two numbers. */
module Wrappers {

  datatype Option<T> = None | Some(value: T)

  function Min(a: nat, b: nat): (n: nat)
    ensures n <= a && n <= b && n in {a, b}
  {
    if a < b then a else b
  }
}
