/** The optional-value wrapper used for "no result" and for `window.currentCalc`. */
module Options {

  datatype Option<+T> = None | Some(value: T)

  function Max(a: real, b: real): (r: real)
    ensures r >= a && r >= b
    ensures r == a || r == b
  {
    if a >= b then a else b
  }
}
