/**
 Two small functions on numbers.
 */
module Numbers {

  function Min(a: nat, b: nat): nat {
    if a <= b then a else b
  }

  function Unit(b: bool): nat {
    if b then 1 else 0
  }
}
