/** Comparisons the modules share. */
module Numbers {

  function Smaller(a: nat, b: nat): nat {
    if a < b then a else b
  }

  function Min(a: real, b: real): real {
    if a < b then a else b
  }

  function Max(a: real, b: real): real {
    if a > b then a else b
  }

  function Abs(x: real): real {
    if x < 0.0 then -x else x
  }
}
