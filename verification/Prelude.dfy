/** Small shared vocabulary: optional values, clamping and real-number rounding. */
module Prelude {

  datatype Option<+T> = None | Some(value: T)

  /** Python's `max(1, x)`, the clamp every numeric setting of the server goes through. */
  function AtLeastOne(x: int): (r: nat)
    ensures r >= 1 && (x >= 1 ==> r == x)
  {
    if x < 1 then 1 else x
  }

  function Min(x: real, y: real): real {
    if x <= y then x else y
  }

  function Max(x: real, y: real): real {
    if x >= y then x else y
  }

  /** Python's `math.ceil`. */
  function Ceil(x: real): (n: int)
    ensures n as real >= x
    ensures (n - 1) as real < x
  {
    var f := (-x).Floor;
    -f
  }
}
