/**
 * The value every root finder hands back, and the few arithmetic helpers the
 * three methods share.
 */
module RootResults {

  datatype Option<+T> = None | Some(value: T)

  /**
   * A root finder's result: the root it settled on together with the number of
   * iterations it consumed, or the absence marker together with the iteration
   * at which it gave up. The absence marker is a constructor of its own, never
   * a special real number.
   */
  datatype RootResult = Found(root: real, iterations: nat) | Failed(iterations: nat)

  /** Absolute value, as Python's `abs` on a float. */
  function Abs(x: real): (r: real)
    ensures r >= 0.0
    ensures r == x || r == -x
  {
    if x < 0.0 then -x else x
  }

  /**
   * The number of passes `while iterations < max_iterations` allows when the
   * counter starts at 0: a negative budget allows none.
   */
  function Budget(maxIterations: int): nat
  {
    if maxIterations < 0 then 0 else maxIterations
  }

  function Min(x: real, y: real): real { if x <= y then x else y }

  function Max(x: real, y: real): real { if x <= y then y else x }
}
