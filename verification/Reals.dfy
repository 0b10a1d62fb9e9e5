/** `Math.min`, `Math.max` and `Math.ceil` over the reals. */
module Reals {
  function Min(x: real, y: real): real { if x < y then x else y }

  function Max(x: real, y: real): real { if x < y then y else x }

  function Ceil(x: real): int { -((-x).Floor) }
}
