/** Small functions on real numbers. */
module Reals {
  function Abs(x: real): real { if x < 0.0 then -x else x }

  function Max(x: real, y: real): real { if x >= y then x else y }

  function Min(x: real, y: real): real { if x <= y then x else y }

  function Sum(xs: seq<real>): real { if xs == [] then 0.0 else Sum(xs[..|xs|-1]) + xs[|xs|-1] }

  lemma PositiveProduct(x: real, y: real, product: real)
    requires x > 0.0 && y > 0.0 && product == x * y
    ensures product > 0.0
  {}

  lemma NonNegativeProduct(x: real, y: real, product: real)
    requires x >= 0.0 && y > 0.0 && product == x * y
    ensures product >= 0.0
  {}

  lemma Distribute(k: real, x: real, y: real)
    ensures k * (x + y) == k * x + k * y
  {}
}
