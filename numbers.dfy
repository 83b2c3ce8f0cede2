/** Integer helpers with the meaning of JavaScript's `Math.max`, `Math.min` and `Math.ceil` on integers. */
module Numbers {

  function Max(a: int, b: int): int { if a >= b then a else b }

  function Min(a: int, b: int): int { if a <= b then a else b }

  /** `Math.ceil(n / d)` for a natural `n` and a positive integer `d`. */
  function CeilDiv(n: nat, d: nat): (q: nat)
    requires d >= 1
    ensures q * d >= n
    ensures q == 0 || (q - 1) * d < n
    ensures n == 0 <==> q == 0
  {
    var q := (n + d - 1) / d;
    assert q * d + (n + d - 1) % d == n + d - 1;
    q
  }
}
