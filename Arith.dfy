/**
 * Small facts about integer multiplication and Euclidean division shared by
 * the index and alignment arithmetic of the other modules.
 */
module Arith {

  lemma {:induction false} MulAtLeast(t: nat, d: nat)
    requires t >= 1
    ensures t * d >= d
  {
    if t > 1 {
      MulAtLeast(t - 1, d);
      assert t * d == (t - 1) * d + d;
    }
  }

  lemma MulMonotone(a: nat, b: nat, c: nat)
    requires a <= b
    ensures a * c <= b * c
  {
    if a < b {
      MulAtLeast(b - a, c);
      assert b * c == (b - a) * c + a * c;
    }
  }

  /** Euclidean division is determined by any quotient-remainder pair with the remainder in range. */
  lemma DivModUnique(x: int, d: int, q: int, r: int)
    requires d > 0 && 0 <= r < d && x == q * d + r
    ensures x / d == q && x % d == r
  {
    var t := x / d - q;
    assert t * d == (x / d) * d - q * d;
    assert t * d == r - x % d;
    if t > 0 {
      MulAtLeast(t, d);
    }
  }

}
