/** Division facts shared by the file, tensor and codec components. */
module Arithmetic {

  lemma DivMod(x: int, a: int)
    requires a > 0
    ensures x == a * (x / a) + x % a && 0 <= x % a < a
  {}

  lemma Scale(a: int, d: int)
    requires a > 0
    ensures d >= 1 ==> a * d >= a
    ensures d <= -1 ==> a * d <= -a
  {
    if d <= -1 {
      assert a * d == -(a * -d);
    }
  }

  lemma DivUnique(x: int, a: int, q: int, r: int)
    requires a > 0 && x == a * q + r && 0 <= r < a
    ensures x / a == q && x % a == r
  {
    DivMod(x, a);
    var d := q - x / a;
    assert a * d == x % a - r by {
      assert a * d == a * q - a * (x / a);
    }
    Scale(a, d);
  }

  /** Quotient and remainder of natural numbers. */
  function Quotient(x: int, a: int): (q: nat)
    requires x >= 0 && a > 0
    ensures q == x / a
  {
    DivMod(x, a);
    Scale(a, x / a);
    x / a
  }

  function Remainder(x: int, a: int): (r: nat)
    requires a > 0
    ensures r == x % a && r < a
  {
    DivMod(x, a);
    x % a
  }
}
