/** What several modules need: optional values, C integers and bytes, and a little arithmetic. */
module Basics {
  datatype Option<+T> = None | Some(value: T)

  type byte = i: int | 0 <= i < 256

  const INT_MAX: nat := 0x7FFF_FFFF

  function Min(a: nat, b: nat): nat { if a < b then a else b }

  function Max(a: nat, b: nat): nat { if a < b then b else a }

  lemma MulLe(d: nat, a: nat, b: nat)
    requires a <= b
    ensures d * a <= d * b
  {
  }

  /** Division is fixed by the multiples around x. */
  lemma DivMod(x: nat, d: nat, q: nat)
    requires d > 0
    ensures x / d == q <==> d * q <= x < d * q + d
    ensures x / d == q ==> x % d == x - d * q
  {
    var p := x / d;
    assert x == d * p + x % d;
    if p < q { MulLe(d, p + 1, q); }
    if q < p { MulLe(d, q + 1, p); }
  }
}
