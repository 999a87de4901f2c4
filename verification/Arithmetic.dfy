// The sizes of machine words, and quotients and remainders that the solver does
// not find by itself.

module Arithmetic {
  const TWO32: nat := 0x1_0000_0000
  const TWO64: nat := 0x1_0000_0000_0000_0000

  lemma AtLeast(e: int, d: int)
    requires d > 0
    ensures e >= 1 ==> e * d >= d
    ensures e <= -1 ==> e * d <= -d
  {
  }

  lemma DivideBy(w: int, d: int, q: int, r: int)
    requires 0 <= r < d && w == q * d + r
    ensures w / d == q && w % d == r
  {
    var e := w / d - q;
    assert w == d * (w / d) + w % d;
    assert e * d == r - w % d;
    AtLeast(e, d);
  }
}
