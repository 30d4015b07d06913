/** Division facts that several modules need. */
module Arithmetic {
  /** Quotient and remainder are unique. */
  lemma Divided(v: nat, d: nat, q: nat, r: nat)
    requires v == q * d + r && r < d
    ensures v / d == q && v % d == r
  {
    var e := v / d - q;
    assert v == (v / d) * d + v % d;
    assert (v / d) * d == q * d + e * d;
    NoMultiple(e, d);
  }

  lemma NoMultiple(e: int, d: nat)
    ensures e >= 1 ==> e * d >= d
    ensures e <= -1 ==> e * d + d <= 0
  {
    if e >= 1 {
      assert e * d == d + (e - 1) * d;
    } else if e <= -1 {
      assert e * d + d == (e + 1) * d;
    }
  }
}
