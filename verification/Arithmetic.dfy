/** Products, quotients and remainders, in the small steps the other proofs call on. */
module Arithmetic {

  lemma DivIs(x: int, d: int, q: int)
    requires d > 0 && q * d <= x < q * d + d
    ensures x / d == q
  {
    var r := x / d;
    DivBounds(x, d);
    if r < q {
      MulMono(r + 1, q, d);
    } else if r > q {
      MulMono(q + 1, r, d);
    }
  }

  lemma DivAtLeast(x: int, d: int, q: int)
    requires d > 0 && q * d <= x
    ensures q <= x / d
  {
    var r := x / d;
    DivBounds(x, d);
    if r < q {
      MulMono(r + 1, q, d);
    }
  }

  lemma DivBounds(x: int, d: int)
    requires d > 0
    ensures x - d + 1 <= (x / d) * d <= x
  {
  }

  lemma MulMono(a: int, b: int, c: int)
    requires a <= b && c >= 0
    ensures a * c <= b * c
  {
  }

  lemma MulAssoc(a: int, b: int, c: int)
    ensures (a * b) * c == (b * c) * a
  {
  }

  lemma MulDist(a: int, b: int, c: int)
    ensures (a + b) * c == a * c + b * c
  {
  }

  lemma PositiveFactor(a: nat, b: nat)
    requires a * b > 0
    ensures a >= 1
  {
  }

  lemma {:induction false} MultipleHasNoRest(q: nat, r: int)
    requires r >= 1
    ensures (q * r) % r == 0
  {
    if q > 0 {
      MultipleHasNoRest(q - 1, r);
      assert q * r == (q - 1) * r + r;
      AddOneRound((q - 1) * r, r);
    }
  }

  lemma AddOneRound(x: nat, r: int)
    requires r >= 1
    ensures (x + r) % r == x % r
  {
    var q, m := x / r, x % r;
    assert x + r == (q + 1) * r + m;
    RestIsUnique(x + r, r, q + 1, m);
  }

  lemma RestIsUnique(x: nat, r: int, q: nat, m: nat)
    requires r >= 1 && x == q * r + m && m < r
    ensures x % r == m
  {
    DivIs(x, r, q);
  }
}
