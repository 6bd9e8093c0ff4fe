/** The few facts about products and floor division that the proofs rest on. */
module Arithmetic {

  /** Percentages count hundredths of a percent. */
  const CHAIN_100_PERCENT: nat := 10000

  lemma MulMono(a: int, b: int, c: int)
    requires a <= b && 0 <= c
    ensures a * c <= b * c
  {
  }

  lemma MulAtLeast(q: nat, y: nat)
    requires y > 0
    ensures q <= q * y
  {
  }

  /** The floor of `x / y`, as a pair of inequalities. */
  lemma DivBounds(x: int, y: int)
    requires y > 0
    ensures x / y * y <= x < (x / y + 1) * y
  {
  }

  /** Those inequalities determine the quotient. */
  lemma DivUnique(x: int, y: int, q: int)
    requires y > 0 && q * y <= x < (q + 1) * y
    ensures x / y == q
  {
    DivBounds(x, y);
    var p := x / y;
    if p < q {
      MulMono(p + 1, q, y);
    } else if q < p {
      MulMono(q + 1, p, y);
    }
  }

  lemma DivFloor(x: nat, y: nat)
    requires y > 0
    ensures 0 <= x / y && y * (x / y) <= x
  {
    DivBounds(x, y);
    if x / y < 0 {
      MulMono(x / y + 1, 0, y);
    }
  }

  lemma DivAtMost(x: nat, y: nat)
    requires y > 0
    ensures 0 <= x / y <= x
  {
    MulAtLeast(x / y, y);
  }

  lemma Cancel(a: int, b: int, c: int)
    requires c > 0 && a * c <= b * c
    ensures a <= b
  {
    assert (b + 1) * c == b * c + c;
    if a > b {
      MulMono(b + 1, a, c);
    }
  }

  /** `x * p / c <= x` when `p <= c`. */
  lemma PartAtMost(x: nat, p: nat, c: nat)
    requires p <= c && c > 0
    ensures 0 <= x * p / c <= x
  {
    MulMono(0, x, p);
    DivFloor(x * p, c);
    MulMono(p, c, x);
    Cancel(x * p / c, x, c);
  }

  lemma DivDiv(x: nat, a: nat, b: nat)
    requires a > 0 && b > 0
    ensures a * b > 0 && x / a / b == x / (a * b)
  {
    MulMono(1, a, b);
    var y, q := x / a, x / a / b;
    DivBounds(x, a);
    DivBounds(y, b);
    MulMono(q * b, y, a);
    MulMono(y + 1, (q + 1) * b, a);
    assert q * b * a == q * (a * b) && (q + 1) * b * a == (q + 1) * (a * b);
    DivUnique(x, a * b, q);
  }

  lemma DivAtMostIf(x: int, y: int, q: int)
    requires y > 0 && x <= q * y
    ensures x / y <= q
  {
    DivBounds(x, y);
    if x / y > q {
      MulMono(q + 1, x / y, y);
    }
  }

  lemma DivAtLeastIf(x: int, y: int, q: int)
    requires y > 0 && q * y <= x
    ensures q <= x / y
  {
    DivBounds(x, y);
    if x / y < q {
      MulMono(x / y + 1, q, y);
    }
  }

  /** `q <= s * f / v` and `f / v <= f' / v'` together, without the quotients. */
  lemma CrossMore(q: int, v: int, s: int, f: int, v': int, f': int)
    requires v > 0 && v' >= 0 && s >= 0 && q * v <= s * f && f * v' <= f' * v
    ensures q * v' <= s * f'
  {
    MulMono(q * v, s * f, v');
    MulMono(f * v', f' * v, s);
    assert q * v * v' == q * v' * v && s * f * v' == f * v' * s && f' * v * s == s * f' * v;
    Cancel(q * v', s * f', v);
  }
}
