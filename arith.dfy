/**
 * Multiplication, quotient and remainder on naturals as recursive
 * definitions, with the few facts the tile and buffer layouts need. The
 * definitions agree with `*`, `/` and `%` (MulNative, DivModNative); stating
 * layouts with them keeps the solver away from nonlinear arithmetic.
 */
module Arith {

  function Mul(a: nat, b: nat): nat {
    if a == 0 then 0 else b + Mul(a - 1, b)
  }

  function Div(a: nat, m: nat): nat
    requires m > 0
    decreases a
  {
    if a < m then 0 else 1 + Div(a - m, m)
  }

  function Mod(a: nat, m: nat): nat
    requires m > 0
    decreases a
  {
    if a < m then a else Mod(a - m, m)
  }

  lemma {:induction false} MulNative(a: nat, b: nat)
    ensures Mul(a, b) == a * b
  {
    if a > 0 {
      MulNative(a - 1, b);
      assert a * b == (a - 1) * b + b;
    }
  }

  /** a splits into Div(a, m) rows of m and a remainder below m. */
  lemma {:induction false} DivModSplit(a: nat, m: nat)
    requires m > 0
    ensures a == Mul(Div(a, m), m) + Mod(a, m) && Mod(a, m) < m
    decreases a
  {
    if a >= m {
      DivModSplit(a - m, m);
    }
  }

  /** One more row adds at least a whole row. */
  lemma {:induction false} MulLess(a: nat, b: nat, m: nat)
    requires a < b
    ensures Mul(a, m) + m <= Mul(b, m)
    decreases b - a
  {
    if a + 1 < b {
      MulLess(a + 1, b, m);
    }
  }

  /** Quotient and remainder of q * m + r are q and r. */
  lemma DivModOf(q: nat, r: nat, m: nat)
    requires r < m
    ensures Div(Mul(q, m) + r, m) == q && Mod(Mul(q, m) + r, m) == r
  {
    var n := Mul(q, m) + r;
    DivModSplit(n, m);
    var q' := Div(n, m);
    if q' < q {
      MulLess(q', q, m);
    } else if q < q' {
      MulLess(q, q', m);
    }
  }

  lemma DivModNative(a: nat, m: nat)
    requires m > 0
    ensures Div(a, m) == a / m && Mod(a, m) == a % m
  {
    MulNative(a / m, m);
    assert a == Mul(a / m, m) + a % m;
    DivModOf(a / m, a % m, m);
  }

  /** An offset below h rows of m lies in a row below h. */
  lemma RowBelow(a: nat, m: nat, h: nat)
    requires m > 0 && a < Mul(h, m)
    ensures Div(a, m) < h
  {
    DivModSplit(a, m);
    if Div(a, m) >= h {
      if h < Div(a, m) {
        MulLess(h, Div(a, m), m);
      }
    }
  }

  /** A column below m in a row below h lies below h rows. */
  lemma InRows(row: nat, col: nat, m: nat, h: nat)
    requires row < h && col < m
    ensures Mul(row, m) + col < Mul(h, m)
  {
    MulLess(row, h, m);
  }

  /** Products do not depend on the order of the factors. */
  lemma MulCommutes(a: nat, b: nat)
    ensures Mul(a, b) == Mul(b, a)
  {
    MulNative(a, b);
    MulNative(b, a);
  }
}
