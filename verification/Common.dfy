/** The datatypes and counting facts shared by the other modules. */
module Common {

  datatype Option<+T> = None | Some(value: T)

  const MINUTE_MS := 60_000
  const DAY_MS := 86_400_000

  function Min(a: int, b: int): int { if a < b then a else b }

  function Max(a: int, b: int): int { if a < b then b else a }

  /** Half-open windows [s, e) and [s', e') share an instant. */
  predicate Overlap(s: int, e: int, s': int, e': int) {
    s < e' && s' < e
  }
}

/** Small facts about division that the solver does not find unaided. */
module DivMod {

  lemma MulAtLeast(b: int, d: int)
    requires b > 0 && d >= 1
    ensures b * d >= b
    decreases d
  {
    if d > 1 {
      MulAtLeast(b, d - 1);
      assert b * d == b * (d - 1) + b;
    }
  }

  /** Quotient and remainder are unique. */
  lemma DivModUnique(a: int, b: int, q: int, r: int)
    requires b > 0 && a == b * q + r && 0 <= r < b
    ensures a / b == q && a % b == r
  {
    var q', r' := a / b, a % b;
    assert b * (q - q') == r' - r;
    if q - q' >= 1 {
      MulAtLeast(b, q - q');
    } else if q' - q >= 1 {
      MulAtLeast(b, q' - q);
    }
  }

  lemma ModShift(r: int, step: int, q: int)
    requires step > 0
    ensures (step * q + r) % step == r % step
  {
    var r0, q0 := r % step, r / step;
    assert step * q + r == step * (q + q0) + r0;
    DivModUnique(step * q + r, step, q + q0, r0);
  }

  /** A reduction modulo a multiple of step does not change the residue modulo step. */
  lemma ModOfMod(m: int, big: int, step: int)
    requires step > 0 && big > 0 && big % step == 0
    ensures (m % big) % step == m % step
  {
    var k, q, r := big / step, m / big, m % big;
    assert big == step * k;
    assert m == step * (k * q) + r by {
      assert big * q == (step * k) * q;
      assert (step * k) * q == step * (k * q);
    }
    ModShift(r, step, k * q);
  }
}
