/** The JavaScript arithmetic the dashboard relies on, written out over unbounded integers. */
module JsMath {

  /** `a % b` in JavaScript: the remainder takes the sign of the dividend. */
  function JsRem(a: int, b: int): (r: int)
    requires b > 0
    ensures a >= 0 ==> r == a % b
    ensures a < 0 ==> -b < r <= 0
  {
    if a >= 0 then a % b else -((-a) % b)
  }

  /** `Math.round((part / whole) * 100)` for integer counts, in exact arithmetic: the floor of
      the percentage plus one half. */
  function RoundPercent(part: int, whole: int): (r: int)
    requires 0 <= part <= whole && whole > 0
    ensures r * (2 * whole) <= 200 * part + whole < (r + 1) * (2 * whole)
    ensures 0 <= r <= 100
    ensures part == whole ==> r == 100
    ensures part == 0 ==> r == 0
  {
    RoundingFacts(part, whole);
    (200 * part + whole) / (2 * whole)
  }

  lemma RoundingFacts(part: int, whole: int)
    requires 0 <= part <= whole && whole > 0
    ensures var r := (200 * part + whole) / (2 * whole);
      && r * (2 * whole) <= 200 * part + whole < (r + 1) * (2 * whole)
      && 0 <= r <= 100
      && (part == whole ==> r == 100)
      && (part == 0 ==> r == 0)
  {
    var r := (200 * part + whole) / (2 * whole);
    DivBounds(200 * part + whole, 2 * whole);
    if r > 100 {
      MulLe(101, r, 2 * whole);
      assert false;
    }
    if part == whole {
      DivUnique(200 * part + whole, 2 * whole, 100);
    }
    if part == 0 {
      DivUnique(whole, 2 * whole, 0);
    }
  }

  lemma DivBounds(a: int, d: int)
    requires a >= 0 && d > 0
    ensures (a / d) * d <= a < (a / d + 1) * d
    ensures a / d >= 0
  {
  }

  lemma MulLe(x: int, y: int, d: int)
    requires x <= y && d > 0
    ensures x * d <= y * d
  {
  }

  /** `q` is the quotient of `a` by `d` as soon as `q * d <= a < (q + 1) * d`. */
  lemma DivUnique(a: int, d: int, q: int)
    requires d > 0 && q * d <= a < (q + 1) * d
    ensures a / d == q
  {
    var q' := a / d;
    if q' < q {
      MulLe(q' + 1, q, d);
    } else if q' > q {
      MulLe(q + 1, q', d);
    }
  }
}
