/** The JavaScript numeric operations the three sliders rely on, over Dafny's
    unbounded `real` and `int` (IEEE rounding, NaN and Infinity are not modelled). */
module JsMath {

  /** A real that has no fractional part. */
  predicate IsInteger(x: real) {
    x == x.Floor as real
  }

  /** `Math.ceil` */
  function Ceil(x: real): (r: int)
    ensures r as real - 1.0 < x <= r as real
  {
    -((-x).Floor)
  }

  /** `Math.round`: the nearest integer, halves rounded towards +Infinity. */
  function Round(x: real): (r: int)
    ensures r as real - 0.5 <= x < r as real + 0.5
  {
    (x + 0.5).Floor
  }

  /** JavaScript's `a % n` for a whole divisor `n >= 1`: the floored modulo of the
      magnitude, carrying the sign of the dividend. */
  function Rem(a: real, n: int): (r: real)
    requires n >= 1
    ensures -(n as real) < r < n as real
    ensures a >= 0.0 ==> r >= 0.0
    ensures a < 0.0 ==> r <= 0.0
    ensures IsMultiple(a - r, n)
  {
    if a >= 0.0 then
      FlooredMod(a, n)
    else
      NegatedMultiple(-a - FlooredMod(-a, n), n);
      assert a - -FlooredMod(-a, n) == -(-a - FlooredMod(-a, n));
      -FlooredMod(-a, n)
  }

  /** `x` is a whole multiple of `n`. */
  predicate IsMultiple(x: real, n: int)
    requires n >= 1
  {
    IsInteger(x) && x.Floor % n == 0
  }

  lemma NegatedMultiple(x: real, n: int)
    requires n >= 1 && IsMultiple(x, n)
    ensures IsMultiple(-x, n)
  {
    var k := x.Floor;
    assert (-x).Floor == -k;
    ModNegate(k, n);
  }

  /** The floored ("mathematical") modulo of a real by a whole `n`, always in `[0, n)`. */
  function FlooredMod(a: real, n: int): (r: real)
    requires n >= 1
    ensures 0.0 <= r < n as real
    ensures IsMultiple(a - r, n)
  {
    FlooredModMultiple(a, n);
    (a.Floor % n) as real + (a - a.Floor as real)
  }

  lemma FlooredModMultiple(a: real, n: int)
    requires n >= 1
    ensures IsMultiple(a - ((a.Floor % n) as real + (a - a.Floor as real)), n)
  {
    var k := a.Floor;
    var m := k - k % n;
    assert a - ((k % n) as real + (a - k as real)) == m as real;
    RemainderRemoved(k, n);
    WholeIsMultiple(m, n);
  }

  lemma RemainderRemoved(k: int, n: int)
    requires n >= 1
    ensures (k - k % n) % n == 0
  {
    ModUnique(k - k % n, n, k / n, 0);
  }

  lemma WholeIsMultiple(m: int, n: int)
    requires n >= 1 && m % n == 0
    ensures IsMultiple(m as real, n)
  {
    assert (m as real).Floor == m;
  }

  /** Adding the sign correction `if r < 0 then r + n` to JavaScript's `%`
      gives the floored modulo. */
  lemma {:induction false} NormalisedRemIsFlooredMod(a: real, n: int)
    requires n >= 1
    ensures var r := Rem(a, n); (if r < 0.0 then r + n as real else r) == FlooredMod(a, n)
  {
    if a < 0.0 {
      var b := -a;
      var k := b.Floor;
      var f := b - k as real;
      if f > 0.0 {
        assert a.Floor == -k - 1;
        ModReflect(k, n);
      } else {
        assert a.Floor == -k;
        ModNegate(k, n);
      }
    }
  }

  /** Shifting by one whole `n` does not change the floored modulo. */
  lemma {:induction false} FlooredModShift(a: real, n: int)
    requires n >= 1
    ensures FlooredMod(a + n as real, n) == FlooredMod(a, n)
    ensures FlooredMod(a - n as real, n) == FlooredMod(a, n)
  {
    var k := a.Floor;
    assert (a + n as real).Floor == k + n;
    assert (a - n as real).Floor == k - n;
    ModUnique(k + n, n, k / n + 1, k % n);
    ModUnique(k - n, n, k / n - 1, k % n);
  }

  /** On whole numbers the floored modulo is Dafny's Euclidean `%`. */
  lemma FlooredModOfInteger(k: int, n: int)
    requires n >= 1
    ensures FlooredMod(k as real, n) == (k % n) as real
  {
    assert (k as real).Floor == k;
  }

  /** Quotient and remainder are unique. */
  lemma ModUnique(x: int, n: int, q: int, r: int)
    requires n >= 1 && 0 <= r < n && x == n * q + r
    ensures x % n == r && x / n == q
  {
    var d := x / n - q;
    assert n * d == n * (x / n) - n * q;
    MulBound(n, d);
  }

  lemma MulBound(n: int, d: int)
    requires n >= 1
    ensures d >= 1 ==> n * d >= n
    ensures d <= -1 ==> n * d <= -n
  {
  }

  lemma MultipleMod(q: int, n: int)
    requires n >= 1
    ensures (n * q) % n == 0
  {
    ModUnique(n * q, n, q, 0);
  }

  lemma ModNegate(k: int, n: int)
    requires n >= 1
    ensures (-k) % n == 0 <==> k % n == 0
    ensures k % n != 0 ==> (-k) % n == n - k % n
  {
    var q, r := k / n, k % n;
    if r == 0 {
      ModUnique(-k, n, -q, 0);
    } else {
      ModUnique(-k, n, -q - 1, n - r);
    }
  }

  lemma ModReflect(k: int, n: int)
    requires n >= 1
    ensures (-k - 1) % n == n - 1 - k % n
  {
    ModUnique(-k - 1, n, -(k / n) - 1, n - 1 - k % n);
  }

  /** `Math.min` */
  function Min(a: real, b: real): (r: real)
    ensures r <= a && r <= b
    ensures r == a || r == b
  {
    if a <= b then a else b
  }

  /** `Math.max` */
  function Max(a: real, b: real): (r: real)
    ensures r >= a && r >= b
    ensures r == a || r == b
  {
    if a >= b then a else b
  }

  /** `Math.abs` */
  function Abs(x: real): (r: real)
    ensures r >= 0.0
    ensures r == x || r == -x
  {
    if x >= 0.0 then x else -x
  }

  /** `Math.max(lo, Math.min(hi, x))`: `x` clamped into `[lo, hi]`. */
  function Clamp(x: real, lo: real, hi: real): (r: real)
    requires lo <= hi
    ensures lo <= r <= hi
    ensures lo <= x <= hi ==> r == x
    ensures x < lo ==> r == lo
    ensures x > hi ==> r == hi
  {
    Max(lo, Min(hi, x))
  }

  /** Scaling a non-negative length by a fraction in `[0, 1]` stays within it. */
  lemma ScaleUnit(p: real, m: real)
    requires 0.0 <= p
    ensures m >= 0.0 ==> 0.0 <= p * m
    ensures m >= 0.0 && p <= 1.0 ==> p * m <= m
  {
  }

  /** `b` raised to a natural power. */
  function Pow(b: real, k: nat): real {
    if k == 0 then 1.0 else b * Pow(b, k - 1)
  }
}
