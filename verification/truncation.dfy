/** The two-decimal truncation idiom `(int)(x*100)/100` used when the derived
    values of a reading are stored (atlas-iot-go/src/atlas-iot.go:136-139).
    Go's float-to-int conversion truncates toward zero, which differs from
    both Dafny's `Floor` (toward minus infinity) and rounding. */
module Truncation {

  function Abs(x: real): real {
    if x < 0.0 then -x else x
  }

  /** Go's `int(x)` conversion of a finite value: drop the fractional part. */
  function TruncateToInt(x: real): (k: int)
    ensures 0.0 <= x ==> 0 <= k && k as real <= x < k as real + 1.0
    ensures x < 0.0 ==> k <= 0 && k as real - 1.0 < x <= k as real
  {
    if x >= 0.0 then x.Floor else -((-x).Floor)
  }

  /** A real that is a whole number of hundredths. */
  predicate IsCents(x: real) {
    (x * 100.0).Floor as real == x * 100.0
  }

  /** `r` is a whole number of hundredths, within 0.01 of `x`, on the same
      side of zero and no farther from it. */
  predicate TruncatedFrom(r: real, x: real) {
    && Abs(r) <= Abs(x)
    && Abs(x - r) < 0.01
    && (0.0 <= x ==> 0.0 <= r)
    && (x < 0.0 ==> r <= 0.0)
    && IsCents(r)
  }

  /** `(int)(x*100)/100`: keep two decimals, dropping the rest toward zero. */
  function Trunc2(x: real): (r: real)
    ensures TruncatedFrom(r, x)
  {
    var k := TruncateToInt(x * 100.0);
    assert (k as real / 100.0) * 100.0 == k as real;
    k as real / 100.0
  }

  /** Truncating an already-truncated value changes nothing. */
  lemma Trunc2Idempotent(x: real)
    ensures Trunc2(Trunc2(x)) == Trunc2(x)
  {
    var y := Trunc2(x);
    var k := TruncateToInt(x * 100.0);
    assert y * 100.0 == k as real;
    assert TruncateToInt(y * 100.0) == k;
  }

  /** Reference characterisation: among all multiples of 0.01 lying between
      zero and `x`, `Trunc2(x)` is the one farthest from zero. */
  lemma Trunc2IsNearestCentTowardZero(x: real, k: int)
    ensures 0.0 <= x && 0 <= k && k as real / 100.0 <= x ==> k as real / 100.0 <= Trunc2(x)
    ensures x < 0.0 && k <= 0 && x <= k as real / 100.0 ==> Trunc2(x) <= k as real / 100.0
  {
    var j := TruncateToInt(x * 100.0);
    assert Trunc2(x) == j as real / 100.0;
    if 0.0 <= x && 0 <= k && k as real / 100.0 <= x {
      assert k as real <= x * 100.0;
      assert k <= j;
    }
    if x < 0.0 && k <= 0 && x <= k as real / 100.0 {
      assert x * 100.0 <= k as real;
      assert j <= k;
    }
  }

  /** Truncation is not rounding: 23.4999 keeps 23.49, and -0.019 goes up to
      -0.01 rather than down to -0.02. */
  lemma Trunc2Examples()
    ensures Trunc2(23.4999) == 23.49
    ensures Trunc2(-0.019) == -0.01
    ensures Trunc2(9.2799) == 9.27
  {
    assert TruncateToInt(2349.99) == 2349;
    assert TruncateToInt(-1.9) == -1;
    assert TruncateToInt(927.99) == 927;
  }
}
