/** The meteorological function library of the Go service
    (atlas-iot-go/src/atlas-iot.go:20-67): the Magnus dew-point formula, the
    saturated and actual water-vapour pressures, and the Rothfusz heat-index
    polynomial.

    The natural logarithm and the exponential are not defined here: they are
    the fields of a `Transcendentals` value handed to every function, so no
    numeric value of them is ever assumed. Where IEEE double arithmetic would
    produce an infinity or NaN (a division by zero, the logarithm of a
    non-positive number) the model yields `NonFinite`. */
module Meteo {

  /** Absolute zero in degrees Celsius; also the "unavailable" sentinel. */
  const AbsoluteZero: real := -273.15

  // Dew point constants (Magnus formula, Arden Buck parameters)
  const A: real := 6.1121   // mbar
  const B: real := 18.678
  const C: real := 257.14   // degrees Celsius
  const D: real := 234.5    // degrees Celsius, declared but used by no formula

  // Heat index constants (Rothfusz regression)
  const C1: real := -8.78469475556
  const C2: real := 1.61139411
  const C3: real := 2.33854883889
  const C4: real := -0.14611605
  const C5: real := -0.012308094
  const C6: real := -0.016424827778
  const C7: real := 0.002211732
  const C8: real := 0.00072546
  const C9: real := -0.000003582

  /** The logarithm and exponential the computation relies on, left
      uninterpreted. */
  datatype Transcendentals = Transcendentals(ln: real -> real, exp: real -> real)

  /** The laws of `ln` and `exp` a caller may assume about the real functions. */
  ghost predicate LogLaws(m: Transcendentals) {
    && m.ln(1.0) == 0.0
    && (forall x :: 0.0 < x ==> m.exp(m.ln(x)) == x)
    && (forall x, y :: ExpAdds(m, x, y))
  }

  /** `exp` turns a sum into a product, at one pair of points. */
  ghost predicate ExpAdds(m: Transcendentals, x: real, y: real) {
    m.exp(x + y) == m.exp(x) * m.exp(y)
  }

  /** The logarithm is not positive on (0, 1]. */
  ghost predicate LnNonPositiveToOne(m: Transcendentals) {
    forall x :: 0.0 < x <= 1.0 ==> m.ln(x) <= 0.0
  }

  ghost predicate ExpPositive(m: Transcendentals) {
    forall x :: 0.0 < m.exp(x)
  }

  /** A double-precision result: a finite value, or an infinity/NaN. */
  datatype Float = Finite(value: real) | NonFinite

  /** Floating-point division. */
  function Quot(x: real, y: real): (q: Float)
    ensures q.Finite? <==> y != 0.0
    ensures q.Finite? ==> q.value * y == x
  {
    if y == 0.0 then NonFinite else Finite(x / y)
  }

  /** `math.Log`: finite exactly on positive arguments. */
  function Log(m: Transcendentals, x: real): (r: Float)
    ensures r.Finite? <==> 0.0 < x
  {
    if 0.0 < x then Finite(m.ln(x)) else NonFinite
  }

  /** The exponent `b*t/(c+t)` shared by `gamma` and `ps`. */
  function Ratio(t: real): Float {
    Quot(B * t, C + t)
  }

  /** `gamma(t, h) = ln(h/100) + b*t/(c+t)`. */
  function Gamma(m: Transcendentals, t: real, h: real): (g: Float)
    ensures g.Finite? <==> 0.0 < h && C + t != 0.0
  {
    match (Log(m, h / 100.0), Ratio(t))
    case (Finite(l), Finite(q)) => Finite(l + q)
    case _ => NonFinite
  }

  /** `dp(t, h) = c*gamma/(b - gamma)`, the dew point in degrees Celsius. */
  function DewPoint(m: Transcendentals, t: real, h: real): (d: Float)
    ensures d.Finite? <==> Gamma(m, t, h).Finite? && Gamma(m, t, h).value != B
  {
    match Gamma(m, t, h)
    case Finite(g) => Quot(C * g, B - g)
    case NonFinite => NonFinite
  }

  /** `ps(t, h) = a*exp(b*t/(c+t))`, the saturated vapour pressure in mbar.
      The humidity argument is accepted and ignored. */
  function SatPressure(m: Transcendentals, t: real, h: real): (p: Float)
    ensures p.Finite? <==> C + t != 0.0
  {
    match Ratio(t)
    case Finite(q) => Finite(A * m.exp(q))
    case NonFinite => NonFinite
  }

  /** `pa(t, h) = (h/100)*ps(t, h)`, the actual vapour pressure in mbar. */
  function ActualPressure(m: Transcendentals, t: real, h: real): (p: Float)
    ensures p.Finite? <==> C + t != 0.0
  {
    match SatPressure(m, t, h)
    case Finite(s) => Finite((h / 100.0) * s)
    case NonFinite => NonFinite
  }

  /** `hi(t, h)`: the nine-term Rothfusz polynomial. On either axis it
      reduces to a quadratic in the other variable. */
  function HeatIndex(t: real, h: real): (hi: real)
    ensures h == 0.0 ==> hi == C1 + C2 * t + C5 * (t * t)
    ensures t == 0.0 ==> hi == C1 + C3 * h + C6 * (h * h)
  {
    var t2 := t * t;
    var h2 := h * h;
    C1 + C2 * t + C3 * h + C4 * t * h + C5 * t2 + C6 * h2 + C7 * t2 * h + C8 * t * h2 + C9 * t2 * h2
  }

  /** `ps` depends on temperature only. */
  lemma SatPressureIgnoresHumidity(m: Transcendentals, t: real, h1: real, h2: real)
    ensures SatPressure(m, t, h1) == SatPressure(m, t, h2)
  {
  }

  /** Dry air has no vapour pressure, and saturated air has the saturated one. */
  lemma ActualPressureAtHumidityBounds(m: Transcendentals, t: real, h: real)
    ensures SatPressure(m, t, h).Finite? ==> ActualPressure(m, t, 0.0) == Finite(0.0)
    ensures ActualPressure(m, t, 100.0) == SatPressure(m, t, h)
  {
  }

  /** For a relative humidity in [0, 100] the actual vapour pressure lies
      between zero and the saturated one. */
  lemma ActualPressureBounded(m: Transcendentals, t: real, h: real)
    requires ExpPositive(m)
    requires 0.0 <= h <= 100.0
    requires C + t != 0.0
    ensures 0.0 <= ActualPressure(m, t, h).value <= SatPressure(m, t, h).value
  {
    var s := SatPressure(m, t, h).value;
    assert s == A * m.exp(Ratio(t).value);
    assert 0.0 < s;
    assert ActualPressure(m, t, h).value == (h / 100.0) * s;
  }

  /** At zero humidity and zero temperature only the constant term remains. */
  lemma HeatIndexAtOrigin()
    ensures HeatIndex(0.0, 0.0) == C1
  {
  }

  /** The heat index, read as a quadratic in humidity whose coefficients are
      quadratics in temperature. */
  function HeatIndexByHumidity(t: real, h: real): real {
    (C1 + C2 * t + C5 * t * t)
    + (C3 + C4 * t + C7 * t * t) * h
    + (C6 + C8 * t + C9 * t * t) * (h * h)
  }

  lemma HeatIndexIsQuadraticInHumidity(t: real, h: real)
    ensures HeatIndex(t, h) == HeatIndexByHumidity(t, h)
  {
    assert (C3 + C4 * t + C7 * t * t) * h == C3 * h + C4 * t * h + C7 * (t * t) * h;
    assert (C6 + C8 * t + C9 * t * t) * (h * h) == C6 * (h * h) + C8 * t * (h * h) + C9 * (t * t) * (h * h);
  }

  /** The dew point is the temperature at which the same air is saturated:
      `gamma` at the dew point and 100% humidity equals `gamma` of the
      reading. */
  lemma DewPointSaturates(m: Transcendentals, t: real, h: real)
    requires m.ln(1.0) == 0.0
    requires DewPoint(m, t, h).Finite?
    ensures Gamma(m, DewPoint(m, t, h).value, 100.0) == Gamma(m, t, h)
  {
    var g := Gamma(m, t, h).value;
    var d := DewPoint(m, t, h).value;
    assert d * (B - g) == C * g;
    var s := C + d;
    assert s * (B - g) == C * B by {
      assert s * (B - g) == C * (B - g) + d * (B - g);
    }
    assert s != 0.0;
    assert B * d * (B - g) == B * C * g;
    assert (B * d) == g * s by {
      assert (B * d) * (B - g) == (g * s) * (B - g);
    }
    assert Ratio(d) == Finite(g);
    assert Log(m, 100.0 / 100.0) == Finite(0.0);
  }

  /** The actual vapour pressure of a reading is the saturated vapour
      pressure at its dew point. */
  lemma ActualPressureIsSaturationAtDewPoint(m: Transcendentals, t: real, h: real)
    requires LogLaws(m)
    requires DewPoint(m, t, h).Finite?
    ensures SatPressure(m, DewPoint(m, t, h).value, h) == ActualPressure(m, t, h)
  {
    var d := DewPoint(m, t, h).value;
    DewPointSaturates(m, t, h);
    var l := m.ln(h / 100.0);
    var q := Ratio(t).value;
    assert Ratio(d) == Finite(l + q);
    assert ExpAdds(m, l, q);
    assert m.exp(l) == h / 100.0;
    assert m.exp(l + q) == (h / 100.0) * m.exp(q);
    var e := m.exp(q);
    assert SatPressure(m, d, h) == Finite(A * m.exp(l + q));
    assert A * m.exp(l + q) == A * ((h / 100.0) * e);
    assert A * ((h / 100.0) * e) == (h / 100.0) * (A * e);
    assert ActualPressure(m, t, h) == Finite((h / 100.0) * (A * e));
  }

  /** For a humidity in (0, 100] and a temperature above -c, `gamma` stays
      below b, so the dew point is finite. */
  lemma DewPointFiniteInRange(m: Transcendentals, t: real, h: real)
    requires LnNonPositiveToOne(m)
    requires 0.0 < h <= 100.0
    requires 0.0 < C + t
    ensures DewPoint(m, t, h).Finite?
  {
    var l := m.ln(h / 100.0);
    assert l <= 0.0;
    var q := Ratio(t).value;
    assert q * (C + t) == B * t;
    assert q < B by {
      assert B * t < B * (C + t);
      assert q * (C + t) < B * (C + t);
    }
    assert Gamma(m, t, h) == Finite(l + q);
  }

  /** At zero humidity the dew point is the logarithm of zero: not finite. */
  lemma DewPointAtZeroHumidity(m: Transcendentals, t: real)
    ensures DewPoint(m, t, 0.0) == NonFinite
  {
    assert Log(m, 0.0 / 100.0) == NonFinite;
  }
}
