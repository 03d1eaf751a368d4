/** The cornering model of streamlit_app.py: a scooter in uniform circular
    motion, its centripetal acceleration and force, the minimum friction
    coefficient that keeps it from skidding, the lean angle, and the safety
    criterion. The host's atan-in-degrees is a parameter. */
module Cornering {

  /** Gravitational acceleration in m/s^2. */
  const G: real := 9.81

  /** km/h to m/s. */
  function KmhToMs(vKmh: real): (vMs: real)
    ensures vMs * 3.6 == vKmh
    ensures vMs >= 0.0 <==> vKmh >= 0.0
  {
    vKmh / 3.6
  }

  /** The product of two reals. Squares are written as `Product(x, x)` so
      that facts about them are stated once, for two independent factors. */
  function Product(x: real, y: real): real
  {
    x * y
  }

  /** The square `x ** 2`. */
  function Squared(x: real): real
  {
    Product(x, x)
  }

  /** Centripetal acceleration a_c = v^2 / r. */
  function Ac(vMs: real, r: real): (a: real)
    requires r != 0.0
    ensures a * r == Squared(vMs)
    ensures r > 0.0 ==> a >= 0.0
  {
    SquaredNonNegative(vMs);
    Squared(vMs) / r
  }

  /** Centripetal force F_c = m v^2 / r. */
  function Fc(mTotal: real, vMs: real, r: real): (f: real)
    requires r != 0.0
    ensures f == mTotal * Ac(vMs, r)
    ensures mTotal >= 0.0 && r > 0.0 ==> f >= 0.0
  {
    mTotal * Squared(vMs) / r
  }

  /** Minimum friction coefficient mu_min = v^2 / (r g). */
  function MuMin(vMs: real, r: real): (mu: real)
    requires r != 0.0
    ensures mu * G == Ac(vMs, r)
    ensures r > 0.0 ==> mu >= 0.0
  {
    Squared(vMs) / (r * G)
  }

  /** Required lean angle theta = degrees(atan(v^2 / (r g))); `atanDeg`
      stands for the host's atan followed by the conversion to degrees, so
      the tangent of the lean angle is the required friction coefficient. */
  function ThetaDeg(vMs: real, r: real, atanDeg: real -> real): (theta: real)
    requires r != 0.0
    ensures theta == atanDeg(MuMin(vMs, r))
  {
    atanDeg(Squared(vMs) / (r * G))
  }

  /** The safety criterion: available friction covers the required one. */
  predicate Safe(muAvailable: real, muRequired: real): (isSafe: bool)
    ensures isSafe <==> muAvailable >= muRequired
    ensures !isSafe <==> muRequired > muAvailable
  {
    muAvailable >= muRequired
  }

  /** Normal force on a flat road, N = m g. */
  function NormalForce(mTotal: real): (n: real)
    ensures mTotal > 0.0 ==> n > 0.0
    ensures n / G == mTotal
  {
    mTotal * G
  }

  /** Largest static friction force, F_f,max = mu N. */
  function MaxFriction(mu: real, normalN: real): (f: real)
    ensures normalN > 0.0 ==> (f >= 0.0 <==> mu >= 0.0)
    ensures normalN != 0.0 ==> f / normalN == mu
    ensures normalN == 0.0 ==> f == 0.0
  {
    CancelFactor(mu, normalN);
    mu * normalN
  }

  ghost predicate StrictlyIncreasing(f: real -> real)
  {
    forall x, y :: x < y ==> f(x) < f(y)
  }

  /** The force criterion F_c <= F_f,max agrees with the coefficient
      criterion mu >= mu_min for every positive mass. */
  lemma FrictionCriterion(mTotal: real, mu: real, vMs: real, r: real)
    requires mTotal > 0.0 && r != 0.0
    ensures Fc(mTotal, vMs, r) <= MaxFriction(mu, NormalForce(mTotal)) <==> Safe(mu, MuMin(vMs, r))
  {
    var m := MuMin(vMs, r);
    var k := NormalForce(mTotal);
    assert Ac(vMs, r) == m * G;
    assert Fc(mTotal, vMs, r) == mTotal * (m * G) == k * m;
    assert MaxFriction(mu, k) == k * mu;
    ScaledCompare(Fc(mTotal, vMs, r), MaxFriction(mu, k), k, m, mu);
  }

  /** Multiplying by the same positive factor keeps the order of two values. */
  lemma ScaledCompare(a: real, b: real, k: real, x: real, y: real)
    requires k > 0.0 && a == k * x && b == k * y
    ensures a <= b <==> x <= y
  {
    assert k * y - k * x == k * (y - x);
    assert y - x >= 0.0 ==> k * (y - x) >= 0.0;
    assert y - x < 0.0 ==> k * (y - x) < 0.0;
  }

  /** A non-zero factor cancels: (a b) / b = a. */
  lemma CancelFactor(a: real, b: real)
    ensures b != 0.0 ==> (a * b) / b == a
  {
  }

  /** The product of two reals of the same strict sign is positive. */
  lemma ProductPositive(x: real, y: real)
    requires (x > 0.0 && y > 0.0) || (x < 0.0 && y < 0.0)
    ensures Product(x, y) > 0.0
  {
    if x < 0.0 {
      assert x * y == (-x) * (-y);
    }
  }

  /** Products of non-negative reals grow when both factors grow. */
  lemma ProductIncreasing(a: real, b: real, c: real, d: real)
    requires 0.0 <= a < b && 0.0 <= c < d
    ensures Product(a, c) < Product(b, d)
  {
    assert a * c <= b * c;
    assert b * c < b * d;
  }

  /** A square is never negative. */
  lemma SquaredNonNegative(x: real)
    ensures Squared(x) >= 0.0
  {
    if x != 0.0 {
      ProductPositive(x, x);
    }
  }

  /** Squaring is strictly increasing on the non-negative reals. */
  lemma SquaredIncreasing(x: real, y: real)
    requires 0.0 <= x < y
    ensures Squared(x) < Squared(y)
  {
    ProductIncreasing(x, y, x, y);
  }

  /** A positive value over a positive divisor is positive. */
  lemma QuotientPositive(a: real, b: real)
    requires a > 0.0 && b > 0.0
    ensures a / b > 0.0
  {
  }

  /** A positive value over a larger positive divisor is smaller. */
  lemma QuotientDecreasing(a: real, b: real, c: real)
    requires a > 0.0 && 0.0 < b < c
    ensures a / b > a / c
  {
    var q1, q2 := a / b, a / c;
    assert q1 * b == a && q2 * c == a;
    assert q2 * b < q2 * c;
  }

  /** Dividing by the same positive divisor keeps strict order. */
  lemma QuotientIncreasing(a: real, b: real, c: real)
    requires a < b && c > 0.0
    ensures a / c < b / c
  {
    assert b / c - a / c == (b - a) / c;
    QuotientPositive(b - a, c);
  }

  /** A moving scooter needs a positive friction coefficient on any turn. */
  lemma MuMinPositive(vMs: real, r: real)
    requires vMs != 0.0 && r > 0.0
    ensures MuMin(vMs, r) > 0.0
  {
    ProductPositive(vMs, vMs);
    QuotientPositive(Squared(vMs), r * G);
  }

  /** For a moving scooter, a wider turn needs strictly less friction. */
  lemma MuMinDecreasingInRadius(vMs: real, r1: real, r2: real)
    requires vMs != 0.0 && 0.0 < r1 < r2
    ensures MuMin(vMs, r1) > MuMin(vMs, r2)
  {
    ProductPositive(vMs, vMs);
    QuotientDecreasing(Squared(vMs), r1 * G, r2 * G);
  }

  /** At any speed, a wider turn never needs more friction. */
  lemma MuMinNonIncreasingInRadius(vMs: real, r1: real, r2: real)
    requires 0.0 < r1 <= r2
    ensures MuMin(vMs, r1) >= MuMin(vMs, r2)
  {
    if vMs != 0.0 && r1 < r2 {
      MuMinDecreasingInRadius(vMs, r1, r2);
    }
  }

  /** On a fixed turn, a faster scooter needs strictly more friction. */
  lemma MuMinIncreasingInSpeed(v1: real, v2: real, r: real)
    requires r > 0.0 && 0.0 <= v1 < v2
    ensures MuMin(v1, r) < MuMin(v2, r)
  {
    SquaredIncreasing(v1, v2);
    QuotientIncreasing(Squared(v1), Squared(v2), r * G);
  }

  /** A strictly increasing atan-in-degrees makes the required lean angle
      decrease strictly with the radius. */
  lemma ThetaDecreasingInRadius(vMs: real, r1: real, r2: real, atanDeg: real -> real)
    requires StrictlyIncreasing(atanDeg)
    requires vMs != 0.0 && 0.0 < r1 < r2
    ensures ThetaDeg(vMs, r1, atanDeg) > ThetaDeg(vMs, r2, atanDeg)
  {
    MuMinDecreasingInRadius(vMs, r1, r2);
  }

  /** The single-turn report: every figure the page shows for one radius. */
  datatype CaseReport = CaseReport(
    muRequired: real,
    thetaDeg: real,
    acMs2: real,
    fcN: real,
    normalN: real,
    maxFrictionN: real,
    isSafe: bool)

  function EvaluateCase(mTotal: real, vMs: real, rCase: real, muAvailable: real,
                        atanDeg: real -> real): (c: CaseReport)
    requires rCase != 0.0
    ensures c.acMs2 == Ac(vMs, rCase) && c.muRequired == MuMin(vMs, rCase)
    ensures c.thetaDeg == ThetaDeg(vMs, rCase, atanDeg) && c.fcN == Fc(mTotal, vMs, rCase)
    ensures c.normalN == NormalForce(mTotal) && c.maxFrictionN == MaxFriction(muAvailable, c.normalN)
    ensures c.fcN == mTotal * c.acMs2 && c.muRequired * G == c.acMs2
    ensures c.isSafe <==> muAvailable >= c.muRequired
    ensures mTotal > 0.0 ==> (c.isSafe <==> c.fcN <= c.maxFrictionN)
    ensures rCase > 0.0 ==> c.acMs2 >= 0.0 && c.muRequired >= 0.0
  {
    var muReq := MuMin(vMs, rCase);
    var theta := ThetaDeg(vMs, rCase, atanDeg);
    var a := Ac(vMs, rCase);
    var f := Fc(mTotal, vMs, rCase);
    var n := NormalForce(mTotal);
    var fMax := MaxFriction(muAvailable, n);
    assert mTotal > 0.0 ==> (Safe(muAvailable, muReq) <==> f <= fMax) by {
      if mTotal > 0.0 { FrictionCriterion(mTotal, muAvailable, vMs, rCase); }
    }
    CaseReport(muReq, theta, a, f, n, fMax, Safe(muAvailable, muReq))
  }

  /** A scooter at 25 km/h on a 15 m turn needs mu_min in (0.327, 0.328):
      safe on dry pavement (0.80), unsafe on ice (0.10). */
  lemma ScooterAt25KmhOn15m()
    ensures 0.327 < MuMin(KmhToMs(25.0), 15.0) < 0.328
    ensures Safe(0.80, MuMin(KmhToMs(25.0), 15.0))
    ensures !Safe(0.10, MuMin(KmhToMs(25.0), 15.0))
  {
  }
}
