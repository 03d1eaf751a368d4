/** The electric-vehicle slope model of main.py: a grade percentage becomes
    sin and cos of the slope angle, and one road segment becomes forces, power
    and energy, with a simplified regenerative credit on descents.
    Everything is exact real arithmetic; the host square root is a parameter. */
module SlopeEnergy {

  /** Gravitational acceleration in m/s^2. */
  const Gravity: real := 9.81
  /** km/h per m/s. */
  const KmhPerMs: real := 3.6
  /** Joules per kWh. */
  const JoulesPerKwh: real := 3600000.0

  /** sin and cos of the slope angle. */
  datatype Trig = Trig(sin: real, cos: real)

  /** Forces (N), powers (kW) and energies (kWh) of one road segment. */
  datatype SegmentResult = SegmentResult(
    gradeForceN: real,
    rollingForceN: real,
    totalForceN: real,
    mechPowerKw: real,
    batteryPowerKw: real,
    segmentEnergyKwh: real,
    regenEnergyKwh: real)

  /** `sqrt` behaves as the positive square root at `x`. */
  predicate ValidSqrtAt(sqrt: real -> real, x: real)
  {
    sqrt(x) > 0.0 && sqrt(x) * sqrt(x) == x
  }

  /** The grade read as tan of the slope angle (6 % is tan = 0.06). */
  function Tan(gradePercent: real): real
  {
    gradePercent / 100.0
  }

  /** sec^2 = 1 + tan^2: the argument the source hands to the square root. */
  function SecSquared(gradePercent: real): real
  {
    1.0 + Tan(gradePercent) * Tan(gradePercent)
  }

  /** The larger of two reals (the host's two-argument max). */
  function Max(a: real, b: real): (m: real)
    ensures m >= a && m >= b && (m == a || m == b)
  {
    if b > a then b else a
  }

  /** sin and cos of the slope angle without computing the angle:
      cos = 1 / sqrt(1 + tan^2), sin = tan * cos. */
  function SlopeTrig(gradePercent: real, sqrt: real -> real): (t: Trig)
    requires ValidSqrtAt(sqrt, SecSquared(gradePercent))
    ensures t.cos > 0.0
    ensures t.sin / t.cos == gradePercent / 100.0
    ensures t.sin > 0.0 <==> gradePercent > 0.0
    ensures t.sin < 0.0 <==> gradePercent < 0.0
    ensures t.sin == 0.0 <==> gradePercent == 0.0
  {
    var tan := Tan(gradePercent);
    assert 1.0 + tan * tan == SecSquared(gradePercent);
    var cos := 1.0 / sqrt(1.0 + tan * tan);
    Trig(tan * cos, cos)
  }

  /** sin^2 + cos^2 = 1 holds exactly for the pair SlopeTrig derives. */
  lemma PythagoreanIdentity(gradePercent: real, sqrt: real -> real)
    requires ValidSqrtAt(sqrt, SecSquared(gradePercent))
    ensures var t := SlopeTrig(gradePercent, sqrt); t.sin * t.sin + t.cos * t.cos == 1.0
  {
    var tan := Tan(gradePercent);
    var s := sqrt(SecSquared(gradePercent));
    var c := 1.0 / s;
    assert c * s == 1.0;
    assert (tan * c) * (tan * c) + c * c == (tan * tan + 1.0) * (c * c);
    assert (tan * tan + 1.0) * (c * c) == (s * s) * (c * c);
    assert (s * s) * (c * c) == (c * s) * (c * s);
  }

  /** On a flat road the slope angle is zero: sin = 0 and cos = 1. */
  lemma FlatTrig(sqrt: real -> real)
    requires ValidSqrtAt(sqrt, SecSquared(0.0))
    ensures SlopeTrig(0.0, sqrt) == Trig(0.0, 1.0)
  {
    var s := sqrt(SecSquared(0.0));
    assert s * s == 1.0;
  }

  /** Battery energy in kWh spent to push `forceN` over `lengthKm` with
      drivetrain efficiency `eta`: F * L / eta, converted from joules. */
  function TractionEnergyKwh(forceN: real, lengthKm: real, eta: real): real
    requires eta != 0.0
  {
    (forceN * (lengthKm * 1000.0)) / eta / JoulesPerKwh
  }

  /** Potential energy credited back to the battery on a descent of
      `lengthKm` whose sin is `sin` (negative downhill), in kWh. */
  function RegenCreditKwh(massKg: real, lengthKm: real, sin: real, regenEff: real): real
  {
    var dropM := -(lengthKm * 1000.0) * sin;
    regenEff * massKg * Gravity * dropM / JoulesPerKwh
  }

  /** One road segment of `lengthKm` at `speedKmh` on `gradePercent`:
      grade force m g sin, rolling force Crr m g cos, their sum, the power at
      the wheels and at the battery, and the battery energy. On a descent the
      regenerative credit is subtracted and the result clamped at zero. */
  function EvSegment(massKg: real, speedKmh: real, gradePercent: real, lengthKm: real,
                     eta: real, crr: real, regenEff: real, sqrt: real -> real): (r: SegmentResult)
    requires eta != 0.0
    requires ValidSqrtAt(sqrt, SecSquared(gradePercent))
    ensures var t := SlopeTrig(gradePercent, sqrt);
      r.gradeForceN == massKg * Gravity * t.sin &&
      r.rollingForceN == crr * massKg * Gravity * t.cos &&
      (gradePercent < 0.0 ==> r.regenEnergyKwh == RegenCreditKwh(massKg, lengthKm, t.sin, regenEff))
    ensures r.totalForceN == r.gradeForceN + r.rollingForceN
    ensures massKg > 0.0 ==> (r.gradeForceN > 0.0 <==> gradePercent > 0.0)
    ensures massKg > 0.0 ==> (r.gradeForceN < 0.0 <==> gradePercent < 0.0)
    ensures gradePercent == 0.0 ==> r.gradeForceN == 0.0
    ensures crr >= 0.0 && massKg >= 0.0 ==> r.rollingForceN >= 0.0
    ensures r.mechPowerKw * 1000.0 == r.totalForceN * (speedKmh / KmhPerMs)
    ensures r.batteryPowerKw * eta == r.mechPowerKw
    ensures gradePercent >= 0.0 ==>
      r.regenEnergyKwh == 0.0 &&
      r.segmentEnergyKwh == TractionEnergyKwh(r.totalForceN, lengthKm, eta)
    ensures gradePercent < 0.0 ==>
      r.segmentEnergyKwh == Max(0.0, TractionEnergyKwh(r.totalForceN, lengthKm, eta) - r.regenEnergyKwh) &&
      r.segmentEnergyKwh >= 0.0
    ensures gradePercent < 0.0 && regenEff >= 0.0 && massKg >= 0.0 && lengthKm >= 0.0 ==>
      r.regenEnergyKwh >= 0.0
  {
    var v := speedKmh / KmhPerMs;
    var trig := SlopeTrig(gradePercent, sqrt);
    var fGrade := massKg * Gravity * trig.sin;
    var fRolling := crr * massKg * Gravity * trig.cos;
    var fTotal := fGrade + fRolling;
    var pMech := fTotal * v;
    var pBattery := pMech / eta;
    var energy := TractionEnergyKwh(fTotal, lengthKm, eta);
    assert crr >= 0.0 && massKg >= 0.0 ==> crr * massKg >= 0.0;
    if gradePercent < 0.0 then
      var regen := RegenCreditKwh(massKg, lengthKm, trig.sin, regenEff);
      assert regenEff >= 0.0 && massKg >= 0.0 && lengthKm >= 0.0 ==> regen >= 0.0 by {
        if regenEff >= 0.0 && massKg >= 0.0 && lengthKm >= 0.0 {
          assert -(lengthKm * 1000.0) * trig.sin >= 0.0;
          assert regenEff * massKg >= 0.0;
        }
      }
      SegmentResult(fGrade, fRolling, fTotal, pMech / 1000.0, pBattery / 1000.0,
                    Max(0.0, energy - regen), regen)
    else
      SegmentResult(fGrade, fRolling, fTotal, pMech / 1000.0, pBattery / 1000.0,
                    energy, 0.0)
  }

  /** Flat road: no grade force, all of the force is rolling resistance
      Crr m g, and no regenerative credit. */
  lemma FlatRoad(massKg: real, speedKmh: real, lengthKm: real, eta: real, crr: real,
                 regenEff: real, sqrt: real -> real)
    requires eta != 0.0
    requires ValidSqrtAt(sqrt, SecSquared(0.0))
    ensures var r := EvSegment(massKg, speedKmh, 0.0, lengthKm, eta, crr, regenEff, sqrt);
      r.gradeForceN == 0.0 && r.totalForceN == r.rollingForceN &&
      r.rollingForceN == crr * massKg * Gravity && r.regenEnergyKwh == 0.0
  {
    FlatTrig(sqrt);
  }

  /** The segment energy is never negative for a physical vehicle: uphill the
      force is already non-negative, downhill the result is clamped. */
  lemma EnergyFloor(massKg: real, speedKmh: real, gradePercent: real, lengthKm: real,
                    eta: real, crr: real, regenEff: real, sqrt: real -> real)
    requires eta > 0.0 && lengthKm >= 0.0 && massKg >= 0.0 && crr >= 0.0
    requires ValidSqrtAt(sqrt, SecSquared(gradePercent))
    ensures EvSegment(massKg, speedKmh, gradePercent, lengthKm, eta, crr, regenEff, sqrt).segmentEnergyKwh >= 0.0
  {
    var r := EvSegment(massKg, speedKmh, gradePercent, lengthKm, eta, crr, regenEff, sqrt);
    if gradePercent >= 0.0 {
      assert r.gradeForceN >= 0.0 by {
        var t := SlopeTrig(gradePercent, sqrt);
        assert t.sin >= 0.0;
        assert massKg * Gravity >= 0.0;
      }
      var f := r.totalForceN;
      assert f >= 0.0;
      assert f * (lengthKm * 1000.0) >= 0.0;
    }
  }

  /** The regenerative credit is exactly zero unless the road descends, and
      on a descent the segment energy is zero precisely when the credit
      covers the traction energy. */
  lemma RegenOnlyOnDescent(massKg: real, speedKmh: real, gradePercent: real, lengthKm: real,
                           eta: real, crr: real, regenEff: real, sqrt: real -> real)
    requires eta != 0.0
    requires ValidSqrtAt(sqrt, SecSquared(gradePercent))
    ensures var r := EvSegment(massKg, speedKmh, gradePercent, lengthKm, eta, crr, regenEff, sqrt);
      var raw := TractionEnergyKwh(r.totalForceN, lengthKm, eta);
      (gradePercent >= 0.0 ==> r.regenEnergyKwh == 0.0) &&
      (gradePercent < 0.0 ==> (r.segmentEnergyKwh == 0.0 <==> r.regenEnergyKwh >= raw)) &&
      (gradePercent < 0.0 && regenEff > 0.0 && massKg > 0.0 && lengthKm > 0.0 ==> r.regenEnergyKwh > 0.0)
  {
    var r := EvSegment(massKg, speedKmh, gradePercent, lengthKm, eta, crr, regenEff, sqrt);
    if gradePercent < 0.0 && regenEff > 0.0 && massKg > 0.0 && lengthKm > 0.0 {
      var t := SlopeTrig(gradePercent, sqrt);
      var drop := -(lengthKm * 1000.0) * t.sin;
      assert drop > 0.0;
      assert regenEff * massKg > 0.0;
      assert regenEff * massKg * Gravity > 0.0;
      assert regenEff * massKg * Gravity * drop > 0.0;
    }
  }

  /** Away from descents, energy is battery power times travel time:
      E [kWh] = P_bat [kW] * (L_km / v_kmh) [h]. */
  lemma EnergyIsPowerTimesTime(massKg: real, speedKmh: real, gradePercent: real, lengthKm: real,
                               eta: real, crr: real, regenEff: real, sqrt: real -> real)
    requires eta != 0.0 && speedKmh != 0.0 && gradePercent >= 0.0
    requires ValidSqrtAt(sqrt, SecSquared(gradePercent))
    ensures var r := EvSegment(massKg, speedKmh, gradePercent, lengthKm, eta, crr, regenEff, sqrt);
      r.segmentEnergyKwh == r.batteryPowerKw * (lengthKm / speedKmh)
  {
    var r := EvSegment(massKg, speedKmh, gradePercent, lengthKm, eta, crr, regenEff, sqrt);
    var f := r.totalForceN;
    var hours := lengthKm / speedKmh;
    assert hours * speedKmh == lengthKm;
    calc {
      r.batteryPowerKw * hours;
      (f * (speedKmh / KmhPerMs) / eta / 1000.0) * hours;
      f * (speedKmh * hours) / (KmhPerMs * eta * 1000.0);
      f * lengthKm / (KmhPerMs * eta * 1000.0);
      (f * (lengthKm * 1000.0)) / eta / JoulesPerKwh;
    }
  }

  /** A factor whose product with a positive value is positive is itself positive. */
  lemma PositiveFactor(p: real, q: real)
    requires q > 0.0 && p * q > 0.0
    ensures p > 0.0
  {
    assert p <= 0.0 ==> p * q <= 0.0;
  }

  /** A positive root of x lies strictly between any lo, hi >= 0 with lo^2 < x < hi^2. */
  lemma RootBetween(s: real, x: real, lo: real, hi: real)
    requires s > 0.0 && s * s == x && lo >= 0.0 && hi >= 0.0 && lo * lo < x < hi * hi
    ensures lo < s < hi
  {
    assert s * s - lo * lo == (s - lo) * (s + lo);
    PositiveFactor(s - lo, s + lo);
    assert hi * hi - s * s == (hi - s) * (hi + s);
    PositiveFactor(hi - s, hi + s);
  }

  /** A 1700 kg car at 70 km/h climbing 2 km of a 6 % grade with eta = 0.90,
      Crr = 0.010 and regen efficiency 0.6: the grade force is about 999 N
      and the segment draws about 0.719 kWh. */
  lemma SixPercentClimb(sqrt: real -> real)
    requires ValidSqrtAt(sqrt, SecSquared(6.0))
    ensures var r := EvSegment(1700.0, 70.0, 6.0, 2.0, 0.90, 0.010, 0.6, sqrt);
      998.0 < r.gradeForceN < 1000.0 && 0.719 < r.segmentEnergyKwh < 0.72
  {
    var s := sqrt(SecSquared(6.0));
    RootBetween(s, 1.0036, 1.0017, 1.0018);
    var t := SlopeTrig(6.0, sqrt);
    assert t.cos == 1.0 / s;
    assert 0.9982 < t.cos < 0.9984;
  }
}
