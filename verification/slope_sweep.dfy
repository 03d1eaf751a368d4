/** The speed x grade sweep of main.py: one row per (speed, grade) pair,
    speeds outer and grades inner, each row taken from the segment model. */
module SlopeSweep {
  import opened SlopeEnergy

  /** The vehicle and segment parameters shared by every row of a sweep. */
  datatype SweepParams = SweepParams(
    massKg: real,
    eta: real,
    crr: real,
    regenEff: real,
    lengthKm: real)

  /** One tabulated row: the pair and what the segment model gives for it. */
  datatype SweepRow = SweepRow(
    speedKmh: real,
    gradePercent: real,
    totalForceN: real,
    batteryPowerKw: real,
    segmentEnergyKwh: real,
    consumptionKwhPer100Km: real)

  /** The source divides by eta and by the length only when it evaluates at
      least one pair, that is when both lists are non-empty. */
  predicate SweepDefined(p: SweepParams, speeds: seq<real>, grades: seq<real>)
  {
    speeds != [] && grades != [] ==> p.eta != 0.0 && p.lengthKm != 0.0
  }

  /** `sqrt` is a positive square root at every point the sweep needs. */
  predicate RootsFor(sqrt: real -> real, grades: seq<real>)
  {
    forall j :: 0 <= j < |grades| ==> ValidSqrtAt(sqrt, SecSquared(grades[j]))
  }

  /** The row for one (speed, grade) pair: the segment's force, battery power
      and energy, and the consumption scaled to 100 km. */
  function SweepRowAt(p: SweepParams, sqrt: real -> real, speedKmh: real, gradePercent: real): (row: SweepRow)
    requires p.eta != 0.0 && p.lengthKm != 0.0
    requires ValidSqrtAt(sqrt, SecSquared(gradePercent))
    ensures var seg := EvSegment(p.massKg, speedKmh, gradePercent, p.lengthKm, p.eta, p.crr, p.regenEff, sqrt);
      row.speedKmh == speedKmh && row.gradePercent == gradePercent &&
      row.totalForceN == seg.totalForceN && row.batteryPowerKw == seg.batteryPowerKw &&
      row.segmentEnergyKwh == seg.segmentEnergyKwh
    ensures row.consumptionKwhPer100Km * p.lengthKm == row.segmentEnergyKwh * 100.0
  {
    var out := EvSegment(p.massKg, speedKmh, gradePercent, p.lengthKm, p.eta, p.crr, p.regenEff, sqrt);
    var kwhPerKm := out.segmentEnergyKwh / p.lengthKm;
    SweepRow(speedKmh, gradePercent, out.totalForceN, out.batteryPowerKw,
             out.segmentEnergyKwh, kwhPerKm * 100.0)
  }

  /** The rows of one speed, in the order of `grades` (the inner loop). */
  function SpeedBlock(p: SweepParams, sqrt: real -> real, speedKmh: real, grades: seq<real>): seq<SweepRow>
    requires grades != [] ==> p.eta != 0.0 && p.lengthKm != 0.0
    requires RootsFor(sqrt, grades)
  {
    if grades == [] then []
    else
      SpeedBlock(p, sqrt, speedKmh, grades[..|grades| - 1]) +
      [SweepRowAt(p, sqrt, speedKmh, grades[|grades| - 1])]
  }

  /** The whole table: the blocks of every speed, in the order of `speeds`. */
  function Sweep(p: SweepParams, sqrt: real -> real, speeds: seq<real>, grades: seq<real>): seq<SweepRow>
    requires SweepDefined(p, speeds, grades) && RootsFor(sqrt, grades)
  {
    if speeds == [] then []
    else
      Sweep(p, sqrt, speeds[..|speeds| - 1], grades) +
      SpeedBlock(p, sqrt, speeds[|speeds| - 1], grades)
  }

  /** A block has one row per grade, row j being that of grade j. */
  lemma {:induction false} SpeedBlockAt(p: SweepParams, sqrt: real -> real, speedKmh: real, grades: seq<real>)
    requires grades != [] ==> p.eta != 0.0 && p.lengthKm != 0.0
    requires RootsFor(sqrt, grades)
    ensures var block := SpeedBlock(p, sqrt, speedKmh, grades);
      |block| == |grades| &&
      forall j :: 0 <= j < |grades| ==> block[j] == SweepRowAt(p, sqrt, speedKmh, grades[j])
  {
    if grades != [] {
      var prefix := grades[..|grades| - 1];
      SpeedBlockAt(p, sqrt, speedKmh, prefix);
    }
  }

  /** Multiplying by a non-negative integer keeps order. */
  lemma MulMono(a: int, b: int, n: int)
    requires n >= 0
    ensures a <= b ==> a * n <= b * n
  {
    assert b * n - a * n == (b - a) * n;
  }

  /** (a + 1) n = a n + n. */
  lemma MulSucc(a: int, n: int)
    ensures (a + 1) * n == a * n + n
  {
  }

  /** Row-major indexing: k = i * n + j with 0 <= j < n gives k / n = i and k % n = j. */
  lemma RowMajor(k: int, n: int, i: int, j: int)
    requires 0 <= j < n && k == i * n + j
    ensures k / n == i && k % n == j
  {
    var q, m := k / n, k % n;
    assert k == q * n + m;
    assert (i - q) * n == m - j;
    MulMono(1, i - q, n);
    MulMono(1, q - i, n);
    assert (q - i) * n == -((i - q) * n);
  }

  /** An index below count * n lies in row k / n < count of a row-major table. */
  lemma RowBound(k: int, n: int, count: int)
    requires n > 0 && 0 <= k < count * n
    ensures 0 <= k / n < count && 0 <= k % n < n
  {
    RowMajor(k, n, k / n, k % n);
    MulMono(count, k / n, n);
  }

  /** The table has |speeds| * |grades| rows and row k is the row of speed
      k / |grades| and grade k % |grades|. */
  lemma {:induction false} SweepAt(p: SweepParams, sqrt: real -> real, speeds: seq<real>, grades: seq<real>)
    requires SweepDefined(p, speeds, grades) && RootsFor(sqrt, grades)
    ensures var rows := Sweep(p, sqrt, speeds, grades);
      |rows| == |speeds| * |grades| &&
      forall k :: 0 <= k < |rows| ==>
        var i, j := k / |grades|, k % |grades|;
        0 <= i < |speeds| && rows[k] == SweepRowAt(p, sqrt, speeds[i], grades[j])
  {
    if speeds != [] {
      var n := |grades|;
      var front := speeds[..|speeds| - 1];
      var last := speeds[|speeds| - 1];
      SweepAt(p, sqrt, front, grades);
      SpeedBlockAt(p, sqrt, last, grades);
      var rows := Sweep(p, sqrt, speeds, grades);
      var head := Sweep(p, sqrt, front, grades);
      MulSucc(|front|, n);
      assert |rows| == |speeds| * n;
      forall k | 0 <= k < |rows| && 0 < n
        ensures 0 <= k / n < |speeds| && rows[k] == SweepRowAt(p, sqrt, speeds[k / n], grades[k % n])
      {
        RowBound(k, n, |speeds|);
        if k < |head| {
          assert rows[k] == head[k];
        } else {
          RowMajor(k, n, |front|, k - |head|);
        }
      }
    }
  }

  /** An empty speed list or an empty grade list gives an empty table. */
  lemma {:induction false} EmptySweep(p: SweepParams, sqrt: real -> real, speeds: seq<real>, grades: seq<real>)
    requires SweepDefined(p, speeds, grades) && RootsFor(sqrt, grades)
    requires speeds == [] || grades == []
    ensures Sweep(p, sqrt, speeds, grades) == []
  {
    if speeds != [] {
      EmptySweep(p, sqrt, speeds[..|speeds| - 1], grades);
    }
  }

  /** For a physical vehicle on a segment of positive length, no row reports
      a negative energy or consumption. */
  lemma SweepNonNegative(p: SweepParams, sqrt: real -> real, speeds: seq<real>, grades: seq<real>)
    requires p.eta > 0.0 && p.lengthKm > 0.0 && p.massKg >= 0.0 && p.crr >= 0.0
    requires RootsFor(sqrt, grades)
    ensures var rows := Sweep(p, sqrt, speeds, grades);
      forall k :: 0 <= k < |rows| ==>
        rows[k].segmentEnergyKwh >= 0.0 && rows[k].consumptionKwhPer100Km >= 0.0
  {
    var rows := Sweep(p, sqrt, speeds, grades);
    SweepAt(p, sqrt, speeds, grades);
    forall k | 0 <= k < |rows|
      ensures rows[k].segmentEnergyKwh >= 0.0 && rows[k].consumptionKwhPer100Km >= 0.0
    {
      var n := |grades|;
      RowBound(k, n, |speeds|);
      var v, g := speeds[k / n], grades[k % n];
      EnergyFloor(p.massKg, v, g, p.lengthKm, p.eta, p.crr, p.regenEff, sqrt);
      var c := rows[k].consumptionKwhPer100Km;
      assert c * p.lengthKm >= 0.0;
    }
  }

  /** Runs the nested speed/grade loops and appends one row per pair. */
  method ComputeSweep(p: SweepParams, sqrt: real -> real, speeds: seq<real>, grades: seq<real>)
    returns (rows: seq<SweepRow>)
    requires SweepDefined(p, speeds, grades) && RootsFor(sqrt, grades)
    ensures rows == Sweep(p, sqrt, speeds, grades)
    ensures |rows| == |speeds| * |grades|
    ensures forall k :: 0 <= k < |rows| ==>
      var i, j := k / |grades|, k % |grades|;
      0 <= i < |speeds| && rows[k] == SweepRowAt(p, sqrt, speeds[i], grades[j])
  {
    rows := [];
    for i := 0 to |speeds|
      invariant rows == Sweep(p, sqrt, speeds[..i], grades)
    {
      var v := speeds[i];
      for j := 0 to |grades|
        invariant rows == Sweep(p, sqrt, speeds[..i], grades) + SpeedBlock(p, sqrt, v, grades[..j])
      {
        var gr := grades[j];
        var row := SweepRowAt(p, sqrt, v, gr);
        assert grades[..j + 1][..j] == grades[..j];
        rows := rows + [row];
      }
      assert speeds[..i + 1][..i] == speeds[..i];
      assert grades[..|grades|] == grades;
    }
    assert speeds[..|speeds|] == speeds;
    SweepAt(p, sqrt, speeds, grades);
  }
}
