/** The two tabulations of streamlit_app.py for one fixed speed: the radius
    sweep (required friction, lean angle and a "Sí"/"No" safety label per
    radius) and the binary safety map over friction coefficients x radii. */
module CorneringSweep {
  import opened Cornering

  /** One row of the radius table. */
  datatype RadiusRow = RadiusRow(
    radiusM: real,
    muRequired: real,
    thetaDeg: real,
    safeLabel: string)

  /** No radius is zero (the source divides by every radius). */
  predicate NonZero(rVals: seq<real>)
  {
    forall j :: 0 <= j < |rVals| ==> rVals[j] != 0.0
  }

  /** Every radius is positive and the radii never decrease, as the evenly
      spaced radii between a positive minimum and a larger maximum are. */
  predicate AscendingPositive(rVals: seq<real>)
  {
    (forall j :: 0 <= j < |rVals| ==> rVals[j] > 0.0) && Ascending(rVals)
  }

  /** The values never increase. */
  predicate NonIncreasing(s: seq<real>)
  {
    forall i, k :: 0 <= i < k < |s| ==> s[i] >= s[k]
  }

  /** The values never decrease. */
  predicate Ascending(s: seq<real>)
  {
    forall i, k :: 0 <= i < k < |s| ==> s[i] <= s[k]
  }

  /** The table's label for a safety flag. */
  function Label(isSafe: bool): (s: string)
    ensures s == "Sí" <==> isSafe
    ensures s == "No" <==> !isSafe
  {
    if isSafe then "Sí" else "No"
  }

  /** The required friction coefficient at every radius. */
  function MuMinValues(vMs: real, rVals: seq<real>): (mus: seq<real>)
    requires NonZero(rVals)
    ensures |mus| == |rVals|
    ensures forall j :: 0 <= j < |mus| ==> mus[j] == MuMin(vMs, rVals[j])
    ensures forall j :: 0 <= j < |mus| && rVals[j] > 0.0 ==> mus[j] >= 0.0
  {
    seq(|rVals|, j requires 0 <= j < |rVals| => MuMin(vMs, rVals[j]))
  }

  /** The radius table: one row per radius, in the order of the radii. */
  function RadiusSweep(vMs: real, muAvailable: real, rVals: seq<real>, atanDeg: real -> real): (rows: seq<RadiusRow>)
    requires NonZero(rVals)
    ensures |rows| == |rVals|
    ensures forall j :: 0 <= j < |rows| ==>
      rows[j].radiusM == rVals[j] &&
      rows[j].muRequired == MuMin(vMs, rVals[j]) &&
      rows[j].thetaDeg == ThetaDeg(vMs, rVals[j], atanDeg) &&
      rows[j].safeLabel == Label(Safe(muAvailable, MuMin(vMs, rVals[j])))
  {
    var mus := MuMinValues(vMs, rVals);
    seq(|rVals|, j requires 0 <= j < |rVals| =>
      RadiusRow(rVals[j], mus[j], ThetaDeg(vMs, rVals[j], atanDeg), Label(muAvailable >= mus[j])))
  }

  /** Over ascending positive radii the required friction never increases. */
  lemma MuMinValuesNonIncreasing(vMs: real, rVals: seq<real>)
    requires AscendingPositive(rVals)
    ensures NonIncreasing(MuMinValues(vMs, rVals))
  {
    var mus := MuMinValues(vMs, rVals);
    forall j, k | 0 <= j < k < |mus|
      ensures mus[j] >= mus[k]
    {
      MuMinNonIncreasingInRadius(vMs, rVals[j], rVals[k]);
    }
  }

  /** Over ascending positive radii, once a radius is labelled safe every
      larger radius is labelled safe too. */
  lemma SafeRadiiUpwardClosed(vMs: real, muAvailable: real, rVals: seq<real>, atanDeg: real -> real)
    requires AscendingPositive(rVals)
    ensures var rows := RadiusSweep(vMs, muAvailable, rVals, atanDeg);
      forall j, k :: 0 <= j < k < |rows| && rows[j].safeLabel == "Sí" ==> rows[k].safeLabel == "Sí"
  {
    MuMinValuesNonIncreasing(vMs, rVals);
  }

  /** One cell of the safety map: 1 when the friction coefficient covers
      the required one, 0 otherwise. */
  function SafeCell(mu: real, muRequired: real): (c: int)
    ensures c == 1 <==> Safe(mu, muRequired)
    ensures c == 0 <==> !Safe(mu, muRequired)
  {
    if mu >= muRequired then 1 else 0
  }

  /** The number of leading coefficients of `muGrid` below `muRequired`:
      the row at which a column of the map turns safe. */
  function Boundary(muGrid: seq<real>, muRequired: real): (t: nat)
    ensures t <= |muGrid|
  {
    if muGrid == [] || muGrid[0] >= muRequired then 0
    else 1 + Boundary(muGrid[1..], muRequired)
  }

  /** For ascending coefficients a column of the map is 0 below its
      boundary row and 1 from it on: a single frontier per radius. */
  lemma {:induction false} ColumnBoundary(muGrid: seq<real>, muRequired: real)
    requires Ascending(muGrid)
    ensures forall i :: 0 <= i < |muGrid| ==>
      (SafeCell(muGrid[i], muRequired) == 1 <==> i >= Boundary(muGrid, muRequired))
  {
    if muGrid != [] && muGrid[0] < muRequired {
      var tail := muGrid[1..];
      ColumnBoundary(tail, muRequired);
      forall i | 0 < i < |muGrid|
        ensures SafeCell(muGrid[i], muRequired) == 1 <==> i >= Boundary(muGrid, muRequired)
      {
        assert muGrid[i] == tail[i - 1];
      }
    }
  }

  /** For ascending coefficients a safe cell stays safe up its column. */
  lemma ColumnMonotone(muGrid: seq<real>, muRequired: real, i: int, k: int)
    requires Ascending(muGrid) && 0 <= i <= k < |muGrid|
    ensures SafeCell(muGrid[i], muRequired) == 1 ==> SafeCell(muGrid[k], muRequired) == 1
  {
    ColumnBoundary(muGrid, muRequired);
  }

  /** Over ascending positive radii a safe cell stays safe along its row. */
  lemma RowMonotone(mu: real, vMs: real, rVals: seq<real>, j: int, k: int)
    requires AscendingPositive(rVals) && 0 <= j <= k < |rVals|
    ensures var mus := MuMinValues(vMs, rVals);
      SafeCell(mu, mus[j]) == 1 ==> SafeCell(mu, mus[k]) == 1
  {
    MuMinValuesNonIncreasing(vMs, rVals);
  }

  /** Allocates a zero matrix of |muGrid| rows and |muMinVals| columns and
      overwrites row i with the cells of coefficient muGrid[i]. */
  method SafetyMatrix(muGrid: seq<real>, muMinVals: seq<real>) returns (matrix: array2<int>)
    ensures fresh(matrix)
    ensures matrix.Length0 == |muGrid| && matrix.Length1 == |muMinVals|
    ensures forall i, j :: 0 <= i < |muGrid| && 0 <= j < |muMinVals| ==>
      matrix[i, j] == SafeCell(muGrid[i], muMinVals[j])
    ensures Ascending(muGrid) ==> forall i, j :: 0 <= i < |muGrid| && 0 <= j < |muMinVals| ==>
      (matrix[i, j] == 1 <==> i >= Boundary(muGrid, muMinVals[j]))
    ensures NonIncreasing(muMinVals) ==> forall i, j, k :: 0 <= i < |muGrid| && 0 <= j <= k < |muMinVals| ==>
      (matrix[i, j] == 1 ==> matrix[i, k] == 1)
  {
    matrix := new int[|muGrid|, |muMinVals|]((i, j) => 0);
    for i := 0 to |muGrid|
      invariant forall i', j :: 0 <= i' < i && 0 <= j < |muMinVals| ==>
        matrix[i', j] == SafeCell(muGrid[i'], muMinVals[j])
    {
      for j := 0 to |muMinVals|
        invariant forall i', j' :: 0 <= i' < i && 0 <= j' < |muMinVals| ==>
          matrix[i', j'] == SafeCell(muGrid[i'], muMinVals[j'])
        invariant forall j' :: 0 <= j' < j ==> matrix[i, j'] == SafeCell(muGrid[i], muMinVals[j'])
      {
        matrix[i, j] := SafeCell(muGrid[i], muMinVals[j]);
      }
    }
    if Ascending(muGrid) {
      forall j | 0 <= j < |muMinVals|
        ensures forall i :: 0 <= i < |muGrid| ==>
          (SafeCell(muGrid[i], muMinVals[j]) == 1 <==> i >= Boundary(muGrid, muMinVals[j]))
      {
        ColumnBoundary(muGrid, muMinVals[j]);
      }
    }
  }

  /** The safety map of one speed over the radii `rVals`: the required
      friction at every radius, then the matrix filled from it. */
  method SafetyMap(vMs: real, rVals: seq<real>, muGrid: seq<real>) returns (matrix: array2<int>)
    requires NonZero(rVals)
    ensures fresh(matrix)
    ensures matrix.Length0 == |muGrid| && matrix.Length1 == |rVals|
    ensures forall i, j :: 0 <= i < |muGrid| && 0 <= j < |rVals| ==>
      (matrix[i, j] == 1 <==> Safe(muGrid[i], MuMin(vMs, rVals[j]))) &&
      (matrix[i, j] == 0 <==> !Safe(muGrid[i], MuMin(vMs, rVals[j])))
    ensures Ascending(muGrid) ==> forall i, j :: 0 <= i < |muGrid| && 0 <= j < |rVals| ==>
      (matrix[i, j] == 1 <==> i >= Boundary(muGrid, MuMin(vMs, rVals[j])))
    ensures AscendingPositive(rVals) ==> forall i, j, k :: 0 <= i < |muGrid| && 0 <= j <= k < |rVals| ==>
      (matrix[i, j] == 1 ==> matrix[i, k] == 1)
  {
    var muMinVals := MuMinValues(vMs, rVals);
    if AscendingPositive(rVals) {
      MuMinValuesNonIncreasing(vMs, rVals);
    }
    matrix := SafetyMatrix(muGrid, muMinVals);
  }

  /** A cell at the chosen coefficient mu = muAvailable is 1 exactly where
      the radius table says "Sí". */
  lemma MapRowMatchesTable(vMs: real, muAvailable: real, rVals: seq<real>, atanDeg: real -> real, j: int)
    requires NonZero(rVals) && 0 <= j < |rVals|
    ensures var rows := RadiusSweep(vMs, muAvailable, rVals, atanDeg);
      SafeCell(muAvailable, MuMinValues(vMs, rVals)[j]) == 1 <==> rows[j].safeLabel == "Sí"
  {
  }
}
