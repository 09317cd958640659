/**
 * Teams and the pairwise distance table between their stadiums.
 *
 * The great-circle formula itself works in floating point with trigonometry;
 * it enters the model as the parameter `gc` (latitude and longitude of two
 * points to kilometres), so every statement below holds for any such formula.
 */
module Distance {

  /** A participating team and the coordinates of its stadium, in degrees. */
  datatype Team = Team(id: int, name: string, lat: real, lon: real)

  /** D is an n x n table. */
  predicate IsMatrix(D: seq<seq<real>>, n: nat) {
    |D| == n && forall i :: 0 <= i < n ==> |D[i]| == n
  }

  /** Every entry of an n x n table is non-negative. */
  predicate NonNegative(D: seq<seq<real>>) {
    forall i, j :: 0 <= i < |D| && 0 <= j < |D[i]| ==> D[i][j] >= 0.0
  }

  /** The table reads the same in both directions. */
  predicate Symmetric(D: seq<seq<real>>)
    requires IsMatrix(D, |D|)
  {
    forall i, j :: 0 <= i < |D| && 0 <= j < |D| ==> D[i][j] == D[j][i]
  }

  /** The distance formula does not depend on the direction of travel. */
  ghost predicate SymmetricFormula(gc: (real, real, real, real) -> real) {
    forall a, b, c, d :: gc(a, b, c, d) == gc(c, d, a, b)
  }

  /**
   * Row by row, entry by entry: the diagonal stays 0 and every other entry is
   * the formula applied to the two stadiums.
   */
  method DistanceMatrix(teams: seq<Team>, gc: (real, real, real, real) -> real) returns (D: seq<seq<real>>)
    ensures IsMatrix(D, |teams|)
    ensures forall i :: 0 <= i < |teams| ==> D[i][i] == 0.0
    ensures forall i, j :: 0 <= i < |teams| && 0 <= j < |teams| && i != j ==>
      D[i][j] == gc(teams[i].lat, teams[i].lon, teams[j].lat, teams[j].lon)
    ensures SymmetricFormula(gc) ==> Symmetric(D)
    ensures (forall a, b, c, d :: gc(a, b, c, d) >= 0.0) ==> NonNegative(D)
  {
    var n := |teams|;
    D := [];
    for i := 0 to n
      invariant |D| == i
      invariant forall r :: 0 <= r < i ==> |D[r]| == n && D[r][r] == 0.0
      invariant forall r, j :: 0 <= r < i && 0 <= j < n && r != j ==>
        D[r][j] == gc(teams[r].lat, teams[r].lon, teams[j].lat, teams[j].lon)
    {
      var row := seq(n, _ => 0.0);
      for j := 0 to n
        invariant |row| == n && row[i] == 0.0
        invariant forall c :: 0 <= c < j && c != i ==> row[c] == gc(teams[i].lat, teams[i].lon, teams[c].lat, teams[c].lon)
        invariant forall c :: j <= c < n ==> row[c] == 0.0
      {
        if i == j {
          continue;
        }
        row := row[j := gc(teams[i].lat, teams[i].lon, teams[j].lat, teams[j].lon)];
      }
      D := D + [row];
    }
    if SymmetricFormula(gc) {
      forall i, j | 0 <= i < n && 0 <= j < n
        ensures D[i][j] == D[j][i]
      {
        var ti, tj := teams[i], teams[j];
        assert gc(ti.lat, ti.lon, tj.lat, tj.lon) == gc(tj.lat, tj.lon, ti.lat, ti.lon);
      }
    }
    if forall a, b, c, d :: gc(a, b, c, d) >= 0.0 {
      forall i, j | 0 <= i < n && 0 <= j < n
        ensures D[i][j] >= 0.0
      {
        var ti, tj := teams[i], teams[j];
        assert gc(ti.lat, ti.lon, tj.lat, tj.lon) >= 0.0;
      }
    }
  }
}
