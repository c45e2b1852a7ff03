/**
 * The two heuristics: solitaire_chinois.py scores a board by its peg count
 * plus the summed Manhattan distance of its pegs to the target cell;
 * final.py (both `heuristic` and `heuristic_A_star`, whose bodies are the
 * same) uses the distance to the centre cell (3, 3) whatever the target.
 */
module Heuristic {
  import opened Board

  function Manhattan(x: int, y: int, tx: int, ty: int): nat
  {
    Abs(x - tx) + Abs(y - ty)
  }

  /** The summed distance to (tx, ty) of the pegs among the first n cells of row r, row index x. */
  function RowDistance(r: seq<int>, x: int, tx: int, ty: int, n: nat): nat
    requires n <= |r|
  {
    if n == 0 then 0
    else RowDistance(r, x, tx, ty, n - 1) + (if r[n - 1] == Peg then Manhattan(x, n - 1, tx, ty) else 0)
  }

  /** The summed distance to (tx, ty) of the pegs in the first n rows. */
  function Distance(g: Grid, tx: int, ty: int, n: nat): nat
    requires WellFormed(g) && n <= Size
  {
    if n == 0 then 0 else Distance(g, tx, ty, n - 1) + RowDistance(g[n - 1], n - 1, tx, ty, Size)
  }

  /** solitaire_chinois.py `heuristic`: `distance_sum` plus the peg count. */
  function TargetHeuristic(g: Grid, tx: int, ty: int): nat
    requires WellFormed(g)
  {
    Distance(g, tx, ty, Size) + PegCount(g)
  }

  /** final.py's generator walks rows as y and the cells of a row as x, with distance |x - 3| + |y - 3|. */
  function CentreRowDistance(row: seq<int>, y: int, n: nat): nat
    requires n <= |row|
  {
    if n == 0 then 0
    else CentreRowDistance(row, y, n - 1) + (if row[n - 1] == Peg then Abs(n - 1 - 3) + Abs(y - 3) else 0)
  }

  function CentreDistance(g: Grid, n: nat): nat
    requires WellFormed(g) && n <= Size
  {
    if n == 0 then 0 else CentreDistance(g, n - 1) + CentreRowDistance(g[n - 1], n - 1, Size)
  }

  /** final.py `heuristic` and `heuristic_A_star`: the peg count plus `distance_from_center`. */
  function CentreHeuristic(g: Grid): nat
    requires WellFormed(g)
  {
    PegCount(g) + CentreDistance(g, Size)
  }

  lemma {:induction false} CentreRowIsTargetRow(row: seq<int>, y: int, n: nat)
    requires n <= |row|
    ensures CentreRowDistance(row, y, n) == RowDistance(row, y, 3, 3, n)
  {
    if n > 0 { CentreRowIsTargetRow(row, y, n - 1); }
  }

  lemma {:induction false} CentreDistanceIsTarget(g: Grid, n: nat)
    requires WellFormed(g) && n <= Size
    ensures CentreDistance(g, n) == Distance(g, 3, 3, n)
  {
    if n > 0 {
      CentreDistanceIsTarget(g, n - 1);
      CentreRowIsTargetRow(g[n - 1], n - 1, Size);
    }
  }

  /** final.py's heuristic is solitaire_chinois.py's heuristic with the target fixed at the centre:
      the swapped roles of x and y do not matter. */
  lemma CentreIsTargetAtCentre(g: Grid)
    requires WellFormed(g)
    ensures CentreHeuristic(g) == TargetHeuristic(g, 3, 3)
  {
    CentreDistanceIsTarget(g, Size);
  }

  lemma {:induction false} RowDistanceZero(r: seq<int>, x: int, tx: int, ty: int, n: nat)
    requires n <= |r|
    ensures RowDistance(r, x, tx, ty, n) == 0 <==>
              forall j :: 0 <= j < n && r[j] == Peg ==> (x, j) == (tx, ty)
  {
    if n > 0 { RowDistanceZero(r, x, tx, ty, n - 1); }
  }

  lemma {:induction false} DistanceZero(g: Grid, tx: int, ty: int, n: nat)
    requires WellFormed(g) && n <= Size
    ensures Distance(g, tx, ty, n) == 0 <==>
              forall x, y :: 0 <= x < n && 0 <= y < Size && g[x][y] == Peg ==> (x, y) == (tx, ty)
  {
    if n > 0 {
      DistanceZero(g, tx, ty, n - 1);
      RowDistanceZero(g[n - 1], n - 1, tx, ty, Size);
    }
  }

  /** The heuristic is never below the peg count, and equals it exactly when every peg is on the target. */
  lemma HeuristicExact(g: Grid, tx: int, ty: int)
    requires WellFormed(g)
    ensures TargetHeuristic(g, tx, ty) >= PegCount(g)
    ensures TargetHeuristic(g, tx, ty) == PegCount(g) <==>
              forall x, y :: InRange(x) && InRange(y) && g[x][y] == Peg ==> (x, y) == (tx, ty)
  {
    DistanceZero(g, tx, ty, Size);
  }

  lemma {:induction false} RowDistanceWrite(r: seq<int>, x: int, tx: int, ty: int, n: nat, j: int, v: int)
    requires n <= |r| && 0 <= j < |r|
    ensures RowDistance(r[j := v], x, tx, ty, n) + (if j < n && r[j] == Peg then Manhattan(x, j, tx, ty) else 0)
         == RowDistance(r, x, tx, ty, n) + (if j < n && v == Peg then Manhattan(x, j, tx, ty) else 0)
  {
    if n > 0 { RowDistanceWrite(r, x, tx, ty, n - 1, j, v); }
  }

  /** Writing one cell changes the summed distance by what leaves and what enters that cell. */
  lemma {:induction false} DistanceWrite(g: Grid, tx: int, ty: int, n: nat, x: int, y: int, v: int)
    requires WellFormed(g) && n <= Size && InRange(x) && InRange(y)
    ensures Distance(Write(g, x, y, v), tx, ty, n) + (if x < n && g[x][y] == Peg then Manhattan(x, y, tx, ty) else 0)
         == Distance(g, tx, ty, n) + (if x < n && v == Peg then Manhattan(x, y, tx, ty) else 0)
  {
    if n > 0 {
      DistanceWrite(g, tx, ty, n - 1, x, y, v);
      var h := Write(g, x, y, v);
      if x == n - 1 {
        assert h[n - 1] == g[n - 1][y := v];
        RowDistanceWrite(g[n - 1], n - 1, tx, ty, Size, y, v);
      } else {
        assert h[n - 1] == g[n - 1];
      }
    }
  }

  /** On a goal board for target (tx, ty) the only peg sits on the target, so the heuristic
      towards any cell (ux, uy) is 1 plus the distance from the target to that cell. */
  lemma HeuristicAtGoal(g: Grid, tx: int, ty: int, ux: int, uy: int)
    requires WellFormed(g) && InRange(tx) && InRange(ty) && IsGoal(g, tx, ty)
    ensures TargetHeuristic(g, ux, uy) == 1 + Manhattan(tx, ty, ux, uy)
  {
    GoalIff(g, tx, ty);
    var h := Write(g, tx, ty, Empty);
    DistanceWrite(g, ux, uy, Size, tx, ty, Empty);
    DistanceZero(h, ux, uy, Size);
  }

  /** On a goal board, solitaire_chinois.py's heuristic is 1 and final.py's is 1 plus the
      target's distance to the centre. */
  lemma GoalHeuristics(g: Grid, tx: int, ty: int)
    requires WellFormed(g) && InRange(tx) && InRange(ty) && IsGoal(g, tx, ty)
    ensures TargetHeuristic(g, tx, ty) == 1
    ensures CentreHeuristic(g) == 1 + Manhattan(tx, ty, 3, 3)
  {
    HeuristicAtGoal(g, tx, ty, tx, ty);
    HeuristicAtGoal(g, tx, ty, 3, 3);
    CentreIsTargetAtCentre(g);
  }
}
