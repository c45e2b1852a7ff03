/**
 * The board model shared by both revisions of the peg-solitaire solver:
 * a 7x7 grid of ints (-1 off-board, 0 empty, 1 peg) indexed g[x][y],
 * the jump-legality predicate, the three-cell effect of playing and of
 * taking back a jump, peg counting, the goal test and the replay of a
 * sequence of jumps.
 */
module Board {

  datatype Option<T> = None | Some(value: T)

  type Grid = seq<seq<int>>

  const Size: int := 7
  const OffBoard: int := -1
  const Empty: int := 0
  const Peg: int := 1

  /** A jump from (x1, y1) to (x2, y2), the 4-tuple the move generator returns. */
  datatype Move = Move(x1: int, y1: int, x2: int, y2: int)

  /** The pair ((x1, y1), (x2, y2)) that playing a jump appends to the move log. */
  datatype Jump = Jump(src: (int, int), dst: (int, int))

  function JumpOf(m: Move): Jump { Jump((m.x1, m.y1), (m.x2, m.y2)) }

  function MoveOf(j: Jump): Move { Move(j.src.0, j.src.1, j.dst.0, j.dst.1) }

  predicate InRange(i: int) { 0 <= i < Size }

  predicate InBounds(m: Move) { InRange(m.x1) && InRange(m.y1) && InRange(m.x2) && InRange(m.y2) }

  predicate AllInBounds(p: seq<Move>) { forall i :: 0 <= i < |p| ==> InBounds(p[i]) }

  predicate WellFormed(g: Grid) { |g| == Size && forall x :: 0 <= x < |g| ==> |g[x]| == Size }

  function Abs(d: int): nat { if d < 0 then -d else d }

  function Ind(b: bool): nat { if b then 1 else 0 }

  /** Cell (x, y) of the cross: the four 2x2 corner blocks are off the board. */
  function LayoutCell(x: int, y: int): int
  {
    if (x < 2 || x > 4) && (y < 2 || y > 4) then OffBoard else Peg
  }

  /** The full board every game starts from, before the initial hole is made. */
  const Layout: Grid := [
    [-1, -1, 1, 1, 1, -1, -1],
    [-1, -1, 1, 1, 1, -1, -1],
    [1, 1, 1, 1, 1, 1, 1],
    [1, 1, 1, 1, 1, 1, 1],
    [1, 1, 1, 1, 1, 1, 1],
    [-1, -1, 1, 1, 1, -1, -1],
    [-1, -1, 1, 1, 1, -1, -1]
  ]

  /** A cell the input routines accept: inside the grid and holding a peg on the
      full board (by LayoutIsCross, the cells outside the four corner blocks). */
  predicate Playable(x: int, y: int) { InRange(x) && InRange(y) && LayoutCell(x, y) == Peg }

  /** The starting position: the full board with the initial empty cell emptied. */
  function InitialBoard(ex: int, ey: int): (g: Grid)
    requires Playable(ex, ey)
    ensures WellFormed(g)
  {
    LayoutIsCross();
    Write(Layout, ex, ey, Empty)
  }

  /** The board after writing v into cell (x, y). */
  function Write(g: Grid, x: int, y: int, v: int): (h: Grid)
    requires WellFormed(g) && InRange(x) && InRange(y)
    ensures WellFormed(h)
    ensures forall i, j :: 0 <= i < Size && 0 <= j < Size ==>
              h[i][j] == if i == x && j == y then v else g[i][j]
  {
    g[x := g[x][y := v]]
  }

  // ---------------------------------------------------------------- legality

  /** `is_valid_move`: the source and destination lie in the grid, the source
      holds a peg, the destination is empty, and the jump is two cells along
      a row or a column over a peg. */
  predicate IsValidMove(g: Grid, x1: int, y1: int, x2: int, y2: int)
    requires WellFormed(g)
  {
    if !(InRange(x1) && InRange(y1) && InRange(x2) && InRange(y2)) then false
    else if g[x1][y1] != Peg || g[x2][y2] != Empty then false
    else
      var dx, dy := x2 - x1, y2 - y1;
      if Abs(dx) == 2 && dy == 0 && g[x1 + dx / 2][y1] == Peg then true
      else Abs(dy) == 2 && dx == 0 && g[x1][y1 + dy / 2] == Peg
  }

  predicate Legal(g: Grid, m: Move)
    requires WellFormed(g)
  {
    IsValidMove(g, m.x1, m.y1, m.x2, m.y2)
  }

  /** The four jump displacements, in the order the move generator tries them. */
  const Dirs: seq<(int, int)> := [(-2, 0), (2, 0), (0, -2), (0, 2)]

  /** The midpoint coordinate, computed with floor division as `x1 + (x2 - x1) // 2`. */
  function Mid(a: int, b: int): int { a + (b - a) / 2 }

  /** The jumped-over cell of m. */
  function MidX(m: Move): int { Mid(m.x1, m.x2) }
  function MidY(m: Move): int { Mid(m.y1, m.y2) }

  /** The displacement of a jump is one of the four directions. */
  predicate IsJumpShape(m: Move) { (m.x2 - m.x1, m.y2 - m.y1) in Dirs }

  lemma AppendAssoc<T>(a: seq<T>, b: seq<T>, c: seq<T>)
    ensures a + (b + c) == (a + b) + c
  {
  }

  /** Legality stated cell by cell; this is what every other lemma builds on. */
  lemma ValidMoveIff(g: Grid, m: Move)
    requires WellFormed(g)
    ensures Legal(g, m) <==>
              InBounds(m) && IsJumpShape(m)
              && g[m.x1][m.y1] == Peg && g[MidX(m)][MidY(m)] == Peg && g[m.x2][m.y2] == Empty
  {
    var dx, dy := m.x2 - m.x1, m.y2 - m.y1;
    assert IsJumpShape(m) <==> (dx, dy) == (-2, 0) || (dx, dy) == (2, 0) || (dx, dy) == (0, -2) || (dx, dy) == (0, 2);
    if InBounds(m) {
      if Abs(dx) == 2 && dy == 0 {
        assert dx == 2 || dx == -2;
        assert MidX(m) == m.x1 + dx / 2 && MidY(m) == m.y1;
      } else if Abs(dy) == 2 && dx == 0 {
        assert dy == 2 || dy == -2;
        assert MidX(m) == m.x1 && MidY(m) == m.y1 + dy / 2;
      }
    }
  }

  /** The three cells a legal jump touches are pairwise distinct and in the grid. */
  lemma LegalGeometry(g: Grid, m: Move)
    requires WellFormed(g) && Legal(g, m)
    ensures InBounds(m) && InRange(MidX(m)) && InRange(MidY(m))
    ensures (m.x1, m.y1) != (MidX(m), MidY(m))
    ensures (m.x2, m.y2) != (MidX(m), MidY(m))
    ensures (m.x1, m.y1) != (m.x2, m.y2)
  {
    ValidMoveIff(g, m);
  }

  // ---------------------------------------------------------------- play and undo

  /** `make_move`: empty the source and the jumped cell, put a peg on the destination, in that order. */
  function Apply(g: Grid, m: Move): (h: Grid)
    requires WellFormed(g) && InBounds(m)
    ensures WellFormed(h)
  {
    Write(Write(Write(g, m.x1, m.y1, Empty), MidX(m), MidY(m), Empty), m.x2, m.y2, Peg)
  }

  /** `undo_move`: put pegs back on the source and the jumped cell, empty the destination. */
  function Undo(g: Grid, m: Move): (h: Grid)
    requires WellFormed(g) && InBounds(m)
    ensures WellFormed(h)
  {
    Write(Write(Write(g, m.x1, m.y1, Peg), MidX(m), MidY(m), Peg), m.x2, m.y2, Empty)
  }

  /** Two well-formed boards with the same cells are the same board. */
  lemma GridExt(a: Grid, b: Grid)
    requires WellFormed(a) && WellFormed(b)
    requires forall i, j :: 0 <= i < Size && 0 <= j < Size ==> a[i][j] == b[i][j]
    ensures a == b
  {
    forall i | 0 <= i < Size ensures a[i] == b[i] {
      assert forall j :: 0 <= j < Size ==> a[i][j] == b[i][j];
    }
  }

  /** A legal jump changes exactly its source, midpoint and destination. */
  lemma ApplyCells(g: Grid, m: Move)
    requires WellFormed(g) && Legal(g, m)
    ensures forall i, j :: 0 <= i < Size && 0 <= j < Size ==>
              Apply(g, m)[i][j] ==
                if (i, j) == (m.x1, m.y1) || (i, j) == (MidX(m), MidY(m)) then Empty
                else if (i, j) == (m.x2, m.y2) then Peg
                else g[i][j]
  {
    LegalGeometry(g, m);
  }

  /** Taking back a jump changes exactly its source, midpoint and destination. */
  lemma UndoCells(g: Grid, m: Move)
    requires WellFormed(g) && InBounds(m)
    requires (m.x1, m.y1) != (MidX(m), MidY(m)) && (m.x2, m.y2) != (MidX(m), MidY(m))
    requires (m.x1, m.y1) != (m.x2, m.y2)
    ensures forall i, j :: 0 <= i < Size && 0 <= j < Size ==>
              Undo(g, m)[i][j] ==
                if (i, j) == (m.x1, m.y1) || (i, j) == (MidX(m), MidY(m)) then Peg
                else if (i, j) == (m.x2, m.y2) then Empty
                else g[i][j]
  {
  }

  /** Taking back a jump right after playing it restores the board cell for cell. */
  lemma UndoApply(g: Grid, m: Move)
    requires WellFormed(g) && Legal(g, m)
    ensures Undo(Apply(g, m), m) == g
  {
    LegalGeometry(g, m);
    ValidMoveIff(g, m);
    ApplyCells(g, m);
    UndoCells(Apply(g, m), m);
    GridExt(Undo(Apply(g, m), m), g);
  }

  /** A legal jump never writes an off-board cell, and leaves every off-board cell off-board. */
  predicate SameShape(g: Grid, h: Grid)
    requires WellFormed(g) && WellFormed(h)
  {
    forall i, j :: 0 <= i < Size && 0 <= j < Size ==> (g[i][j] == OffBoard <==> h[i][j] == OffBoard)
  }

  lemma ApplyKeepsShape(g: Grid, m: Move)
    requires WellFormed(g) && Legal(g, m)
    ensures SameShape(g, Apply(g, m))
    ensures g[m.x1][m.y1] != OffBoard && g[MidX(m)][MidY(m)] != OffBoard && g[m.x2][m.y2] != OffBoard
  {
    ValidMoveIff(g, m);
    ApplyCells(g, m);
  }

  // ---------------------------------------------------------------- counting

  /** `row.count(v)`. */
  function CountRow(r: seq<int>, v: int): nat
  {
    if r == [] then 0 else Ind(r[0] == v) + CountRow(r[1..], v)
  }

  /** `sum(row.count(v) for row in board)`. */
  function Count(g: Grid, v: int): nat
  {
    if g == [] then 0 else CountRow(g[0], v) + Count(g[1..], v)
  }

  function PegCount(g: Grid): nat { Count(g, Peg) }

  lemma {:induction false} CountRowWrite(r: seq<int>, j: int, a: int, v: int)
    requires 0 <= j < |r|
    ensures CountRow(r[j := a], v) + Ind(r[j] == v) == CountRow(r, v) + Ind(a == v)
  {
    if j == 0 {
      assert r[j := a][1..] == r[1..];
    } else {
      assert r[j := a][1..] == r[1..][j - 1 := a];
      CountRowWrite(r[1..], j - 1, a, v);
    }
  }

  /** Writing one cell changes the count of v by what leaves and what enters that cell. */
  lemma {:induction false} CountWrite(g: Grid, x: int, y: int, a: int, v: int)
    requires 0 <= x < |g| && 0 <= y < |g[x]|
    ensures Count(g[x := g[x][y := a]], v) + Ind(g[x][y] == v) == Count(g, v) + Ind(a == v)
  {
    var h := g[x := g[x][y := a]];
    if x == 0 {
      assert h[1..] == g[1..];
      CountRowWrite(g[0], y, a, v);
    } else {
      assert h[1..] == g[1..][x - 1 := g[1..][x - 1][y := a]];
      CountWrite(g[1..], x - 1, y, a, v);
    }
  }

  /** A legal jump moves one cell from "peg" to "empty" and leaves every other count alone. */
  lemma ApplyCount(g: Grid, m: Move, v: int)
    requires WellFormed(g) && Legal(g, m)
    ensures Count(Apply(g, m), v) + Ind(v == Peg) == Count(g, v) + Ind(v == Empty)
  {
    LegalGeometry(g, m);
    ValidMoveIff(g, m);
    var g1 := Write(g, m.x1, m.y1, Empty);
    var g2 := Write(g1, MidX(m), MidY(m), Empty);
    CountWrite(g, m.x1, m.y1, Empty, v);
    CountWrite(g1, MidX(m), MidY(m), Empty, v);
    CountWrite(g2, m.x2, m.y2, Peg, v);
  }

  /** Each jump removes exactly one peg. */
  lemma ApplyPegCount(g: Grid, m: Move)
    requires WellFormed(g) && Legal(g, m)
    ensures PegCount(Apply(g, m)) + 1 == PegCount(g)
  {
    ApplyCount(g, m, Peg);
  }

  lemma {:induction false} CountRowZero(r: seq<int>, v: int)
    ensures CountRow(r, v) == 0 <==> forall j :: 0 <= j < |r| ==> r[j] != v
  {
    if r != [] {
      CountRowZero(r[1..], v);
      assert forall j :: 1 <= j < |r| ==> r[j] == r[1..][j - 1];
    }
  }

  /** No cell holds v exactly when the count of v is zero. */
  lemma {:induction false} CountZero(g: Grid, v: int)
    ensures Count(g, v) == 0 <==> forall x, y :: 0 <= x < |g| && 0 <= y < |g[x]| ==> g[x][y] != v
  {
    if g != [] {
      CountRowZero(g[0], v);
      CountZero(g[1..], v);
      assert forall x :: 1 <= x < |g| ==> g[x] == g[1..][x - 1];
    }
  }

  // ---------------------------------------------------------------- goal

  /** `is_goal`: exactly one peg on the board and the target cell holds a peg. */
  predicate IsGoal(g: Grid, tx: int, ty: int)
    requires WellFormed(g) && InRange(tx) && InRange(ty)
  {
    PegCount(g) == 1 && g[tx][ty] == Peg
  }

  /** The goal test holds exactly when the target holds a peg and no other cell does. */
  lemma GoalIff(g: Grid, tx: int, ty: int)
    requires WellFormed(g) && InRange(tx) && InRange(ty)
    ensures IsGoal(g, tx, ty) <==>
              g[tx][ty] == Peg &&
              forall x, y :: 0 <= x < Size && 0 <= y < Size && (x, y) != (tx, ty) ==> g[x][y] != Peg
  {
    if g[tx][ty] == Peg {
      var h := Write(g, tx, ty, Empty);
      CountWrite(g, tx, ty, Empty, Peg);
      CountZero(h, Peg);
    }
  }

  /** A target that is off the board can never satisfy the goal test. */
  lemma OffBoardTargetNotGoal(g: Grid, tx: int, ty: int)
    requires WellFormed(g) && InRange(tx) && InRange(ty) && g[tx][ty] == OffBoard
    ensures !IsGoal(g, tx, ty)
  {
  }

  // ---------------------------------------------------------------- paths

  /** Every jump of p is legal on the board it is played on. */
  predicate ValidPath(g: Grid, p: seq<Move>)
    requires WellFormed(g)
    ensures ValidPath(g, p) ==> AllInBounds(p)
    decreases |p|
  {
    assert forall i :: 1 <= i < |p| ==> p[i] == p[1..][i - 1];
    p == [] || (Legal(g, p[0]) && ValidPath(Apply(g, p[0]), p[1..]))
  }

  /** The board reached by playing the jumps of p in order. */
  function Replay(g: Grid, p: seq<Move>): (h: Grid)
    requires WellFormed(g) && AllInBounds(p)
    ensures WellFormed(h)
    decreases |p|
  {
    if p == [] then g else Replay(Apply(g, p[0]), p[1..])
  }

  /** Extending a path by one jump at the end. */
  lemma {:induction false} PathSnoc(g: Grid, p: seq<Move>, m: Move)
    requires WellFormed(g) && ValidPath(g, p)
    ensures AllInBounds(p)
    ensures ValidPath(g, p + [m]) <==> Legal(Replay(g, p), m)
    ensures ValidPath(g, p + [m]) ==> AllInBounds(p + [m]) && Replay(g, p + [m]) == Apply(Replay(g, p), m)
    decreases |p|
  {
    if p == [] {
      assert [m][1..] == [];
    } else {
      assert (p + [m])[0] == p[0] && (p + [m])[1..] == p[1..] + [m];
      PathSnoc(Apply(g, p[0]), p[1..], m);
    }
  }

  /** Replaying one more jump, legal or not, applies it to the board replayed so far. */
  lemma {:induction false} ReplaySnoc(g: Grid, p: seq<Move>, m: Move)
    requires WellFormed(g) && AllInBounds(p) && InBounds(m)
    ensures AllInBounds(p + [m]) && Replay(g, p + [m]) == Apply(Replay(g, p), m)
    decreases |p|
  {
    if p == [] {
      assert [m][1..] == [];
    } else {
      assert (p + [m])[0] == p[0] && (p + [m])[1..] == p[1..] + [m];
      ReplaySnoc(Apply(g, p[0]), p[1..], m);
    }
  }

  /** Extending a path by one jump at the front. */
  lemma PathCons(g: Grid, m: Move, p: seq<Move>)
    requires WellFormed(g) && Legal(g, m) && ValidPath(Apply(g, m), p)
    ensures ValidPath(g, [m] + p)
    ensures AllInBounds([m] + p) && Replay(g, [m] + p) == Replay(Apply(g, m), p)
  {
    assert ([m] + p)[0] == m && ([m] + p)[1..] == p;
  }

  /** Every jump on a legal path removes one peg, so a path is never longer than the peg count. */
  lemma {:induction false} ReplayPegCount(g: Grid, p: seq<Move>)
    requires WellFormed(g) && ValidPath(g, p)
    ensures AllInBounds(p) && PegCount(Replay(g, p)) + |p| == PegCount(g)
    decreases |p|
  {
    if p != [] {
      ApplyPegCount(g, p[0]);
      ReplayPegCount(Apply(g, p[0]), p[1..]);
    }
  }

  /** A legal path that ends on a goal board has exactly one jump fewer than the starting peg count. */
  lemma SolutionLength(g: Grid, p: seq<Move>, tx: int, ty: int)
    requires WellFormed(g) && InRange(tx) && InRange(ty) && ValidPath(g, p)
    ensures AllInBounds(p)
    ensures IsGoal(Replay(g, p), tx, ty) ==> |p| + 1 == PegCount(g)
  {
    ReplayPegCount(g, p);
  }

  /** A legal path keeps every off-board cell off-board and keeps pegs plus empties constant. */
  lemma {:induction false} ReplayConserves(g: Grid, p: seq<Move>)
    requires WellFormed(g) && ValidPath(g, p)
    ensures AllInBounds(p)
    ensures SameShape(g, Replay(g, p))
    ensures Count(Replay(g, p), Peg) + Count(Replay(g, p), Empty) == Count(g, Peg) + Count(g, Empty)
    decreases |p|
  {
    if p != [] {
      var h := Apply(g, p[0]);
      ApplyKeepsShape(g, p[0]);
      ApplyCount(g, p[0], Peg);
      ApplyCount(g, p[0], Empty);
      ReplayConserves(h, p[1..]);
    }
  }

  // ---------------------------------------------------------------- the starting position

  /** The layout is the cross: exactly the four 2x2 corner blocks are off the board. */
  lemma LayoutIsCross()
    ensures WellFormed(Layout)
    ensures forall x, y :: InRange(x) && InRange(y) ==> Layout[x][y] == LayoutCell(x, y)
  {
  }

  /** The layout has 33 pegs and no empty cell. */
  lemma LayoutCounts()
    ensures WellFormed(Layout)
    ensures Count(Layout, Peg) == 33 && Count(Layout, Empty) == 0
  {
    LayoutIsCross();
    CrossCounts(Layout, Peg);
    CrossCounts(Layout, Empty);
  }

  /** Counting on any grid laid out as the cross, row by row. */
  lemma CrossCounts(g: Grid, v: int)
    requires WellFormed(g) && forall x, y :: InRange(x) && InRange(y) ==> g[x][y] == LayoutCell(x, y)
    requires v == Peg || v == Empty
    ensures Count(g, v) == if v == Peg then 33 else 0
  {
    for k := 0 to Size
      invariant Count(g, v) == CountFirst(v, k) + Count(g[k..], v)
    {
      assert g[k..][1..] == g[k + 1..];
      assert forall j :: 0 <= j < Size ==> g[k][j] == LayoutCell(k, j);
      if 2 <= k <= 4 { FullRowCounts(g[k]); } else { ShortRowCounts(g[k]); }
    }
    assert g[Size..] == [];
  }

  /** The counts of v in rows 0 .. k-1 of the cross. */
  function CountFirst(v: int, k: int): int
  {
    if v != Peg then 0 else if k <= 2 then 3 * k else if k <= 5 then 6 + 7 * (k - 2) else 27 + 3 * (k - 5)
  }

  /** A short row: off the board, except for the three middle cells. */
  lemma ShortRowCounts(r: seq<int>)
    requires |r| == Size && forall j :: 0 <= j < Size ==> r[j] == if 2 <= j <= 4 then Peg else OffBoard
    ensures CountRow(r, Peg) == 3 && CountRow(r, Empty) == 0
  {
    CountRowZero(r, Empty);
    assert r == (r[..2] + r[2..5]) + r[5..];
    CountRowSplit(r[..2] + r[2..5], r[5..], Peg);
    CountRowSplit(r[..2], r[2..5], Peg);
    CountRowZero(r[..2], Peg);
    CountRowZero(r[5..], Peg);
    CountRowAll(r[2..5], Peg);
  }

  lemma FullRowCounts(r: seq<int>)
    requires |r| == Size && forall j :: 0 <= j < Size ==> r[j] == Peg
    ensures CountRow(r, Peg) == 7 && CountRow(r, Empty) == 0
  {
    CountRowZero(r, Empty);
    CountRowAll(r, Peg);
  }

  lemma {:induction false} CountRowSplit(a: seq<int>, b: seq<int>, v: int)
    ensures CountRow(a + b, v) == CountRow(a, v) + CountRow(b, v)
  {
    if a == [] {
      assert a + b == b;
    } else {
      assert (a + b)[0] == a[0] && (a + b)[1..] == a[1..] + b;
      CountRowSplit(a[1..], b, v);
    }
  }

  lemma {:induction false} CountRowAll(r: seq<int>, v: int)
    requires forall j :: 0 <= j < |r| ==> r[j] == v
    ensures CountRow(r, v) == |r|
  {
    if r != [] {
      CountRowAll(r[1..], v);
    }
  }

  /** The starting position has 32 pegs and 1 empty cell. */
  lemma InitialCounts(ex: int, ey: int)
    requires Playable(ex, ey)
    ensures Count(InitialBoard(ex, ey), Peg) == 32 && Count(InitialBoard(ex, ey), Empty) == 1
  {
    LayoutCounts();
    LayoutIsCross();
    CountWrite(Layout, ex, ey, Empty, Peg);
    CountWrite(Layout, ex, ey, Empty, Empty);
  }

  /** Mass conservation: on every board reachable from a starting position the 33 playable
      cells hold a peg or are empty, and the corner cells are still off the board. */
  lemma Reachable(ex: int, ey: int, p: seq<Move>)
    requires Playable(ex, ey) && ValidPath(InitialBoard(ex, ey), p)
    ensures AllInBounds(p)
    ensures var h := Replay(InitialBoard(ex, ey), p);
            PegCount(h) + Count(h, Empty) == 33 && PegCount(h) + |p| == 32 &&
            forall x, y :: InRange(x) && InRange(y) ==> (h[x][y] == OffBoard <==> LayoutCell(x, y) == OffBoard)
  {
    var g := InitialBoard(ex, ey);
    InitialCounts(ex, ey);
    InitialShape(ex, ey);
    ReplayConserves(g, p);
    ReplayPegCount(g, p);
  }

  /** The starting position is off the board exactly on the corner blocks. */
  lemma InitialShape(ex: int, ey: int)
    requires Playable(ex, ey)
    ensures forall x, y :: InRange(x) && InRange(y) ==>
              (InitialBoard(ex, ey)[x][y] == OffBoard <==> LayoutCell(x, y) == OffBoard)
  {
    LayoutIsCross();
  }

  /** A target off the board is never reached: the goal test fails on every reachable board. */
  lemma OffBoardTargetUnreachable(ex: int, ey: int, p: seq<Move>, tx: int, ty: int)
    requires Playable(ex, ey) && ValidPath(InitialBoard(ex, ey), p)
    requires InRange(tx) && InRange(ty) && LayoutCell(tx, ty) == OffBoard
    ensures AllInBounds(p) && !IsGoal(Replay(InitialBoard(ex, ey), p), tx, ty)
  {
    Reachable(ex, ey, p);
  }
}
