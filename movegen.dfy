/**
 * The move generator `get_possible_moves`, identical in both revisions: it
 * scans the source cells row-major (x outer, y inner) and, from each peg,
 * tries the four directions of Board.Dirs in order, keeping the jumps that
 * `is_valid_move` accepts.
 */
module MoveGen {
  import opened Board

  /** Position of a jump's displacement in Dirs (3 for any other displacement). */
  function DirIndex(m: Move): nat
  {
    var d := (m.x2 - m.x1, m.y2 - m.y1);
    if d == Dirs[0] then 0 else if d == Dirs[1] then 1 else if d == Dirs[2] then 2 else 3
  }

  /** The order the generator emits jumps in: by source row, then source column, then direction. */
  predicate Before(a: Move, b: Move)
  {
    a.x1 < b.x1 || (a.x1 == b.x1 && (a.y1 < b.y1 || (a.y1 == b.y1 && DirIndex(a) < DirIndex(b))))
  }

  predicate Ordered(s: seq<Move>)
  {
    forall i, j :: 0 <= i < j < |s| ==> Before(s[i], s[j])
  }

  /** The jumps from (x, y) in the first k directions that the legality test accepts. */
  function DirMoves(g: Grid, x: int, y: int, k: nat): seq<Move>
    requires WellFormed(g) && k <= |Dirs|
  {
    if k == 0 then []
    else
      var x2, y2 := x + Dirs[k - 1].0, y + Dirs[k - 1].1;
      DirMoves(g, x, y, k - 1) + (if IsValidMove(g, x, y, x2, y2) then [Move(x, y, x2, y2)] else [])
  }

  /** The jumps from cell (x, y): none unless it holds a peg. */
  function SourceMoves(g: Grid, x: int, y: int): seq<Move>
    requires WellFormed(g) && InRange(x) && InRange(y)
  {
    if g[x][y] == Peg then DirMoves(g, x, y, |Dirs|) else []
  }

  /** The jumps from the first n cells of row x. */
  function RowMoves(g: Grid, x: int, n: nat): seq<Move>
    requires WellFormed(g) && InRange(x) && n <= Size
  {
    if n == 0 then [] else RowMoves(g, x, n - 1) + SourceMoves(g, x, n - 1)
  }

  /** The jumps from the first n rows. */
  function GridMoves(g: Grid, n: nat): seq<Move>
    requires WellFormed(g) && n <= Size
  {
    if n == 0 then [] else GridMoves(g, n - 1) + RowMoves(g, n - 1, Size)
  }

  /** What `get_possible_moves` returns on board g: only legal jumps. */
  function PossibleMoves(g: Grid): (ms: seq<Move>)
    requires WellFormed(g)
    ensures forall i :: 0 <= i < |ms| ==> Legal(g, ms[i])
  {
    GridMovesMembers(g, Size);
    var ms := GridMoves(g, Size);
    assert forall i :: 0 <= i < |ms| ==> ms[i] in ms;
    ms
  }

  lemma OrderedConcat(a: seq<Move>, b: seq<Move>)
    requires Ordered(a) && Ordered(b)
    requires forall i, j :: 0 <= i < |a| && 0 <= j < |b| ==> Before(a[i], b[j])
    ensures Ordered(a + b)
  {
    forall i, j | 0 <= i < j < |a + b| ensures Before((a + b)[i], (a + b)[j]) {
      if j < |a| {
        assert (a + b)[i] == a[i] && (a + b)[j] == a[j];
      } else if i >= |a| {
        assert (a + b)[i] == b[i - |a|] && (a + b)[j] == b[j - |a|];
      } else {
        assert (a + b)[i] == a[i] && (a + b)[j] == b[j - |a|];
      }
    }
  }

  /** Jumps from lower rows come before jumps from row r. */
  lemma OrderedRows(a: seq<Move>, b: seq<Move>, r: int)
    requires Ordered(a) && Ordered(b)
    requires forall m :: m in a ==> m.x1 < r
    requires forall m :: m in b ==> m.x1 == r
    ensures Ordered(a + b)
  {
    forall i, j | 0 <= i < |a| && 0 <= j < |b| ensures Before(a[i], b[j]) {
      assert a[i] in a && b[j] in b;
    }
    OrderedConcat(a, b);
  }

  /** Within row x, jumps from columns before c come before jumps from column c. */
  lemma OrderedColumns(a: seq<Move>, b: seq<Move>, x: int, c: int)
    requires Ordered(a) && Ordered(b)
    requires forall m :: m in a ==> m.x1 == x && m.y1 < c
    requires forall m :: m in b ==> m.x1 == x && m.y1 == c
    ensures Ordered(a + b)
  {
    forall i, j | 0 <= i < |a| && 0 <= j < |b| ensures Before(a[i], b[j]) {
      assert a[i] in a && b[j] in b;
    }
    OrderedConcat(a, b);
  }

  /** A legal jump's displacement is the direction DirIndex names. */
  lemma LegalDirection(g: Grid, m: Move)
    requires WellFormed(g) && Legal(g, m)
    ensures DirIndex(m) < |Dirs| && (m.x2 - m.x1, m.y2 - m.y1) == Dirs[DirIndex(m)]
  {
    ValidMoveIff(g, m);
  }

  /** The jumps tried from (x, y) in the first k directions all start there, in those directions. */
  lemma {:induction false} DirMovesAt(g: Grid, x: int, y: int, k: nat)
    requires WellFormed(g) && k <= |Dirs|
    ensures forall m :: m in DirMoves(g, x, y, k) ==> m.x1 == x && m.y1 == y && DirIndex(m) < k
  {
    if k > 0 {
      DirMovesAt(g, x, y, k - 1);
      assert DirIndex(Move(x, y, x + Dirs[k - 1].0, y + Dirs[k - 1].1)) == k - 1;
    }
  }

  lemma {:induction false} DirMovesOrdered(g: Grid, x: int, y: int, k: nat)
    requires WellFormed(g) && k <= |Dirs|
    ensures Ordered(DirMoves(g, x, y, k))
  {
    if k > 0 {
      DirMovesOrdered(g, x, y, k - 1);
      DirMovesAt(g, x, y, k - 1);
      var x2, y2 := x + Dirs[k - 1].0, y + Dirs[k - 1].1;
      var last := Move(x, y, x2, y2);
      assert DirIndex(last) == k - 1;
      var prev := DirMoves(g, x, y, k - 1);
      var tail := if IsValidMove(g, x, y, x2, y2) then [last] else [];
      forall i, j | 0 <= i < |prev| && 0 <= j < |tail| ensures Before(prev[i], tail[j]) {
        assert prev[i] in prev;
      }
      OrderedConcat(prev, tail);
    }
  }

  /** From (x, y) the first k directions yield exactly the legal jumps from
      (x, y) in those directions, at most one per direction. */
  lemma {:induction false} DirMovesMembers(g: Grid, x: int, y: int, k: nat)
    requires WellFormed(g) && k <= |Dirs|
    ensures forall m :: m in DirMoves(g, x, y, k) <==> Legal(g, m) && m.x1 == x && m.y1 == y && DirIndex(m) < k
  {
    if k > 0 {
      DirMovesMembers(g, x, y, k - 1);
      var x2, y2 := x + Dirs[k - 1].0, y + Dirs[k - 1].1;
      var last := Move(x, y, x2, y2);
      assert DirIndex(last) == k - 1;
      var prev, tail := DirMoves(g, x, y, k - 1), if IsValidMove(g, x, y, x2, y2) then [last] else [];
      assert DirMoves(g, x, y, k) == prev + tail;
      forall m ensures m in DirMoves(g, x, y, k) <==> Legal(g, m) && m.x1 == x && m.y1 == y && DirIndex(m) < k {
        if Legal(g, m) && m.x1 == x && m.y1 == y && DirIndex(m) == k - 1 {
          LegalDirection(g, m);
          assert m == last;
        }
        assert m in prev + tail <==> m in prev || m in tail;
      }
    }
  }

  lemma SourceMovesAt(g: Grid, x: int, y: int)
    requires WellFormed(g) && InRange(x) && InRange(y)
    ensures forall m :: m in SourceMoves(g, x, y) ==> m.x1 == x && m.y1 == y
  {
    DirMovesAt(g, x, y, |Dirs|);
  }

  lemma SourceMovesOrdered(g: Grid, x: int, y: int)
    requires WellFormed(g) && InRange(x) && InRange(y)
    ensures Ordered(SourceMoves(g, x, y))
  {
    DirMovesOrdered(g, x, y, |Dirs|);
  }

  lemma SourceMovesMembers(g: Grid, x: int, y: int)
    requires WellFormed(g) && InRange(x) && InRange(y)
    ensures forall m :: m in SourceMoves(g, x, y) <==> Legal(g, m) && m.x1 == x && m.y1 == y
  {
    DirMovesMembers(g, x, y, |Dirs|);
    forall m | Legal(g, m) && m.x1 == x && m.y1 == y
      ensures DirIndex(m) < |Dirs| && g[x][y] == Peg
    {
      LegalDirection(g, m);
    }
  }

  lemma {:induction false} RowMovesAt(g: Grid, x: int, n: nat)
    requires WellFormed(g) && InRange(x) && n <= Size
    ensures forall m :: m in RowMoves(g, x, n) ==> m.x1 == x && m.y1 < n
  {
    if n > 0 {
      RowMovesAt(g, x, n - 1);
      SourceMovesAt(g, x, n - 1);
      var a, b := RowMoves(g, x, n - 1), SourceMoves(g, x, n - 1);
      assert RowMoves(g, x, n) == a + b;
      forall m: Move | m in a + b ensures m.x1 == x && m.y1 < n {
        assert m in a || m in b;
      }
    }
  }

  lemma {:induction false} RowMovesOrdered(g: Grid, x: int, n: nat)
    requires WellFormed(g) && InRange(x) && n <= Size
    ensures Ordered(RowMoves(g, x, n))
  {
    if n > 0 {
      RowMovesOrdered(g, x, n - 1);
      SourceMovesOrdered(g, x, n - 1);
      RowMovesAt(g, x, n - 1);
      SourceMovesAt(g, x, n - 1);
      OrderedColumns(RowMoves(g, x, n - 1), SourceMoves(g, x, n - 1), x, n - 1);
    }
  }

  lemma {:induction false} RowMovesMembers(g: Grid, x: int, n: nat)
    requires WellFormed(g) && InRange(x) && n <= Size
    ensures forall m :: m in RowMoves(g, x, n) <==> Legal(g, m) && m.x1 == x && m.y1 < n
  {
    if n > 0 {
      RowMovesMembers(g, x, n - 1);
      SourceMovesMembers(g, x, n - 1);
      var a, b := RowMoves(g, x, n - 1), SourceMoves(g, x, n - 1);
      assert RowMoves(g, x, n) == a + b;
      forall m ensures m in a + b <==> Legal(g, m) && m.x1 == x && m.y1 < n {
        if Legal(g, m) { LegalGeometry(g, m); }
        assert m in a + b <==> m in a || m in b;
      }
    }
  }

  lemma {:induction false} GridMovesAt(g: Grid, n: nat)
    requires WellFormed(g) && n <= Size
    ensures forall m :: m in GridMoves(g, n) ==> m.x1 < n
  {
    if n > 0 {
      GridMovesAt(g, n - 1);
      RowMovesAt(g, n - 1, Size);
      var a, b := GridMoves(g, n - 1), RowMoves(g, n - 1, Size);
      assert GridMoves(g, n) == a + b;
      forall m: Move | m in a + b ensures m.x1 < n {
        assert m in a || m in b;
      }
    }
  }

  lemma {:induction false} GridMovesOrdered(g: Grid, n: nat)
    requires WellFormed(g) && n <= Size
    ensures Ordered(GridMoves(g, n))
  {
    if n > 0 {
      GridMovesOrdered(g, n - 1);
      RowMovesOrdered(g, n - 1, Size);
      GridMovesAt(g, n - 1);
      RowMovesAt(g, n - 1, Size);
      assert GridMoves(g, n) == GridMoves(g, n - 1) + RowMoves(g, n - 1, Size);
      OrderedRows(GridMoves(g, n - 1), RowMoves(g, n - 1, Size), n - 1);
    }
  }

  /** At most one jump per direction tried. */
  lemma {:induction false} DirMovesLength(g: Grid, x: int, y: int, k: nat)
    requires WellFormed(g) && k <= |Dirs|
    ensures |DirMoves(g, x, y, k)| <= k
  {
    if k > 0 {
      DirMovesLength(g, x, y, k - 1);
    }
  }

  lemma {:induction false} RowMovesLength(g: Grid, x: int, n: nat)
    requires WellFormed(g) && InRange(x) && n <= Size
    ensures |RowMoves(g, x, n)| <= |Dirs| * n
  {
    if n > 0 {
      assert |Dirs| == 4;
      RowMovesLength(g, x, n - 1);
      DirMovesLength(g, x, n - 1, |Dirs|);
    }
  }

  lemma {:induction false} GridMovesLength(g: Grid, n: nat)
    requires WellFormed(g) && n <= Size
    ensures |GridMoves(g, n)| <= |Dirs| * Size * n
  {
    if n > 0 {
      assert |Dirs| == 4;
      GridMovesLength(g, n - 1);
      RowMovesLength(g, n - 1, Size);
    }
  }

  lemma {:induction false} GridMovesMembers(g: Grid, n: nat)
    requires WellFormed(g) && n <= Size
    ensures forall m :: m in GridMoves(g, n) <==> Legal(g, m) && m.x1 < n
  {
    if n > 0 {
      GridMovesMembers(g, n - 1);
      RowMovesMembers(g, n - 1, Size);
      var a, b := GridMoves(g, n - 1), RowMoves(g, n - 1, Size);
      assert GridMoves(g, n) == a + b;
      forall m ensures m in a + b <==> Legal(g, m) && m.x1 < n {
        if Legal(g, m) { LegalGeometry(g, m); }
        assert m in a + b <==> m in a || m in b;
      }
    }
  }

  /** The generator agrees with the legality test, emits jumps in scan order
      (hence without repetition), and emits at most four per cell. */
  lemma PossibleMovesSpec(g: Grid)
    requires WellFormed(g)
    ensures forall m :: m in PossibleMoves(g) <==> Legal(g, m)
    ensures Ordered(PossibleMoves(g))
    ensures |PossibleMoves(g)| <= |Dirs| * Size * Size
  {
    GridMovesMembers(g, Size);
    GridMovesOrdered(g, Size);
    GridMovesLength(g, Size);
    forall m | Legal(g, m) ensures m.x1 < Size { LegalGeometry(g, m); }
  }

  lemma PossibleMovesScan(g: Grid)
    requires WellFormed(g)
    ensures PossibleMoves(g) == GridMoves(g, Size)
  {
  }

  /** Scan order is strict, so the generator never emits the same jump twice. */
  lemma PossibleMovesDistinct(g: Grid)
    requires WellFormed(g)
    ensures forall i, j :: 0 <= i < j < |PossibleMoves(g)| ==> PossibleMoves(g)[i] != PossibleMoves(g)[j]
  {
    PossibleMovesSpec(g);
  }

  /** `get_possible_moves`: a row-major scan of the sources, appending the accepted jumps. */
  method GetPossibleMoves(g: Grid) returns (moves: seq<Move>)
    requires WellFormed(g)
    ensures moves == PossibleMoves(g)
  {
    moves := [];
    for x1 := 0 to Size
      invariant moves == GridMoves(g, x1)
    {
      for y1 := 0 to Size
        invariant moves == GridMoves(g, x1) + RowMoves(g, x1, y1)
      {
        moves := AppendJumpsFrom(g, x1, y1, moves);
        AppendAssoc(GridMoves(g, x1), RowMoves(g, x1, y1), SourceMoves(g, x1, y1));
        assert RowMoves(g, x1, y1 + 1) == RowMoves(g, x1, y1) + SourceMoves(g, x1, y1);
      }
      assert GridMoves(g, x1 + 1) == GridMoves(g, x1) + RowMoves(g, x1, Size);
    }
    PossibleMovesScan(g);
  }

  /** The body of the scan for one source cell: if it holds a peg, try the
      four directions in order and append each jump the legality test accepts. */
  method AppendJumpsFrom(g: Grid, x1: int, y1: int, moves: seq<Move>) returns (moves': seq<Move>)
    requires WellFormed(g) && InRange(x1) && InRange(y1)
    ensures moves' == moves + SourceMoves(g, x1, y1)
  {
    moves' := moves;
    if g[x1][y1] == Peg {
      for k := 0 to |Dirs|
        invariant moves' == moves + DirMoves(g, x1, y1, k)
      {
        var x2, y2 := x1 + Dirs[k].0, y1 + Dirs[k].1;
        var tail := if IsValidMove(g, x1, y1, x2, y2) then [Move(x1, y1, x2, y2)] else [];
        assert DirMoves(g, x1, y1, k + 1) == DirMoves(g, x1, y1, k) + tail;
        AppendAssoc(moves, DirMoves(g, x1, y1, k), tail);
        if IsValidMove(g, x1, y1, x2, y2) {
          moves' := moves' + [Move(x1, y1, x2, y2)];
        }
      }
    }
  }
}
