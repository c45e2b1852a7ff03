/**
 * The second revision of the solver class (final.py). Its move log holds
 * only the pairs ((x1, y1), (x2, y2)) that `make_move` appends; the target
 * is optional and defaults to the initial empty cell; both informed searches
 * score boards by their distance to the centre; `dfs` keeps the winning
 * line on the live log instead of in a separate list.
 */
module Final {
  import opened Board
  import opened MoveGen
  import opened Heuristic
  import opened Backtrack
  import opened Frontier

  /** The log entries `make_move` appends while the jumps of p are played. */
  function Jumps(p: seq<Move>): seq<Jump>
  {
    seq(|p|, i requires 0 <= i < |p| => JumpOf(p[i]))
  }

  /** A log read back as the jumps it records. */
  function MovesOf(log: seq<Jump>): seq<Move>
  {
    seq(|log|, i requires 0 <= i < |log| => MoveOf(log[i]))
  }

  /** Reading a log back loses nothing, in either direction. */
  lemma MovesOfJumps(p: seq<Move>)
    ensures MovesOf(Jumps(p)) == p
  {
    assert forall i :: 0 <= i < |p| ==> MoveOf(JumpOf(p[i])) == p[i];
  }

  lemma JumpsOfMoves(log: seq<Jump>)
    ensures Jumps(MovesOf(log)) == log
  {
    assert forall i :: 0 <= i < |log| ==> JumpOf(MoveOf(log[i])) == log[i];
  }

  lemma JumpsCons(m: Move, p: seq<Move>)
    ensures Jumps([m] + p) == [JumpOf(m)] + Jumps(p)
  {
    assert forall i :: 0 < i <= |p| ==> ([m] + p)[i] == p[i - 1];
  }

  lemma MovesOfSnoc(log: seq<Jump>, m: Move)
    ensures MovesOf(log + [JumpOf(m)]) == MovesOf(log) + [m]
  {
    assert forall i :: 0 <= i < |log| ==> (log + [JumpOf(m)])[i] == log[i];
  }

  /** The log of a state reached from g0: the jumps it records form a legal
      path from g0 that ends on board b. */
  predicate Trail(g0: Grid, b: Grid, log: seq<Jump>)
    requires WellFormed(g0)
  {
    var p := MovesOf(log);
    ValidPath(g0, p) && b == Replay(g0, p)
  }

  /** Playing a legal jump and logging it extends a trail. */
  lemma TrailStep(g0: Grid, b: Grid, log: seq<Jump>, m: Move)
    requires WellFormed(g0) && Trail(g0, b, log) && Legal(b, m)
    ensures Trail(g0, Apply(b, m), log + [JumpOf(m)])
  {
    var p := MovesOf(log);
    MovesOfSnoc(log, m);
    PathSnoc(g0, p, m);
  }

  /** The log of a board reached along p is the pairs of p. */
  lemma TrailOfPath(g0: Grid, p: seq<Move>)
    requires WellFormed(g0) && ValidPath(g0, p)
    ensures Trail(g0, Replay(g0, p), Jumps(p))
  {
    MovesOfJumps(p);
  }

  /** A frontier entry of `greedy_best_first_search`: keyed by the centre heuristic of its board. */
  predicate GreedyNode(g0: Grid, n: Node<seq<Jump>>)
    requires WellFormed(g0)
  {
    Trail(g0, n.board, n.trail) && n.key == CentreHeuristic(n.board)
  }

  predicate GreedyFrontier(g0: Grid, pq: seq<Node<seq<Jump>>>)
    requires WellFormed(g0)
  {
    forall n :: n in pq ==> GreedyNode(g0, n)
  }

  /** The node `greedy_best_first_search` pushes after playing m on g with log `log`. */
  function GreedyChild(g: Grid, log: seq<Jump>, m: Move): Node<seq<Jump>>
    requires WellFormed(g) && InBounds(m)
  {
    var c := Apply(g, m);
    Node(CentreHeuristic(c), c, log + [JumpOf(m)])
  }

  /** The nodes `greedy_best_first_search` pushes for the jumps ms, in order. */
  function GreedyChildren(g: Grid, log: seq<Jump>, ms: seq<Move>): seq<Node<seq<Jump>>>
    requires WellFormed(g) && AllLegal(g, ms)
  {
    if ms == [] then []
    else GreedyChildren(g, log, ms[..|ms| - 1]) + [GreedyChild(g, log, ms[|ms| - 1])]
  }

  lemma GreedyChildrenPrefix(g: Grid, log: seq<Jump>, ms: seq<Move>, k: int)
    requires WellFormed(g) && AllLegal(g, ms) && 0 <= k < |ms|
    ensures AllLegal(g, ms[..k]) && AllLegal(g, ms[..k + 1])
    ensures GreedyChildren(g, log, ms[..k + 1]) == GreedyChildren(g, log, ms[..k]) + [GreedyChild(g, log, ms[k])]
  {
    assert ms[..k + 1][..k] == ms[..k];
  }

  lemma GreedyConcat(g0: Grid, a: seq<Node<seq<Jump>>>, b: seq<Node<seq<Jump>>>)
    requires WellFormed(g0) && GreedyFrontier(g0, a) && GreedyFrontier(g0, b)
    ensures GreedyFrontier(g0, a + b)
  {
  }

  /** Every child pushed by the greedy search is a proper frontier entry, and
      together the children weigh one child weight each. */
  lemma {:induction false} GreedyChildrenSpec(g0: Grid, b: Grid, log: seq<Jump>, ms: seq<Move>)
    requires WellFormed(g0) && Trail(g0, b, log) && AllLegal(b, ms)
    ensures GreedyFrontier(g0, GreedyChildren(b, log, ms))
    ensures Measure(GreedyChildren(b, log, ms)) == |ms| * ChildWeight(b)
  {
    if ms != [] {
      var init, m := ms[..|ms| - 1], ms[|ms| - 1];
      AllLegalInit(b, ms);
      var cs := GreedyChildren(b, log, init);
      var c := GreedyChild(b, log, m);
      assert GreedyChildren(b, log, ms) == cs + [c];
      GreedyChildrenSpec(g0, b, log, init);
      TrailStep(g0, b, log, m);
      ApplyWeight(b, m);
      MeasureSnoc(cs, c);
      GreedyConcat(g0, cs, [c]);
      MulStep(|ms|, ChildWeight(b));
    }
  }

  lemma GreedyPop(g0: Grid, pq: seq<Node<seq<Jump>>>, top: Node<seq<Jump>>, rest: seq<Node<seq<Jump>>>)
    requires WellFormed(g0) && GreedyFrontier(g0, pq)
    requires multiset(rest) + multiset{top} == multiset(pq)
    ensures GreedyNode(g0, top) && GreedyFrontier(g0, rest)
  {
    assert top in multiset(pq);
    forall n | n in rest ensures n in pq {
      assert n in multiset(rest) + multiset{top};
      assert n in multiset(pq);
    }
  }

  /** Pushing the children of a popped entry keeps the frontier invariant and
      makes the frontier lighter than it was before the pop. */
  lemma GreedyExpand(g0: Grid, rest: seq<Node<seq<Jump>>>, top: Node<seq<Jump>>)
    requires WellFormed(g0) && GreedyFrontier(g0, rest) && GreedyNode(g0, top)
    ensures GreedyFrontier(g0, rest + GreedyChildren(top.board, top.trail, PossibleMoves(top.board)))
    ensures Measure(rest + GreedyChildren(top.board, top.trail, PossibleMoves(top.board))) < Measure(rest) + Weight(top.board)
  {
    var cs := GreedyChildren(top.board, top.trail, PossibleMoves(top.board));
    GreedyChildrenSpec(g0, top.board, top.trail, PossibleMoves(top.board));
    GreedyConcat(g0, rest, cs);
    PossibleMovesSpec(top.board);
    ChildrenLighter(top.board, |PossibleMoves(top.board)|);
    MeasureConcat(rest, cs);
  }

  /** The state of an `a_star_search` frontier entry besides its board. */
  datatype Costed = Costed(log: seq<Jump>, cost: nat)

  /** A frontier entry of `a_star_search`: the cost is the length of its log,
      one entry per jump, and the key is that cost plus the centre heuristic. */
  predicate AStarNode(g0: Grid, n: Node<Costed>)
    requires WellFormed(g0)
  {
    Trail(g0, n.board, n.trail.log) && n.trail.cost == |n.trail.log|
    && n.key == n.trail.cost + CentreHeuristic(n.board)
  }

  predicate AStarFrontier(g0: Grid, pq: seq<Node<Costed>>)
    requires WellFormed(g0)
  {
    forall n :: n in pq ==> AStarNode(g0, n)
  }

  function AStarChild(g: Grid, s: Costed, m: Move): Node<Costed>
    requires WellFormed(g) && InBounds(m)
  {
    var c := Apply(g, m);
    Node(s.cost + 1 + CentreHeuristic(c), c, Costed(s.log + [JumpOf(m)], s.cost + 1))
  }

  function AStarChildren(g: Grid, s: Costed, ms: seq<Move>): seq<Node<Costed>>
    requires WellFormed(g) && AllLegal(g, ms)
  {
    if ms == [] then []
    else AStarChildren(g, s, ms[..|ms| - 1]) + [AStarChild(g, s, ms[|ms| - 1])]
  }

  lemma AStarChildrenPrefix(g: Grid, s: Costed, ms: seq<Move>, k: int)
    requires WellFormed(g) && AllLegal(g, ms) && 0 <= k < |ms|
    ensures AllLegal(g, ms[..k]) && AllLegal(g, ms[..k + 1])
    ensures AStarChildren(g, s, ms[..k + 1]) == AStarChildren(g, s, ms[..k]) + [AStarChild(g, s, ms[k])]
  {
    assert ms[..k + 1][..k] == ms[..k];
  }

  lemma AStarConcat(g0: Grid, a: seq<Node<Costed>>, b: seq<Node<Costed>>)
    requires WellFormed(g0) && AStarFrontier(g0, a) && AStarFrontier(g0, b)
    ensures AStarFrontier(g0, a + b)
  {
  }

  lemma {:induction false} AStarChildrenSpec(g0: Grid, b: Grid, s: Costed, ms: seq<Move>)
    requires WellFormed(g0) && Trail(g0, b, s.log) && s.cost == |s.log| && AllLegal(b, ms)
    ensures AStarFrontier(g0, AStarChildren(b, s, ms))
    ensures Measure(AStarChildren(b, s, ms)) == |ms| * ChildWeight(b)
  {
    if ms != [] {
      var init, m := ms[..|ms| - 1], ms[|ms| - 1];
      AllLegalInit(b, ms);
      var cs := AStarChildren(b, s, init);
      var c := AStarChild(b, s, m);
      assert AStarChildren(b, s, ms) == cs + [c];
      AStarChildrenSpec(g0, b, s, init);
      TrailStep(g0, b, s.log, m);
      ApplyWeight(b, m);
      MeasureSnoc(cs, c);
      AStarConcat(g0, cs, [c]);
      MulStep(|ms|, ChildWeight(b));
    }
  }

  lemma AStarPop(g0: Grid, pq: seq<Node<Costed>>, top: Node<Costed>, rest: seq<Node<Costed>>)
    requires WellFormed(g0) && AStarFrontier(g0, pq)
    requires multiset(rest) + multiset{top} == multiset(pq)
    ensures AStarNode(g0, top) && AStarFrontier(g0, rest)
  {
    assert top in multiset(pq);
    forall n | n in rest ensures n in pq {
      assert n in multiset(rest) + multiset{top};
      assert n in multiset(pq);
    }
  }

  lemma AStarExpand(g0: Grid, rest: seq<Node<Costed>>, top: Node<Costed>)
    requires WellFormed(g0) && AStarFrontier(g0, rest) && AStarNode(g0, top)
    ensures AStarFrontier(g0, rest + AStarChildren(top.board, top.trail, PossibleMoves(top.board)))
    ensures Measure(rest + AStarChildren(top.board, top.trail, PossibleMoves(top.board))) < Measure(rest) + Weight(top.board)
  {
    var cs := AStarChildren(top.board, top.trail, PossibleMoves(top.board));
    AStarChildrenSpec(g0, top.board, top.trail, PossibleMoves(top.board));
    AStarConcat(g0, rest, cs);
    PossibleMovesSpec(top.board);
    ChildrenLighter(top.board, |PossibleMoves(top.board)|);
    MeasureConcat(rest, cs);
  }

  /** The target `__init__` settles on: the one given, or else the initial empty cell. */
  function TargetOf(target: Option<(int, int)>, ex: int, ey: int): (int, int)
  {
    if target.Some? then target.value else (ex, ey)
  }

  class SolitaireChinois {
    var board: Grid
    var moves: seq<Jump>
    const initialEmpty: (int, int)
    const finalTarget: (int, int)

    /** The target only has to lie inside the grid: an off-board target cell is
        accepted, and then no board is ever a goal. */
    ghost predicate Valid()
      reads this
    {
      WellFormed(board) && Playable(initialEmpty.0, initialEmpty.1) && InRange(finalTarget.0) && InRange(finalTarget.1)
    }

    /** `__init__`, with the cell the input routine would read passed in. */
    constructor (ex: int, ey: int, target: Option<(int, int)>)
      requires Playable(ex, ey)
      requires target.Some? ==> InRange(target.value.0) && InRange(target.value.1)
      ensures Valid() && initialEmpty == (ex, ey)
      ensures target.Some? ==> finalTarget == target.value
      ensures target.None? ==> finalTarget == (ex, ey)
      ensures board == InitialBoard(ex, ey) && moves == []
    {
      initialEmpty := (ex, ey);
      finalTarget := TargetOf(target, ex, ey);
      LayoutIsCross();
      board := Layout[ex := Layout[ex][ey := Empty]];
      moves := [];
    }

    /** `make_move`: three cell writes and one log entry; no legality check. */
    method MakeMove(x1: int, y1: int, x2: int, y2: int)
      requires Valid() && InBounds(Move(x1, y1, x2, y2))
      modifies this
      ensures Valid()
      ensures board == Apply(old(board), Move(x1, y1, x2, y2))
      ensures moves == old(moves) + [Jump((x1, y1), (x2, y2))]
    {
      var dx, dy := (x2 - x1) / 2, (y2 - y1) / 2;
      board := board[x1 := board[x1][y1 := Empty]];
      board := board[x1 + dx := board[x1 + dx][y1 + dy := Empty]];
      board := board[x2 := board[x2][y2 := Peg]];
      moves := moves + [Jump((x1, y1), (x2, y2))];
    }

    /** `undo_move`: the three inverse writes, and the last log entry dropped. */
    method UndoMove(x1: int, y1: int, x2: int, y2: int)
      requires Valid() && InBounds(Move(x1, y1, x2, y2)) && moves != []
      modifies this
      ensures Valid()
      ensures board == Undo(old(board), Move(x1, y1, x2, y2))
      ensures moves == old(moves)[..|old(moves)| - 1]
    {
      var dx, dy := (x2 - x1) / 2, (y2 - y1) / 2;
      board := board[x1 := board[x1][y1 := Peg]];
      board := board[x1 + dx := board[x1 + dx][y1 + dy := Peg]];
      board := board[x2 := board[x2][y2 := Empty]];
      moves := moves[..|moves| - 1];
    }

    /** `heuristic` and `heuristic_A_star` (the same body): the pegs' summed
        distance to the centre, rows taken as y and cells as x, plus the peg count. */
    method Heuristic() returns (h: int)
      requires Valid()
      ensures h == CentreHeuristic(board)
    {
      var distance := 0;
      for y := 0 to Size
        invariant distance == CentreDistance(board, y)
      {
        var row := board[y];
        for x := 0 to Size
          invariant distance == CentreDistance(board, y) + CentreRowDistance(row, y, x)
        {
          if row[x] == Peg {
            distance := distance + Abs(x - 3) + Abs(y - 3);
          }
        }
      }
      h := PegCount(board) + distance;
    }

    /** `dfs`: backtracking on the live board. It agrees with the reference search
        Search; on success the log has gained the pairs of the winning line, and
        on failure the board and the log are as they were. */
    method Dfs(explored: nat) returns (found: bool, explored': nat)
      requires Valid()
      modifies this
      decreases PegCount(board), 2
      ensures Valid()
      ensures var o := Search(old(board), finalTarget.0, finalTarget.1);
              && found == o.path.Some?
              && explored' == explored + o.explored
              && (found ==> board == Replay(old(board), o.path.value) && moves == old(moves) + Jumps(o.path.value))
              && (!found ==> board == old(board) && moves == old(moves))
      ensures found ==> IsGoal(board, finalTarget.0, finalTarget.1)
      ensures found <==> exists p :: ValidPath(old(board), p) && IsGoal(Replay(old(board), p), finalTarget.0, finalTarget.1)
    {
      SearchDecides(board, finalTarget.0, finalTarget.1);
      if IsGoal(board, finalTarget.0, finalTarget.1) {
        assert Jumps([]) == [];
        return true, explored;
      }
      var ms := GetPossibleMoves(board);
      found, explored' := DfsLoop(ms, explored + 1);
    }

    /** The loop of `dfs` over the jumps ms generated on entry, agreeing with SearchList. */
    method DfsLoop(ms: seq<Move>, explored: nat) returns (found: bool, explored': nat)
      requires Valid() && AllLegal(board, ms)
      modifies this
      decreases PegCount(board), 1
      ensures Valid()
      ensures var o := SearchList(old(board), finalTarget.0, finalTarget.1, ms);
              && found == o.path.Some?
              && explored' == explored + o.explored
              && (found ==> board == Replay(old(board), o.path.value) && moves == old(moves) + Jumps(o.path.value))
              && (!found ==> board == old(board) && moves == old(moves))
    {
      var tx, ty := finalTarget.0, finalTarget.1;
      ghost var g, log := board, moves;
      ghost var o := SearchList(g, tx, ty, ms);
      explored' := explored;
      var i := 0;
      while i < |ms|
        invariant 0 <= i <= |ms|
        invariant Valid() && board == g && moves == log
        invariant SearchList(g, tx, ty, ms[i..]).path == o.path
        invariant explored' + SearchList(g, tx, ty, ms[i..]).explored == explored + o.explored
      {
        SearchListStep(g, tx, ty, ms, i);
        var f, e := DfsStep(ms[i], explored');
        if f {
          return true, e;
        }
        explored' := e;
        i := i + 1;
      }
      assert ms[|ms|..] == [];
      return false, explored';
    }

    /** One turn of the loop of `dfs` for the legal jump m: play it, search on,
        and on failure take it back. */
    method DfsStep(m: Move, explored: nat) returns (found: bool, explored': nat)
      requires Valid() && Legal(board, m)
      modifies this
      decreases PegCount(board), 0
      ensures Valid()
      ensures var o := Search(Apply(old(board), m), finalTarget.0, finalTarget.1);
              && found == o.path.Some?
              && explored' == explored + o.explored
              && (found ==> var p := o.path.value;
                    && ValidPath(old(board), [m] + p)
                    && board == Replay(old(board), [m] + p)
                    && moves == old(moves) + Jumps([m] + p))
              && (!found ==> board == old(board) && moves == old(moves))
    {
      ghost var g, log := board, moves;
      ApplyPegCount(g, m);
      MakeMove(m.x1, m.y1, m.x2, m.y2);
      found, explored' := Dfs(explored);
      if found {
        DfsFound(g, m, Search(Apply(g, m), finalTarget.0, finalTarget.1).path.value, log);
        return;
      }
      UndoMove(m.x1, m.y1, m.x2, m.y2);
      UndoApply(g, m);
    }

    /** `greedy_best_first_search`. The ghost results record the non-goal boards
        popped (each adds one to the count) and, among them, those expanded:
        no board is expanded twice. On success the board is a goal board and
        the log is a legal line to it from the entry board. */
    method GreedyBestFirstSearch(explored: nat)
      returns (found: bool, explored': nat, ghost popped: seq<Grid>, ghost expanded: seq<Grid>)
      requires Valid()
      modifies this
      ensures Valid() && Trail(old(board), board, moves)
      ensures found ==> IsGoal(board, finalTarget.0, finalTarget.1)
      ensures explored' == explored + |popped|
      ensures exists visited :: Accounted(visited, popped, expanded, finalTarget.0, finalTarget.1)
    {
      var tx, ty := finalTarget.0, finalTarget.1;
      ghost var g0 := board;
      assert MovesOf([]) == [];
      var h := Heuristic();
      var root := Node(h, board, []);
      var pq := [root];
      var visited: set<Grid> := {};
      found, explored', popped, expanded := false, explored, [], [];
      AccountedStart(tx, ty);
      while pq != []
        invariant Valid() && (pq == [root] || Trail(g0, board, moves))
        invariant GreedyFrontier(g0, pq)
        invariant !found && explored' == explored + |popped|
        invariant Accounted(visited, popped, expanded, tx, ty)
        decreases Measure(pq)
      {
        var top, rest := HeapPop(pq);
        GreedyPop(g0, pq, top, rest);
        pq := rest;
        board, moves := top.board, top.trail;
        if IsGoal(board, tx, ty) {
          return true, explored', popped, expanded;
        }
        explored' := explored' + 1;
        if board in visited {
          AccountedRevisit(visited, popped, expanded, tx, ty, board);
          popped := popped + [board];
          continue;
        }
        AccountedExpand(visited, popped, expanded, tx, ty, board);
        visited, popped, expanded := visited + {board}, popped + [board], expanded + [board];
        GreedyExpand(g0, rest, top);
        pq := PushGreedyChildren(pq);
      }
    }

    /** The expansion loop of `greedy_best_first_search`: play each generated
        jump, push the child snapshot keyed by its heuristic, take the jump back. */
    method PushGreedyChildren(pq: seq<Node<seq<Jump>>>) returns (pq': seq<Node<seq<Jump>>>)
      requires Valid()
      modifies this
      ensures Valid() && board == old(board) && moves == old(moves)
      ensures pq' == pq + GreedyChildren(board, moves, PossibleMoves(board))
    {
      ghost var g, log := board, moves;
      var ms := GetPossibleMoves(board);
      pq' := pq;
      for k := 0 to |ms|
        invariant Valid() && board == g && moves == log
        invariant AllLegal(g, ms) && pq' == pq + GreedyChildren(g, log, ms[..k])
      {
        var child := GreedyEntry(ms[k]);
        GreedyChildrenPrefix(g, log, ms, k);
        AppendAssoc(pq, GreedyChildren(g, log, ms[..k]), [child]);
        pq' := pq' + [child];
      }
      assert ms[..|ms|] == ms;
    }

    /** The body of the expansion loops: play m, take the snapshot of the board
        and of the log and the heuristic of the board, and take m back. */
    method Probe(m: Move) returns (h: int, b: Grid, log: seq<Jump>)
      requires Valid() && Legal(board, m)
      modifies this
      ensures Valid() && board == old(board) && moves == old(moves)
      ensures b == Apply(board, m) && h == CentreHeuristic(b)
      ensures log == moves + [JumpOf(m)]
    {
      MakeMove(m.x1, m.y1, m.x2, m.y2);
      b, log := board, moves;
      h := Heuristic();
      UndoMove(m.x1, m.y1, m.x2, m.y2);
      UndoApply(old(board), m);
    }

    method GreedyEntry(m: Move) returns (child: Node<seq<Jump>>)
      requires Valid() && Legal(board, m)
      modifies this
      ensures Valid() && board == old(board) && moves == old(moves)
      ensures child == GreedyChild(board, moves, m)
    {
      var h, b, l := Probe(m);
      child := Node(h, b, l);
    }

    /** One child of the A* expansion loop: the snapshot after m at one more jump
        of cost, keyed by that cost plus its heuristic. */
    method AStarEntry(m: Move, cost: nat) returns (child: Node<Costed>)
      requires Valid() && Legal(board, m)
      modifies this
      ensures Valid() && board == old(board) && moves == old(moves)
      ensures child == AStarChild(board, Costed(moves, cost), m)
    {
      var h, b, l := Probe(m);
      var newCost := cost + 1;
      child := Node(newCost + h, b, Costed(l, newCost));
    }

    /** `a_star_search`: as the greedy search, with each entry keyed by the number
        of jumps taken plus the heuristic. */
    method AStarSearch(explored: nat)
      returns (found: bool, explored': nat, ghost popped: seq<Grid>, ghost expanded: seq<Grid>)
      requires Valid()
      modifies this
      ensures Valid() && Trail(old(board), board, moves)
      ensures found ==> IsGoal(board, finalTarget.0, finalTarget.1)
      ensures explored' == explored + |popped|
      ensures exists visited :: Accounted(visited, popped, expanded, finalTarget.0, finalTarget.1)
    {
      var tx, ty := finalTarget.0, finalTarget.1;
      ghost var g0 := board;
      assert MovesOf([]) == [];
      var h := Heuristic();
      var root := Node(h + 0, board, Costed([], 0));
      var pq := [root];
      var visited: set<Grid> := {};
      found, explored', popped, expanded := false, explored, [], [];
      AccountedStart(tx, ty);
      while pq != []
        invariant Valid() && (pq == [root] || Trail(g0, board, moves))
        invariant AStarFrontier(g0, pq)
        invariant !found && explored' == explored + |popped|
        invariant Accounted(visited, popped, expanded, tx, ty)
        decreases Measure(pq)
      {
        var top, rest := HeapPop(pq);
        AStarPop(g0, pq, top, rest);
        pq := rest;
        board, moves := top.board, top.trail.log;
        if IsGoal(board, tx, ty) {
          return true, explored', popped, expanded;
        }
        explored' := explored' + 1;
        if board in visited {
          AccountedRevisit(visited, popped, expanded, tx, ty, board);
          popped := popped + [board];
          continue;
        }
        AccountedExpand(visited, popped, expanded, tx, ty, board);
        visited, popped, expanded := visited + {board}, popped + [board], expanded + [board];
        AStarExpand(g0, rest, top);
        pq := PushAStarChildren(pq, top.trail.cost);
      }
    }

    /** The expansion loop of `a_star_search`. */
    method PushAStarChildren(pq: seq<Node<Costed>>, cost: nat) returns (pq': seq<Node<Costed>>)
      requires Valid()
      modifies this
      ensures Valid() && board == old(board) && moves == old(moves)
      ensures pq' == pq + AStarChildren(board, Costed(moves, cost), PossibleMoves(board))
    {
      ghost var g, log := board, moves;
      var ms := GetPossibleMoves(board);
      pq' := pq;
      for k := 0 to |ms|
        invariant Valid() && board == g && moves == log
        invariant AllLegal(g, ms) && pq' == pq + AStarChildren(g, Costed(log, cost), ms[..k])
      {
        var child := AStarEntry(ms[k], cost);
        AStarChildrenPrefix(g, Costed(log, cost), ms, k);
        AppendAssoc(pq, AStarChildren(g, Costed(log, cost), ms[..k]), [child]);
        pq' := pq' + [child];
      }
      assert ms[..|ms|] == ms;
    }
  }

  /** The success case of one loop step of `dfs`: the path found below jump m,
      with m in front, is the reference search's path from g. */
  lemma DfsFound(g: Grid, m: Move, p: seq<Move>, log: seq<Jump>)
    requires WellFormed(g) && Legal(g, m) && ValidPath(Apply(g, m), p)
    ensures ValidPath(g, [m] + p) && Replay(g, [m] + p) == Replay(Apply(g, m), p)
    ensures log + [JumpOf(m)] + Jumps(p) == log + Jumps([m] + p)
  {
    PathCons(g, m, p);
    JumpsCons(m, p);
    AppendAssoc(log, [JumpOf(m)], Jumps(p));
  }
}
