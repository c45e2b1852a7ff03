/**
 * The first revision of the solver class (solitaire_chinois.py). Its move
 * log mixes two kinds of entries: `make_move` appends the pair
 * ((x1, y1), (x2, y2)), and the informed searches also append the 4-tuple
 * (x1, y1, x2, y2) of the move they just played; `log_moves` replays only
 * the 4-tuples. The caller-owned lists `explored_states` and
 * `solution_moves` are passed in and handed back as values.
 */
module Chinois {
  import opened Board
  import opened MoveGen
  import opened Heuristic
  import opened Backtrack
  import opened Frontier

  /** One entry of a move log or of a solution list. */
  datatype Record = PairRec(jump: Jump) | QuadRec(move: Move)

  /** The 4-tuple entries of a log, in order. */
  function Quads(log: seq<Record>): seq<Move>
  {
    if log == [] then []
    else Quads(log[..|log| - 1]) + (if log[|log| - 1].QuadRec? then [log[|log| - 1].move] else [])
  }

  /** The pairs `make_move` appends while the jumps of p are played. */
  function Pairs(p: seq<Move>): seq<Record>
  {
    seq(|p|, i requires 0 <= i < |p| => PairRec(JumpOf(p[i])))
  }

  /** The 4-tuples `dfs` appends to `solution_moves` along p. */
  function Tuples(p: seq<Move>): seq<Record>
  {
    seq(|p|, i requires 0 <= i < |p| => QuadRec(p[i]))
  }

  /** The log of a frontier state reached along p: a pair, then a 4-tuple, per jump. */
  function Interleave(p: seq<Move>): seq<Record>
  {
    if p == [] then []
    else Interleave(p[..|p| - 1]) + [PairRec(JumpOf(p[|p| - 1])), QuadRec(p[|p| - 1])]
  }

  lemma {:induction false} QuadsConcat(a: seq<Record>, b: seq<Record>)
    ensures Quads(a + b) == Quads(a) + Quads(b)
  {
    if b != [] {
      assert (a + b)[..|a + b| - 1] == a + b[..|b| - 1];
      QuadsConcat(a, b[..|b| - 1]);
    } else {
      assert a + b == a;
    }
  }

  /** One pair and one 4-tuple appended add one jump to the 4-tuples of a log. */
  lemma QuadsStep(log: seq<Record>, m: Move)
    ensures Quads(log + [PairRec(JumpOf(m)), QuadRec(m)]) == Quads(log) + [m]
  {
    var l1 := log + [PairRec(JumpOf(m))];
    var l2 := log + [PairRec(JumpOf(m)), QuadRec(m)];
    assert l2[..|l2| - 1] == l1 && l1[..|l1| - 1] == log;
  }

  lemma AppendTwo<T>(s: seq<T>, a: T, b: T)
    ensures (s + [a]) + [b] == s + [a, b]
  {
  }

  /** Replaying a frontier log recovers exactly the jumps taken. */
  lemma {:induction false} QuadsOfInterleave(p: seq<Move>)
    ensures Quads(Interleave(p)) == p
  {
    if p != [] {
      var m := p[|p| - 1];
      QuadsOfInterleave(p[..|p| - 1]);
      QuadsStep(Interleave(p[..|p| - 1]), m);
    }
  }

  /** Replaying a `dfs` solution list recovers exactly the jumps taken. */
  lemma {:induction false} QuadsOfTuples(p: seq<Move>)
    ensures Quads(Tuples(p)) == p
  {
    if p != [] {
      var init := p[..|p| - 1];
      QuadsOfTuples(init);
      assert Tuples(p)[..|p| - 1] == Tuples(init);
    }
  }

  /** The log of a state reached from g0: its 4-tuples form a legal path from g0
      to board b, and the log is that path's pairs and 4-tuples interleaved. */
  predicate Trail(g0: Grid, b: Grid, log: seq<Record>)
    requires WellFormed(g0)
  {
    var p := Quads(log);
    log == Interleave(p) && ValidPath(g0, p) && b == Replay(g0, p)
  }

  /** A frontier entry of `greedy_best_first_search`: keyed by the heuristic of its board. */
  predicate GreedyNode(g0: Grid, tx: int, ty: int, n: Node<seq<Record>>)
    requires WellFormed(g0)
  {
    Trail(g0, n.board, n.trail) && n.key == TargetHeuristic(n.board, tx, ty)
  }

  predicate GreedyFrontier(g0: Grid, tx: int, ty: int, pq: seq<Node<seq<Record>>>)
    requires WellFormed(g0)
  {
    forall n :: n in pq ==> GreedyNode(g0, tx, ty, n)
  }

  /** The node `greedy_best_first_search` pushes after playing m on g with log `log`. */
  function GreedyChild(g: Grid, log: seq<Record>, tx: int, ty: int, m: Move): Node<seq<Record>>
    requires WellFormed(g) && InBounds(m)
  {
    var c := Apply(g, m);
    Node(TargetHeuristic(c, tx, ty), c, log + [PairRec(JumpOf(m)), QuadRec(m)])
  }

  /** The nodes `greedy_best_first_search` pushes for the jumps ms, in order. */
  function GreedyChildren(g: Grid, log: seq<Record>, tx: int, ty: int, ms: seq<Move>): seq<Node<seq<Record>>>
    requires WellFormed(g) && AllLegal(g, ms)
  {
    if ms == [] then []
    else GreedyChildren(g, log, tx, ty, ms[..|ms| - 1]) + [GreedyChild(g, log, tx, ty, ms[|ms| - 1])]
  }

  /** The children for one more jump of ms are those for the jumps before it, and its own. */
  lemma GreedyChildrenPrefix(g: Grid, log: seq<Record>, tx: int, ty: int, ms: seq<Move>, k: int)
    requires WellFormed(g) && AllLegal(g, ms) && 0 <= k < |ms|
    ensures AllLegal(g, ms[..k]) && AllLegal(g, ms[..k + 1])
    ensures GreedyChildren(g, log, tx, ty, ms[..k + 1])
         == GreedyChildren(g, log, tx, ty, ms[..k]) + [GreedyChild(g, log, tx, ty, ms[k])]
  {
    assert ms[..k + 1][..k] == ms[..k];
  }

  /** Extending the log of a reached state by a legal jump gives the log of the child. */
  lemma TrailStep(g0: Grid, b: Grid, log: seq<Record>, m: Move)
    requires WellFormed(g0) && Trail(g0, b, log) && Legal(b, m)
    ensures Trail(g0, Apply(b, m), log + [PairRec(JumpOf(m)), QuadRec(m)])
  {
    var p := Quads(log);
    QuadsStep(log, m);
    assert (p + [m])[..|p + [m]| - 1] == p;
    PathSnoc(g0, p, m);
  }

  /** Every child pushed by the greedy search is a proper frontier entry, and
      together the children weigh one child weight each. */
  lemma {:induction false} GreedyChildrenSpec(g0: Grid, tx: int, ty: int, b: Grid, log: seq<Record>, ms: seq<Move>)
    requires WellFormed(g0) && Trail(g0, b, log) && AllLegal(b, ms)
    ensures GreedyFrontier(g0, tx, ty, GreedyChildren(b, log, tx, ty, ms))
    ensures Measure(GreedyChildren(b, log, tx, ty, ms)) == |ms| * ChildWeight(b)
  {
    if ms != [] {
      var init, m := ms[..|ms| - 1], ms[|ms| - 1];
      AllLegalInit(b, ms);
      var cs := GreedyChildren(b, log, tx, ty, init);
      var c := GreedyChild(b, log, tx, ty, m);
      assert GreedyChildren(b, log, tx, ty, ms) == cs + [c];
      GreedyChildrenSpec(g0, tx, ty, b, log, init);
      TrailStep(g0, b, log, m);
      ApplyWeight(b, m);
      MeasureSnoc(cs, c);
      GreedyConcat(g0, tx, ty, cs, [c]);
      MulStep(|ms|, ChildWeight(b));
    }
  }

  /** Popping keeps the frontier invariant, for the node taken and for the rest. */
  lemma GreedyPop(g0: Grid, tx: int, ty: int, pq: seq<Node<seq<Record>>>, top: Node<seq<Record>>, rest: seq<Node<seq<Record>>>)
    requires WellFormed(g0) && GreedyFrontier(g0, tx, ty, pq)
    requires multiset(rest) + multiset{top} == multiset(pq)
    ensures GreedyNode(g0, tx, ty, top) && GreedyFrontier(g0, tx, ty, rest)
  {
    assert top in multiset(pq);
    forall n | n in rest ensures n in pq {
      assert n in multiset(rest) + multiset{top};
      assert n in multiset(pq);
    }
  }

  lemma GreedyConcat(g0: Grid, tx: int, ty: int, a: seq<Node<seq<Record>>>, b: seq<Node<seq<Record>>>)
    requires WellFormed(g0) && GreedyFrontier(g0, tx, ty, a) && GreedyFrontier(g0, tx, ty, b)
    ensures GreedyFrontier(g0, tx, ty, a + b)
  {
  }

  /** The state of an `a_star_search` frontier entry besides its board. */
  datatype Costed = Costed(log: seq<Record>, cost: nat)

  /** A frontier entry of `a_star_search`: the cost is the number of jumps taken,
      and the key is that cost plus the heuristic of the board. */
  predicate AStarNode(g0: Grid, tx: int, ty: int, n: Node<Costed>)
    requires WellFormed(g0)
  {
    Trail(g0, n.board, n.trail.log) && n.trail.cost == |Quads(n.trail.log)|
    && n.key == n.trail.cost + TargetHeuristic(n.board, tx, ty)
  }

  predicate AStarFrontier(g0: Grid, tx: int, ty: int, pq: seq<Node<Costed>>)
    requires WellFormed(g0)
  {
    forall n :: n in pq ==> AStarNode(g0, tx, ty, n)
  }

  function AStarChild(g: Grid, s: Costed, tx: int, ty: int, m: Move): Node<Costed>
    requires WellFormed(g) && InBounds(m)
  {
    var c := Apply(g, m);
    Node(s.cost + 1 + TargetHeuristic(c, tx, ty), c, Costed(s.log + [PairRec(JumpOf(m)), QuadRec(m)], s.cost + 1))
  }

  function AStarChildren(g: Grid, s: Costed, tx: int, ty: int, ms: seq<Move>): seq<Node<Costed>>
    requires WellFormed(g) && AllLegal(g, ms)
  {
    if ms == [] then []
    else AStarChildren(g, s, tx, ty, ms[..|ms| - 1]) + [AStarChild(g, s, tx, ty, ms[|ms| - 1])]
  }

  lemma AStarChildrenPrefix(g: Grid, s: Costed, tx: int, ty: int, ms: seq<Move>, k: int)
    requires WellFormed(g) && AllLegal(g, ms) && 0 <= k < |ms|
    ensures AllLegal(g, ms[..k]) && AllLegal(g, ms[..k + 1])
    ensures AStarChildren(g, s, tx, ty, ms[..k + 1])
         == AStarChildren(g, s, tx, ty, ms[..k]) + [AStarChild(g, s, tx, ty, ms[k])]
  {
    assert ms[..k + 1][..k] == ms[..k];
  }

  lemma {:induction false} AStarChildrenSpec(g0: Grid, tx: int, ty: int, b: Grid, s: Costed, ms: seq<Move>)
    requires WellFormed(g0) && Trail(g0, b, s.log) && s.cost == |Quads(s.log)| && AllLegal(b, ms)
    ensures AStarFrontier(g0, tx, ty, AStarChildren(b, s, tx, ty, ms))
    ensures Measure(AStarChildren(b, s, tx, ty, ms)) == |ms| * ChildWeight(b)
  {
    if ms != [] {
      var init, m := ms[..|ms| - 1], ms[|ms| - 1];
      AllLegalInit(b, ms);
      var cs := AStarChildren(b, s, tx, ty, init);
      var c := AStarChild(b, s, tx, ty, m);
      assert AStarChildren(b, s, tx, ty, ms) == cs + [c];
      AStarChildrenSpec(g0, tx, ty, b, s, init);
      TrailStep(g0, b, s.log, m);
      QuadsStep(s.log, m);
      ApplyWeight(b, m);
      MeasureSnoc(cs, c);
      AStarConcat(g0, tx, ty, cs, [c]);
      MulStep(|ms|, ChildWeight(b));
    }
  }

  lemma AStarPop(g0: Grid, tx: int, ty: int, pq: seq<Node<Costed>>, top: Node<Costed>, rest: seq<Node<Costed>>)
    requires WellFormed(g0) && AStarFrontier(g0, tx, ty, pq)
    requires multiset(rest) + multiset{top} == multiset(pq)
    ensures AStarNode(g0, tx, ty, top) && AStarFrontier(g0, tx, ty, rest)
  {
    assert top in multiset(pq);
    forall n | n in rest ensures n in pq {
      assert n in multiset(rest) + multiset{top};
      assert n in multiset(pq);
    }
  }

  lemma AStarConcat(g0: Grid, tx: int, ty: int, a: seq<Node<Costed>>, b: seq<Node<Costed>>)
    requires WellFormed(g0) && AStarFrontier(g0, tx, ty, a) && AStarFrontier(g0, tx, ty, b)
    ensures AStarFrontier(g0, tx, ty, a + b)
  {
  }

  /** Pushing the children of a popped entry keeps the frontier invariant and
      makes the frontier lighter than it was before the pop. */
  lemma GreedyExpand(g0: Grid, tx: int, ty: int, rest: seq<Node<seq<Record>>>, top: Node<seq<Record>>)
    requires WellFormed(g0) && GreedyFrontier(g0, tx, ty, rest) && GreedyNode(g0, tx, ty, top)
    ensures GreedyFrontier(g0, tx, ty, rest + GreedyChildren(top.board, top.trail, tx, ty, PossibleMoves(top.board)))
    ensures Measure(rest + GreedyChildren(top.board, top.trail, tx, ty, PossibleMoves(top.board))) < Measure(rest) + Weight(top.board)
  {
    var cs := GreedyChildren(top.board, top.trail, tx, ty, PossibleMoves(top.board));
    GreedyChildrenSpec(g0, tx, ty, top.board, top.trail, PossibleMoves(top.board));
    GreedyConcat(g0, tx, ty, rest, cs);
    PossibleMovesSpec(top.board);
    ChildrenLighter(top.board, |PossibleMoves(top.board)|);
    MeasureConcat(rest, cs);
  }

  lemma AStarExpand(g0: Grid, tx: int, ty: int, rest: seq<Node<Costed>>, top: Node<Costed>)
    requires WellFormed(g0) && AStarFrontier(g0, tx, ty, rest) && AStarNode(g0, tx, ty, top)
    ensures AStarFrontier(g0, tx, ty, rest + AStarChildren(top.board, top.trail, tx, ty, PossibleMoves(top.board)))
    ensures Measure(rest + AStarChildren(top.board, top.trail, tx, ty, PossibleMoves(top.board))) < Measure(rest) + Weight(top.board)
  {
    var cs := AStarChildren(top.board, top.trail, tx, ty, PossibleMoves(top.board));
    AStarChildrenSpec(g0, tx, ty, top.board, top.trail, PossibleMoves(top.board));
    AStarConcat(g0, tx, ty, rest, cs);
    PossibleMovesSpec(top.board);
    ChildrenLighter(top.board, |PossibleMoves(top.board)|);
    MeasureConcat(rest, cs);
  }

  class SolitaireChinois {
    var board: Grid
    var moves: seq<Record>
    const initialEmpty: (int, int)
    const finalTarget: (int, int)

    ghost predicate Valid()
      reads this
    {
      WellFormed(board) && Playable(initialEmpty.0, initialEmpty.1) && Playable(finalTarget.0, finalTarget.1)
    }

    /** `__init__`, with the two coordinates the input routines would read passed in. */
    constructor (ex: int, ey: int, tx: int, ty: int)
      requires Playable(ex, ey) && Playable(tx, ty)
      ensures Valid() && initialEmpty == (ex, ey) && finalTarget == (tx, ty)
      ensures board == InitialBoard(ex, ey) && moves == []
    {
      initialEmpty, finalTarget := (ex, ey), (tx, ty);
      LayoutIsCross();
      board := Layout[ex := Layout[ex][ey := Empty]];
      moves := [];
    }

    /** `make_move`: three cell writes and one log entry; no legality check. */
    method MakeMove(x1: int, y1: int, x2: int, y2: int)
      requires Valid() && InBounds(Move(x1, y1, x2, y2))
      modifies this
      ensures Valid()
      ensures board == Apply(old(board), Move(x1, y1, x2, y2))
      ensures moves == old(moves) + [PairRec(Jump((x1, y1), (x2, y2)))]
    {
      var dx, dy := (x2 - x1) / 2, (y2 - y1) / 2;
      board := board[x1 := board[x1][y1 := Empty]];
      board := board[x1 + dx := board[x1 + dx][y1 + dy := Empty]];
      board := board[x2 := board[x2][y2 := Peg]];
      moves := moves + [PairRec(Jump((x1, y1), (x2, y2)))];
    }

    /** `undo_move`: the three inverse writes, and the last log entry dropped. */
    method UndoMove(x1: int, y1: int, x2: int, y2: int)
      requires Valid() && InBounds(Move(x1, y1, x2, y2)) && moves != []
      modifies this
      ensures Valid()
      ensures board == Undo(old(board), Move(x1, y1, x2, y2))
      ensures moves == old(moves)[..|old(moves)| - 1]
    {
      var dx, dy := (x2 - x1) / 2, (y2 - y1) / 2;
      board := board[x1 := board[x1][y1 := Peg]];
      board := board[x1 + dx := board[x1 + dx][y1 + dy := Peg]];
      board := board[x2 := board[x2][y2 := Empty]];
      moves := moves[..|moves| - 1];
    }

    /** `heuristic`: the pegs' summed distance to the target, plus the peg count. */
    method Heuristic() returns (h: int)
      requires Valid()
      ensures h == TargetHeuristic(board, finalTarget.0, finalTarget.1)
    {
      var tx, ty := finalTarget.0, finalTarget.1;
      var distanceSum := 0;
      for x := 0 to Size
        invariant distanceSum == Distance(board, tx, ty, x)
      {
        for y := 0 to Size
          invariant distanceSum == Distance(board, tx, ty, x) + RowDistance(board[x], x, tx, ty, y)
        {
          if board[x][y] == Peg {
            distanceSum := distanceSum + Abs(x - tx) + Abs(y - ty);
          }
        }
      }
      h := distanceSum + PegCount(board);
    }

    /** `dfs`: backtracking on the live board. It agrees with the reference search
        Search, so it succeeds exactly when a goal board is reachable; on
        failure it leaves the board, the log and the solution list as they were. */
    method Dfs(explored: nat, solution: seq<Record>) returns (found: bool, explored': nat, solution': seq<Record>)
      requires Valid()
      modifies this
      decreases PegCount(board), 2
      ensures Valid()
      ensures var o := Search(old(board), finalTarget.0, finalTarget.1);
              && found == o.path.Some?
              && explored' == explored + o.explored
              && (found ==> var p := o.path.value;
                    && board == Replay(old(board), p)
                    && moves == old(moves) + Pairs(p)
                    && solution' == solution + Tuples(p))
              && (!found ==> board == old(board) && moves == old(moves) && solution' == solution)
      ensures found ==> IsGoal(board, finalTarget.0, finalTarget.1)
      ensures found <==> exists p :: ValidPath(old(board), p) && IsGoal(Replay(old(board), p), finalTarget.0, finalTarget.1)
    {
      SearchDecides(board, finalTarget.0, finalTarget.1);
      if IsGoal(board, finalTarget.0, finalTarget.1) {
        assert Pairs([]) == [] && Tuples([]) == [];
        return true, explored, solution;
      }
      var ms := GetPossibleMoves(board);
      found, explored', solution' := DfsLoop(ms, explored + 1, solution);
    }

    /** The loop of `dfs` over the jumps ms generated on entry, agreeing with SearchList. */
    method DfsLoop(ms: seq<Move>, explored: nat, solution: seq<Record>) returns (found: bool, explored': nat, solution': seq<Record>)
      requires Valid() && AllLegal(board, ms)
      modifies this
      decreases PegCount(board), 1
      ensures Valid()
      ensures var o := SearchList(old(board), finalTarget.0, finalTarget.1, ms);
              && found == o.path.Some?
              && explored' == explored + o.explored
              && (found ==> var p := o.path.value;
                    && board == Replay(old(board), p)
                    && moves == old(moves) + Pairs(p)
                    && solution' == solution + Tuples(p))
              && (!found ==> board == old(board) && moves == old(moves) && solution' == solution)
    {
      var tx, ty := finalTarget.0, finalTarget.1;
      ghost var g, log := board, moves;
      ghost var o := SearchList(g, tx, ty, ms);
      explored', solution' := explored, solution;
      var i := 0;
      while i < |ms|
        invariant 0 <= i <= |ms|
        invariant Valid() && board == g && moves == log && solution' == solution
        invariant SearchList(g, tx, ty, ms[i..]).path == o.path
        invariant explored' + SearchList(g, tx, ty, ms[i..]).explored == explored + o.explored
      {
        SearchListStep(g, tx, ty, ms, i);
        var f, e, s := DfsStep(ms[i], explored', solution');
        if f {
          return true, e, s;
        }
        explored', solution' := e, s;
        i := i + 1;
      }
      assert ms[|ms|..] == [];
      return false, explored', solution';
    }

    /** One turn of the loop of `dfs` for the legal jump m: play it, record it,
        search on, and on failure take both back. */
    method DfsStep(m: Move, explored: nat, solution: seq<Record>) returns (found: bool, explored': nat, solution': seq<Record>)
      requires Valid() && Legal(board, m)
      modifies this
      decreases PegCount(board), 0
      ensures Valid()
      ensures var o := Search(Apply(old(board), m), finalTarget.0, finalTarget.1);
              && found == o.path.Some?
              && explored' == explored + o.explored
              && (found ==> var p := o.path.value;
                    && ValidPath(old(board), [m] + p)
                    && board == Replay(old(board), [m] + p)
                    && moves == old(moves) + Pairs([m] + p)
                    && solution' == solution + Tuples([m] + p))
              && (!found ==> board == old(board) && moves == old(moves) && solution' == solution)
    {
      ghost var g, log := board, moves;
      ApplyPegCount(g, m);
      MakeMove(m.x1, m.y1, m.x2, m.y2);
      var s: seq<Record>;
      found, explored', s := Dfs(explored, solution + [QuadRec(m)]);
      if found {
        DfsFound(g, m, Search(Apply(g, m), finalTarget.0, finalTarget.1).path.value, log, solution);
        return true, explored', s;
      }
      solution' := s[..|s| - 1];
      UndoMove(m.x1, m.y1, m.x2, m.y2);
      UndoApply(g, m);
    }

    /** `greedy_best_first_search`. The ghost results record the non-goal boards
        popped (each adds one to the count) and, among them, those expanded:
        no board is expanded twice. On success the board is a goal board
        reached legally from the entry board, and the solution list gains the
        log of that board. */
    method GreedyBestFirstSearch(explored: nat, solution: seq<Record>)
      returns (found: bool, explored': nat, solution': seq<Record>, ghost popped: seq<Grid>, ghost expanded: seq<Grid>)
      requires Valid()
      modifies this
      ensures Valid() && Trail(old(board), board, moves)
      ensures found ==> IsGoal(board, finalTarget.0, finalTarget.1) && solution' == solution + moves
      ensures !found ==> solution' == solution
      ensures explored' == explored + |popped|
      ensures exists visited :: Accounted(visited, popped, expanded, finalTarget.0, finalTarget.1)
    {
      var tx, ty := finalTarget.0, finalTarget.1;
      ghost var g0 := board;
      assert Trail(g0, g0, []);
      var h := Heuristic();
      var root := Node(h, board, []);
      var pq := [root];
      var visited: set<Grid> := {};
      found, explored', solution', popped, expanded := false, explored, solution, [], [];
      AccountedStart(tx, ty);
      while pq != []
        invariant Valid() && (pq == [root] || Trail(g0, board, moves))
        invariant GreedyFrontier(g0, tx, ty, pq)
        invariant !found && solution' == solution && explored' == explored + |popped|
        invariant Accounted(visited, popped, expanded, tx, ty)
        decreases Measure(pq)
      {
        var top, rest := HeapPop(pq);
        GreedyPop(g0, tx, ty, pq, top, rest);
        pq := rest;
        board, moves := top.board, top.trail;
        if IsGoal(board, tx, ty) {
          return true, explored', solution + moves, popped, expanded;
        }
        explored' := explored' + 1;
        if board in visited {
          AccountedRevisit(visited, popped, expanded, tx, ty, board);
          popped := popped + [board];
          continue;
        }
        AccountedExpand(visited, popped, expanded, tx, ty, board);
        visited, popped, expanded := visited + {board}, popped + [board], expanded + [board];
        GreedyExpand(g0, tx, ty, rest, top);
        pq := PushGreedyChildren(pq);
      }
    }

    /** The expansion loop of `greedy_best_first_search`: play each generated
        jump, push the child snapshot keyed by its heuristic, take the jump back. */
    method PushGreedyChildren(pq: seq<Node<seq<Record>>>) returns (pq': seq<Node<seq<Record>>>)
      requires Valid()
      modifies this
      ensures Valid() && board == old(board) && moves == old(moves)
      ensures pq' == pq + GreedyChildren(board, moves, finalTarget.0, finalTarget.1, PossibleMoves(board))
    {
      var tx, ty := finalTarget.0, finalTarget.1;
      ghost var g, log := board, moves;
      var ms := GetPossibleMoves(board);
      pq' := pq;
      for k := 0 to |ms|
        invariant Valid() && board == g && moves == log
        invariant AllLegal(g, ms) && pq' == pq + GreedyChildren(g, log, tx, ty, ms[..k])
      {
        var child := GreedyEntry(ms[k]);
        GreedyChildrenPrefix(g, log, tx, ty, ms, k);
        AppendAssoc(pq, GreedyChildren(g, log, tx, ty, ms[..k]), [child]);
        pq' := pq' + [child];
      }
      assert ms[..|ms|] == ms;
    }

    /** The body of the expansion loops: play m, take the snapshot of the board
        and of the log and the heuristic of the board, and take m back. */
    method Probe(m: Move) returns (h: int, b: Grid, log: seq<Record>)
      requires Valid() && Legal(board, m)
      modifies this
      ensures Valid() && board == old(board) && moves == old(moves)
      ensures b == Apply(board, m) && h == TargetHeuristic(b, finalTarget.0, finalTarget.1)
      ensures log == moves + [PairRec(JumpOf(m))]
    {
      MakeMove(m.x1, m.y1, m.x2, m.y2);
      b, log := board, moves;
      h := Heuristic();
      UndoMove(m.x1, m.y1, m.x2, m.y2);
      UndoApply(old(board), m);
    }

    /** One child of the greedy expansion loop: the snapshot after m, keyed by its
        heuristic, with the 4-tuple of m appended to its log. */
    method GreedyEntry(m: Move) returns (child: Node<seq<Record>>)
      requires Valid() && Legal(board, m)
      modifies this
      ensures Valid() && board == old(board) && moves == old(moves)
      ensures child == GreedyChild(board, moves, finalTarget.0, finalTarget.1, m)
    {
      var h, b, l := Probe(m);
      AppendTwo(moves, PairRec(JumpOf(m)), QuadRec(m));
      child := Node(h, b, l + [QuadRec(m)]);
    }

    /** One child of the A* expansion loop: the snapshot after m at one more jump
        of cost, keyed by that cost plus its heuristic. */
    method AStarEntry(m: Move, cost: nat) returns (child: Node<Costed>)
      requires Valid() && Legal(board, m)
      modifies this
      ensures Valid() && board == old(board) && moves == old(moves)
      ensures child == AStarChild(board, Costed(moves, cost), finalTarget.0, finalTarget.1, m)
    {
      var h, b, l := Probe(m);
      var newCost := cost + 1;
      AppendTwo(moves, PairRec(JumpOf(m)), QuadRec(m));
      child := Node(newCost + h, b, Costed(l + [QuadRec(m)], newCost));
    }

    /** `a_star_search`: as the greedy search, with each entry keyed by the number
        of jumps taken plus the heuristic. */
    method AStarSearch(explored: nat, solution: seq<Record>)
      returns (found: bool, explored': nat, solution': seq<Record>, ghost popped: seq<Grid>, ghost expanded: seq<Grid>)
      requires Valid()
      modifies this
      ensures Valid() && Trail(old(board), board, moves)
      ensures found ==> IsGoal(board, finalTarget.0, finalTarget.1) && solution' == solution + moves
      ensures !found ==> solution' == solution
      ensures explored' == explored + |popped|
      ensures exists visited :: Accounted(visited, popped, expanded, finalTarget.0, finalTarget.1)
    {
      var tx, ty := finalTarget.0, finalTarget.1;
      ghost var g0 := board;
      assert Trail(g0, g0, []);
      var h := Heuristic();
      var root := Node(h + 0, board, Costed([], 0));
      var pq := [root];
      var visited: set<Grid> := {};
      found, explored', solution', popped, expanded := false, explored, solution, [], [];
      AccountedStart(tx, ty);
      while pq != []
        invariant Valid() && (pq == [root] || Trail(g0, board, moves))
        invariant AStarFrontier(g0, tx, ty, pq)
        invariant !found && solution' == solution && explored' == explored + |popped|
        invariant Accounted(visited, popped, expanded, tx, ty)
        decreases Measure(pq)
      {
        var top, rest := HeapPop(pq);
        AStarPop(g0, tx, ty, pq, top, rest);
        pq := rest;
        board, moves := top.board, top.trail.log;
        if IsGoal(board, tx, ty) {
          return true, explored', solution + moves, popped, expanded;
        }
        explored' := explored' + 1;
        if board in visited {
          AccountedRevisit(visited, popped, expanded, tx, ty, board);
          popped := popped + [board];
          continue;
        }
        AccountedExpand(visited, popped, expanded, tx, ty, board);
        visited, popped, expanded := visited + {board}, popped + [board], expanded + [board];
        AStarExpand(g0, tx, ty, rest, top);
        pq := PushAStarChildren(pq, top.trail.cost);
      }
    }

    /** The expansion loop of `a_star_search`. */
    method PushAStarChildren(pq: seq<Node<Costed>>, cost: nat) returns (pq': seq<Node<Costed>>)
      requires Valid()
      modifies this
      ensures Valid() && board == old(board) && moves == old(moves)
      ensures pq' == pq + AStarChildren(board, Costed(moves, cost), finalTarget.0, finalTarget.1, PossibleMoves(board))
    {
      var tx, ty := finalTarget.0, finalTarget.1;
      ghost var g, log := board, moves;
      var ms := GetPossibleMoves(board);
      pq' := pq;
      for k := 0 to |ms|
        invariant Valid() && board == g && moves == log
        invariant AllLegal(g, ms) && pq' == pq + AStarChildren(g, Costed(log, cost), tx, ty, ms[..k])
      {
        var child := AStarEntry(ms[k], cost);
        AStarChildrenPrefix(g, Costed(log, cost), tx, ty, ms, k);
        AppendAssoc(pq, AStarChildren(g, Costed(log, cost), tx, ty, ms[..k]), [child]);
        pq' := pq' + [child];
      }
      assert ms[..|ms|] == ms;
    }

    /** The replay loop of `log_moves`: skip the pairs and play each 4-tuple. */
    method LogMoves(solution: seq<Record>)
      requires Valid()
      requires forall k :: 0 <= k < |solution| && solution[k].QuadRec? ==> InBounds(solution[k].move)
      modifies this
      ensures Valid() && AllInBounds(Quads(solution))
      ensures board == Replay(old(board), Quads(solution))
      ensures moves == old(moves) + Pairs(Quads(solution))
    {
      ghost var g, log := board, moves;
      for k := 0 to |solution|
        invariant Valid() && AllInBounds(Quads(solution[..k]))
        invariant board == Replay(g, Quads(solution[..k]))
        invariant moves == log + Pairs(Quads(solution[..k]))
      {
        var r := solution[k];
        ghost var q := Quads(solution[..k]);
        assert solution[..k + 1] == solution[..k] + [r];
        QuadsSnoc(solution[..k], r);
        if r.QuadRec? {
          ReplaySnoc(g, q, r.move);
          PairsSnoc(q, r.move);
          AppendAssoc(log, Pairs(q), [PairRec(JumpOf(r.move))]);
          MakeMove(r.move.x1, r.move.y1, r.move.x2, r.move.y2);
        } else {
          assert q + [] == q;
        }
      }
      assert solution[..|solution|] == solution;
    }

    /** `reset_board`: back to the starting position with an empty log. */
    method ResetBoard()
      requires Valid()
      modifies this
      ensures Valid() && board == InitialBoard(initialEmpty.0, initialEmpty.1) && moves == []
    {
      LayoutIsCross();
      board := Layout[initialEmpty.0 := Layout[initialEmpty.0][initialEmpty.1 := Empty]];
      moves := [];
    }
  }

  /** The success case of one loop step of `dfs`: the path found below jump m,
      with m in front, is the reference search's path from g. */
  lemma DfsFound(g: Grid, m: Move, p: seq<Move>, log: seq<Record>, solution: seq<Record>)
    requires WellFormed(g) && Legal(g, m) && ValidPath(Apply(g, m), p)
    ensures ValidPath(g, [m] + p) && Replay(g, [m] + p) == Replay(Apply(g, m), p)
    ensures log + [PairRec(JumpOf(m))] + Pairs(p) == log + Pairs([m] + p)
    ensures solution + [QuadRec(m)] + Tuples(p) == solution + Tuples([m] + p)
  {
    PathCons(g, m, p);
    PairsCons(m, p);
    TuplesCons(m, p);
    AppendAssoc(log, [PairRec(JumpOf(m))], Pairs(p));
    AppendAssoc(solution, [QuadRec(m)], Tuples(p));
  }

  lemma PairsCons(m: Move, p: seq<Move>)
    ensures Pairs([m] + p) == [PairRec(JumpOf(m))] + Pairs(p)
  {
    assert forall i :: 0 < i <= |p| ==> ([m] + p)[i] == p[i - 1];
  }

  lemma TuplesCons(m: Move, p: seq<Move>)
    ensures Tuples([m] + p) == [QuadRec(m)] + Tuples(p)
  {
    assert forall i :: 0 < i <= |p| ==> ([m] + p)[i] == p[i - 1];
  }

  lemma PairsSnoc(p: seq<Move>, m: Move)
    ensures Pairs(p + [m]) == Pairs(p) + [PairRec(JumpOf(m))]
  {
    assert forall i :: 0 <= i < |p| ==> (p + [m])[i] == p[i];
  }

  /** One more log entry adds its move to the 4-tuples exactly when it is a 4-tuple. */
  lemma QuadsSnoc(log: seq<Record>, r: Record)
    ensures Quads(log + [r]) == Quads(log) + (if r.QuadRec? then [r.move] else [])
  {
    assert (log + [r])[..|log|] == log;
  }
}
