/**
 * A reference definition of the backtracking search `dfs` (the same in both
 * revisions): which jump sequence it returns, if any, and how many non-goal
 * nodes it enters, with soundness and completeness of that search. The
 * solver classes implement it imperatively on the live board and are proved
 * to agree with it.
 */
module Backtrack {
  import opened Board
  import opened MoveGen

  /** The result of a search: the winning jump sequence, if one was found,
      and the number of non-goal nodes entered (`explored_states[0]`). */
  datatype Outcome = Outcome(path: Option<seq<Move>>, explored: nat)

  predicate AllLegal(g: Grid, ms: seq<Move>)
    requires WellFormed(g)
  {
    forall i :: 0 <= i < |ms| ==> Legal(g, ms[i])
  }

  lemma AllLegalInit(g: Grid, ms: seq<Move>)
    requires WellFormed(g) && AllLegal(g, ms) && ms != []
    ensures AllLegal(g, ms[..|ms| - 1]) && Legal(g, ms[|ms| - 1])
  {
  }

  /** `dfs` entered on board g: a goal board succeeds at once; otherwise the node
      is counted and the generated jumps are tried in order. A sequence it
      returns is a legal path from g to a goal board. */
  function Search(g: Grid, tx: int, ty: int): (o: Outcome)
    requires WellFormed(g) && InRange(tx) && InRange(ty)
    ensures o.path.Some? ==> ValidPath(g, o.path.value) && IsGoal(Replay(g, o.path.value), tx, ty)
    decreases PegCount(g), 1, 0
  {
    if IsGoal(g, tx, ty) then Outcome(Some([]), 0)
    else
      PossibleMovesSpec(g);
      var o := SearchList(g, tx, ty, PossibleMoves(g));
      Outcome(o.path, o.explored + 1)
  }

  /** The loop of `dfs` over the remaining candidate jumps ms: play the first and
      search on; stop at the first success, otherwise go on with the rest. */
  function SearchList(g: Grid, tx: int, ty: int, ms: seq<Move>): (o: Outcome)
    requires WellFormed(g) && InRange(tx) && InRange(ty) && AllLegal(g, ms)
    ensures o.path.Some? ==> ValidPath(g, o.path.value) && IsGoal(Replay(g, o.path.value), tx, ty)
    decreases PegCount(g), 0, |ms|
  {
    if ms == [] then Outcome(None, 0)
    else
      ApplyPegCount(g, ms[0]);
      var o := Search(Apply(g, ms[0]), tx, ty);
      if o.path.Some? then
        PathCons(g, ms[0], o.path.value);
        Outcome(Some([ms[0]] + o.path.value), o.explored)
      else
        var rest := SearchList(g, tx, ty, ms[1..]);
        Outcome(rest.path, o.explored + rest.explored)
  }

  /** One step of the loop of `dfs` at position i of ms: a success below ms[i]
      stops the loop with that jump in front; a failure adds its count and
      moves on to position i + 1. */
  lemma SearchListStep(g: Grid, tx: int, ty: int, ms: seq<Move>, i: int)
    requires WellFormed(g) && InRange(tx) && InRange(ty) && AllLegal(g, ms) && 0 <= i < |ms|
    ensures AllLegal(g, ms[i..]) && AllLegal(g, ms[i + 1..])
    ensures var o := Search(Apply(g, ms[i]), tx, ty);
            var r := SearchList(g, tx, ty, ms[i..]);
            if o.path.Some? then r == Outcome(Some([ms[i]] + o.path.value), o.explored)
            else r == Outcome(SearchList(g, tx, ty, ms[i + 1..]).path, o.explored + SearchList(g, tx, ty, ms[i + 1..]).explored)
  {
    assert ms[i..][0] == ms[i] && ms[i..][1..] == ms[i + 1..];
  }

  /** A failed pass over ms failed on every jump in ms. */
  lemma SearchListNone(g: Grid, tx: int, ty: int, ms: seq<Move>, i: nat)
    requires WellFormed(g) && InRange(tx) && InRange(ty) && AllLegal(g, ms)
    requires SearchList(g, tx, ty, ms).path.None? && i < |ms|
    ensures Search(Apply(g, ms[i]), tx, ty).path.None?
  {
    assert ms[0..] == ms;
    var j := 0;
    while j < i
      invariant 0 <= j <= i && SearchList(g, tx, ty, ms[j..]).path.None?
    {
      SearchListStep(g, tx, ty, ms, j);
      j := j + 1;
    }
    SearchListStep(g, tx, ty, ms, i);
  }

  /** Completeness: when the search fails, no legal path from g ends on a goal board. */
  lemma {:induction false} SearchComplete(g: Grid, tx: int, ty: int, p: seq<Move>)
    requires WellFormed(g) && InRange(tx) && InRange(ty)
    requires Search(g, tx, ty).path.None? && ValidPath(g, p)
    ensures !IsGoal(Replay(g, p), tx, ty)
    decreases |p|
  {
    if p != [] {
      PossibleMovesSpec(g);
      var ms := PossibleMoves(g);
      assert p[0] in ms;
      var i :| 0 <= i < |ms| && ms[i] == p[0];
      SearchListNone(g, tx, ty, ms, i);
      SearchComplete(Apply(g, p[0]), tx, ty, p[1..]);
    }
  }

  /** The search succeeds exactly when some legal path leads to a goal board;
      a returned path makes one jump per peg removed, ending on the last peg. */
  lemma SearchDecides(g: Grid, tx: int, ty: int)
    requires WellFormed(g) && InRange(tx) && InRange(ty)
    ensures Search(g, tx, ty).path.Some? <==>
              exists p :: ValidPath(g, p) && IsGoal(Replay(g, p), tx, ty)
    ensures Search(g, tx, ty).path.Some? ==> |Search(g, tx, ty).path.value| + 1 == PegCount(g)
  {
    var o := Search(g, tx, ty);
    if o.path.Some? {
      var p := o.path.value;
      SolutionLength(g, p, tx, ty);
      assert ValidPath(g, p) && IsGoal(Replay(g, p), tx, ty);
    } else {
      forall p | ValidPath(g, p) ensures !IsGoal(Replay(g, p), tx, ty) {
        SearchComplete(g, tx, ty, p);
      }
    }
  }
}
