/**
 * The priority queue of the informed searches, taken abstractly: a frontier
 * is a sequence of nodes, a push appends, and a pop removes some node of
 * least key (Python's heapq breaks ties by comparing the embedded board and
 * move lists; which of several least nodes comes out is left open here).
 *
 * The frontier also carries the termination measure of those searches. A
 * board with p pegs weighs Base^p, and a frontier weighs the sum of its
 * boards. Expanding a board replaces its weight Base^p by at most
 * |Dirs| * Size * Size < Base children of weight Base^(p-1) each, so every
 * iteration of the search loop makes the measure drop.
 */
module Frontier {
  import opened Board
  import opened MoveGen

  /** One heap entry: the key, the board snapshot, and the rest of the stored state. */
  datatype Node<T> = Node(key: int, board: Grid, trail: T)

  /** One more than the most jumps any board admits. */
  const Base: nat := 197

  function Pow(b: nat, e: nat): (r: nat)
    ensures b >= 1 ==> r >= 1
  {
    if e == 0 then 1 else b * Pow(b, e - 1)
  }

  function Weight(g: Grid): nat
  {
    Pow(Base, PegCount(g))
  }

  /** The weight of each board one legal jump away from g. */
  function ChildWeight(g: Grid): nat
  {
    if PegCount(g) == 0 then 0 else Pow(Base, PegCount(g) - 1)
  }

  function Measure<T>(pq: seq<Node<T>>): nat
  {
    if pq == [] then 0 else Measure(pq[..|pq| - 1]) + Weight(pq[|pq| - 1].board)
  }

  /** pq[i] has a key no other node of pq undercuts. */
  predicate IsMinAt<T>(pq: seq<Node<T>>, i: int)
  {
    0 <= i < |pq| && forall j :: 0 <= j < |pq| ==> pq[i].key <= pq[j].key
  }

  lemma {:induction false} MinExists<T>(pq: seq<Node<T>>)
    requires pq != []
    ensures exists i :: IsMinAt(pq, i)
  {
    if |pq| > 1 {
      var init := pq[..|pq| - 1];
      MinExists(init);
      var i :| IsMinAt(init, i);
      if pq[|pq| - 1].key < pq[i].key {
        assert IsMinAt(pq, |pq| - 1);
      } else {
        assert IsMinAt(pq, i);
      }
    } else {
      assert IsMinAt(pq, 0);
    }
  }

  lemma {:induction false} MeasureConcat<T>(a: seq<Node<T>>, b: seq<Node<T>>)
    ensures Measure(a + b) == Measure(a) + Measure(b)
  {
    if b != [] {
      assert (a + b)[..|a + b| - 1] == a + b[..|b| - 1];
      MeasureConcat(a, b[..|b| - 1]);
    } else {
      assert a + b == a;
    }
  }

  lemma MeasureSnoc<T>(a: seq<Node<T>>, x: Node<T>)
    ensures Measure(a + [x]) == Measure(a) + Weight(x.board)
  {
    assert (a + [x])[..|a + [x]| - 1] == a;
  }

  /** Removing one node lowers the measure by that node's weight, wherever it sits. */
  lemma MeasureRemove<T>(pq: seq<Node<T>>, i: int)
    requires 0 <= i < |pq|
    ensures Measure(pq[..i] + pq[i + 1..]) + Weight(pq[i].board) == Measure(pq)
  {
    var a, x, b := pq[..i], pq[i], pq[i + 1..];
    assert pq[..i + 1] == a + [x];
    assert pq[..i + 1] + b == pq;
    MeasureConcat(pq[..i + 1], b);
    MeasureSnoc(a, x);
    MeasureConcat(a, b);
  }

  /** A legal jump lowers the weight of the board to ChildWeight. */
  lemma ApplyWeight(g: Grid, m: Move)
    requires WellFormed(g) && Legal(g, m)
    ensures Weight(Apply(g, m)) == ChildWeight(g)
  {
    ApplyPegCount(g, m);
    OneFewerPeg(g, Apply(g, m));
  }

  lemma OneFewerPeg(g: Grid, c: Grid)
    requires PegCount(c) + 1 == PegCount(g)
    ensures Weight(c) == ChildWeight(g)
  {
  }

  lemma MulStep(n: nat, c: nat)
    requires n > 0
    ensures (n - 1) * c + c == n * c
  {
  }

  /** All the children of a board together weigh less than the board itself. */
  lemma ChildrenLighter(g: Grid, k: nat)
    requires k <= |Dirs| * Size * Size
    ensures k * ChildWeight(g) < Weight(g)
  {
    if PegCount(g) > 0 {
      var c := ChildWeight(g);
      assert Weight(g) == Base * c;
      assert k * c <= (Base - 1) * c;
    }
  }

  /** `heappop`: one node of least key comes out, the others stay, and the
      measure drops by the weight of the node taken. */
  method HeapPop<T(==)>(pq: seq<Node<T>>) returns (top: Node<T>, rest: seq<Node<T>>)
    requires pq != []
    ensures top in pq && forall n :: n in pq ==> top.key <= n.key
    ensures multiset(rest) + multiset{top} == multiset(pq)
    ensures Measure(rest) + Weight(top.board) == Measure(pq)
  {
    MinExists(pq);
    var i :| IsMinAt(pq, i);
    top := pq[i];
    rest := pq[..i] + pq[i + 1..];
    assert pq == pq[..i] + [pq[i]] + pq[i + 1..];
    MeasureRemove(pq, i);
  }

  /** The bookkeeping of the informed searches: `popped` lists the non-goal
      boards taken off the frontier (one `explored_states` increment each),
      `expanded` those whose children were pushed, and `visited` is the set of
      the expanded boards. No board is expanded twice, and every popped board
      was expanded, then or earlier. */
  ghost predicate Accounted(visited: set<Grid>, popped: seq<Grid>, expanded: seq<Grid>, tx: int, ty: int)
  {
    && InRange(tx) && InRange(ty)
    && (forall k :: 0 <= k < |popped| ==> WellFormed(popped[k]) && !IsGoal(popped[k], tx, ty))
    && (forall b :: b in visited <==> b in expanded)
    && (forall b :: b in expanded <==> b in popped)
    && (forall i, j :: 0 <= i < j < |expanded| ==> expanded[i] != expanded[j])
  }

  lemma AccountedStart(tx: int, ty: int)
    requires InRange(tx) && InRange(ty)
    ensures Accounted({}, [], [], tx, ty)
  {
  }

  /** A popped board that was visited before is counted and skipped. */
  lemma AccountedRevisit(visited: set<Grid>, popped: seq<Grid>, expanded: seq<Grid>, tx: int, ty: int, b: Grid)
    requires Accounted(visited, popped, expanded, tx, ty)
    requires WellFormed(b) && !IsGoal(b, tx, ty) && b in visited
    ensures Accounted(visited, popped + [b], expanded, tx, ty)
  {
  }

  /** A popped board not visited before is counted and expanded. */
  lemma AccountedExpand(visited: set<Grid>, popped: seq<Grid>, expanded: seq<Grid>, tx: int, ty: int, b: Grid)
    requires Accounted(visited, popped, expanded, tx, ty)
    requires WellFormed(b) && !IsGoal(b, tx, ty) && b !in visited
    ensures Accounted(visited + {b}, popped + [b], expanded + [b], tx, ty)
  {
    assert forall i :: 0 <= i < |expanded| ==> expanded[i] in visited;
  }
}
