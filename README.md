# Peg solitaire solver (English cross board) in Dafny

This project models the `SolitaireChinois` class of a peg-solitaire solver
in its two revisions, solitaire_chinois.py and final.py.

**The board.** It is a 7x7 grid of ints indexed `board[x][y]`: -1 is off the board, 0 is empty, 1 is a peg. The corner blocks of the cross are off the board. A game starts with 32 pegs and one chosen hole.

**Moves and the goal.**
- A jump moves a peg two cells along a row or a column, over a peg, into an empty cell.
- Playing a jump writes three cells and appends the pair `((x1, y1), (x2, y2))` to `self.moves`. Undoing it writes the three cells back and pops that entry.
- The goal is one peg left, standing on the target cell.

**The searches.** Each class offers three:
- `dfs`, a backtracking depth-first search on the live board;
- a greedy best-first search over board snapshots, with a `visited` set;
- an A* search over board snapshots, with a `visited` set.

**Where the two revisions differ.**
- **Informed-search move lists.** In solitaire_chinois.py each child's list is the parent's log plus the pair `make_move` just appended, plus the 4-tuple of the move. In final.py it is the parent's log plus the pair only.
- **Heuristic.** In solitaire_chinois.py it is the peg count plus the summed Manhattan distance of the pegs to the target. In final.py the distance is taken to the centre (3, 3), in both of its identical heuristic methods.
- **`dfs` output.** solitaire_chinois.py's `dfs` also fills a caller-owned `solution_moves` list. final.py's keeps the winning line only in `self.moves`.
- **Target.** final.py's target is optional and defaults to the initial empty cell.

**Modules.**
- `Board` holds the shared pure model: the grid, jump legality, the effect of a jump and of its undo, peg counts, the goal test and replays of jump sequences.
- `MoveGen` has the move generator: a specification function and the nested-loop method that builds the list.
- `Heuristic` has both heuristics.
- `Backtrack` is a reference definition of `dfs` as a recursive function, with soundness and completeness.
- `Frontier` is the priority queue taken abstractly. A pop returns some node of least key. It also holds the termination measure of the informed searches and the `visited` bookkeeping.
- `Chinois` is the class in solitaire_chinois.py. Its log entries are `Record`s: `PairRec` for a pair, `QuadRec` for a 4-tuple.
- `Final` is the class in final.py. Its log entries are `Jump` pairs.

**How the classes are modelled.** The board and the move log are fields that the methods reassign. The caller-owned lists `explored_states` and `solution_moves` are passed in and returned as values.

**What is proved.** Each `dfs` method is proved to agree with the reference search, including the node count and the exact log it leaves. Each informed search loop is proved to:
- keep every frontier entry a legal line from the entry board, with the right key;
- expand no board twice;
- count one node per non-goal pop;
- terminate.

The termination measure is the sum of 197^pegs over the frontier.

## Model

| member | source | states |
|---|---|---|
| Board.InitialShape | solitaire_chinois.py:6-18 | the starting board is off the board exactly on the four corner blocks of the cross |
| Board.InitialCounts | solitaire_chinois.py:6-18 | the starting board has 32 pegs and exactly one empty cell |
| Board.LayoutCounts | solitaire_chinois.py:6-14 | the full cross before the hole is made holds 33 pegs and no empty cell |
| Board.ValidMoveIff | solitaire_chinois.py:55-66 | `is_valid_move` holds iff all four coordinates lie in 0..6, the source is a peg, the destination is empty, the displacement is (±2,0) or (0,±2) and the jumped cell is a peg (both directions) |
| Board.LegalGeometry | final.py:44-55 | a valid jump lies in the grid, its midpoint lies in the grid, and source, midpoint and destination are three distinct cells |
| Board.ApplyCells | solitaire_chinois.py:68-74 | `make_move` on a valid jump empties the source and the jumped cell, puts a peg on the destination and leaves every other cell unchanged |
| Board.ApplyKeepsShape | final.py:57-63 | a valid jump touches no off-board cell and keeps the set of off-board cells |
| Board.ApplyPegCount | solitaire_chinois.py:68-74 | a valid jump removes exactly one peg |
| Board.ApplyCount | final.py:57-63 | a valid jump lowers the peg count by one and raises the empty count by one, and leaves the count of off-board cells alone |
| Board.UndoCells | solitaire_chinois.py:76-82 | `undo_move` puts pegs on the source and the jumped cell, empties the destination and changes nothing else |
| Board.UndoApply | solitaire_chinois.py:68-82 | undoing a valid jump right after playing it restores the board cell for cell |
| Board.GoalIff | solitaire_chinois.py:84-86 | `is_goal` holds iff the target holds a peg and no other cell does |
| Board.OffBoardTargetNotGoal | solitaire_chinois.py:84-86 | if the target cell is off the board, no board satisfies `is_goal` |
| Board.OffBoardTargetUnreachable | final.py:73-75 | from any starting position, no legal line reaches a goal board for an off-board target |
| Board.PathSnoc | solitaire_chinois.py:107-112 | a legal line extended by one jump is legal iff that jump is legal on the board reached, and it then replays to that jump applied |
| Board.PathCons | solitaire_chinois.py:107-112 | a legal jump followed by a legal line from the resulting board is a legal line, replaying to the same board |
| Board.ReplayPegCount | solitaire_chinois.py:68-74 | a legal line of k jumps removes exactly k pegs |
| Board.SolutionLength | solitaire_chinois.py:84-86 | a legal line that ends on a goal board has one jump fewer than the board has pegs |
| Board.ReplayConserves | final.py:57-63 | along a legal line the board keeps its shape and the number of pegs plus empty cells |
| Board.Reachable | solitaire_chinois.py:16-19 | every board reachable from a starting position has pegs plus holes equal to 33, the corner cells off the board, and 32 minus the line length pegs |
| MoveGen.DirMovesMembers | solitaire_chinois.py:94-97 | the jumps from one source over the first k directions are exactly the valid ones from that source in those directions |
| MoveGen.DirMovesOrdered | solitaire_chinois.py:94 | those jumps come in the direction order (-2,0), (2,0), (0,-2), (0,2) |
| MoveGen.SourceMovesMembers | solitaire_chinois.py:93-97 | the jumps listed for one source are exactly the valid jumps from it, and a source lists jumps only if it holds a peg |
| MoveGen.RowMovesMembers | solitaire_chinois.py:92-97 | the jumps listed for sources (x, 0..n-1) are exactly the valid jumps from those sources |
| MoveGen.GridMovesMembers | solitaire_chinois.py:91-97 | the jumps listed for sources in rows 0..n-1 are exactly the valid jumps from those sources |
| MoveGen.GridMovesOrdered | solitaire_chinois.py:91-97 | the listed jumps are ordered by x1, then y1, then direction |
| MoveGen.GridMovesLength | solitaire_chinois.py:91-97 | at most four jumps are listed per source scanned |
| MoveGen.PossibleMovesSpec | solitaire_chinois.py:88-98 | `get_possible_moves` returns exactly the valid jumps (both directions), in x1/y1/direction order, at most 196 of them |
| MoveGen.PossibleMovesDistinct | final.py:77-87 | no jump is listed twice |
| MoveGen.GetPossibleMoves | final.py:77-87 | the nested loop builds exactly the list the specification function describes |
| MoveGen.AppendJumpsFrom | solitaire_chinois.py:93-97 | the direction loop for one source appends exactly that source's jumps |
| Heuristic.HeuristicExact | solitaire_chinois.py:120-128 | the target heuristic is at least the peg count, and equals it iff every peg stands on the target |
| Heuristic.DistanceZero | solitaire_chinois.py:124-127 | the summed distance to the target is zero iff no peg stands off the target |
| Heuristic.HeuristicAtGoal | solitaire_chinois.py:120-128 | on a goal board the heuristic towards any point is 1 plus the distance from the target to that point |
| Heuristic.GoalHeuristics | final.py:105-112 | on a goal board the target heuristic is 1 and the centre heuristic is 1 plus the target's distance to (3, 3) |
| Heuristic.CentreIsTargetAtCentre | final.py:105-112 | the centre heuristic, summed row by row with `y, row` / `x, val`, equals the target heuristic aimed at (3, 3) |
| Heuristic.DistanceWrite | solitaire_chinois.py:124-127 | writing one cell changes the summed distance by that cell's contribution only |
| Backtrack.Search | solitaire_chinois.py:100-118 | a line the reference `dfs` returns is legal from the entry board and ends on a goal board |
| Backtrack.SearchList | solitaire_chinois.py:107-116 | a line the loop over the candidate jumps returns is legal and ends on a goal board |
| Backtrack.SearchListStep | solitaire_chinois.py:107-116 | one loop turn: success below jump i stops with that jump in front; failure adds its node count and goes on with jump i + 1 |
| Backtrack.SearchListNone | solitaire_chinois.py:107-118 | a failed loop failed below every candidate jump |
| Backtrack.SearchComplete | solitaire_chinois.py:100-118 | when the search fails, no legal line from the entry board ends on a goal board |
| Backtrack.SearchDecides | final.py:89-103 | the search succeeds iff some legal line reaches a goal board, and a returned line has one jump per peg removed down to the last |
| Frontier.HeapPop | solitaire_chinois.py:139 | `heappop` returns a node of least key, the rest stays (as a multiset), and the measure drops by the popped board's weight |
| Frontier.MinExists | solitaire_chinois.py:139 | every non-empty frontier has a node of least key |
| Frontier.MeasureRemove | solitaire_chinois.py:139 | removing any one node lowers the measure by that node's weight |
| Frontier.ApplyWeight | solitaire_chinois.py:154-159 | a child board pushed after a valid jump weighs exactly the child weight of its parent |
| Frontier.ChildrenLighter | solitaire_chinois.py:154-159 | up to 196 children together weigh less than their parent |
| Frontier.AccountedRevisit | solitaire_chinois.py:147-150 | a popped board already visited is counted and skipped: the bookkeeping still holds |
| Frontier.AccountedExpand | solitaire_chinois.py:147-152 | a popped board not yet visited is counted, added to `visited` and expanded: still no board is expanded twice |
| Chinois.QuadsOfInterleave | solitaire_chinois.py:205-207 | replaying only the 4-tuple entries of a search log (a pair, then a 4-tuple, per jump) gives back exactly the jumps played |
| Chinois.QuadsOfTuples | solitaire_chinois.py:205-207 | the 4-tuples of a DFS solution list are the jumps of the winning line |
| Chinois.QuadsConcat | solitaire_chinois.py:205-207 | filtering the 4-tuples distributes over concatenation |
| Chinois.QuadsStep | solitaire_chinois.py:156-157 | a child's list, the parent's log plus a pair plus a 4-tuple, replays to the parent's jumps plus the new one |
| Chinois.TrailStep | solitaire_chinois.py:156-157 | a child entry's log is a legal line from the entry board that ends on the child board |
| Chinois.GreedyChildrenSpec | solitaire_chinois.py:154-159 | every pushed greedy child is a legal line keyed by its target heuristic, and the children weigh one child weight each |
| Chinois.GreedyExpand | solitaire_chinois.py:154-159 | pushing a popped entry's children keeps the frontier invariant and makes the frontier lighter than before the pop |
| Chinois.GreedyPop | solitaire_chinois.py:139-141 | a popped entry and the remaining frontier satisfy the frontier invariant |
| Chinois.AStarChildrenSpec | solitaire_chinois.py:186-192 | every pushed A* child has a cost equal to its number of jumps and the key cost plus heuristic; the children weigh one child weight each |
| Chinois.AStarExpand | solitaire_chinois.py:186-192 | pushing a popped entry's A* children keeps the invariant and lowers the measure |
| Chinois.AStarPop | solitaire_chinois.py:171-173 | a popped A* entry and the remaining frontier satisfy the frontier invariant |
| Chinois.DfsFound | solitaire_chinois.py:109-113 | success below a jump puts that jump in front of the log pairs and of the solution 4-tuples |
| Chinois.SolitaireChinois.constructor | solitaire_chinois.py:5-19 | the board is the cross with the chosen hole, the target is the chosen cell, and the log is empty |
| Chinois.SolitaireChinois.MakeMove | solitaire_chinois.py:68-74 | the board becomes the jump applied and the log gains the pair |
| Chinois.SolitaireChinois.UndoMove | solitaire_chinois.py:76-82 | the board becomes the jump taken back and the last log entry is dropped |
| Chinois.SolitaireChinois.Heuristic | solitaire_chinois.py:120-128 | the nested loop computes the peg count plus the summed distance of the pegs to the target |
| Chinois.SolitaireChinois.Dfs | solitaire_chinois.py:100-118 | agrees with the reference search, including the node count. On success the board is a goal board, the log has gained the line's pairs and the solution list its 4-tuples. On failure all three are unchanged. It succeeds iff a goal board is reachable |
| Chinois.SolitaireChinois.DfsLoop | solitaire_chinois.py:107-118 | the loop over the generated jumps agrees with the reference loop |
| Chinois.SolitaireChinois.DfsStep | solitaire_chinois.py:108-116 | play, recurse, and on failure take back both the jump and the solution entry |
| Chinois.SolitaireChinois.GreedyBestFirstSearch | solitaire_chinois.py:131-161 | terminates. On success the board is a goal board, the log is a legal line to it and the solution list has gained that log. Otherwise the solution list is unchanged. One count per non-goal pop, and no board is expanded twice |
| Chinois.SolitaireChinois.PushGreedyChildren | solitaire_chinois.py:154-159 | pushes exactly the specified children, in generator order, and leaves board and log as they were |
| Chinois.SolitaireChinois.Probe | solitaire_chinois.py:155-159 | play, snapshot and score, undo: the snapshot is the child board and its heuristic, and the state is restored |
| Chinois.SolitaireChinois.GreedyEntry | solitaire_chinois.py:155-158 | one turn of the greedy expansion loop: the child pushed is GreedyChild of the current board and log (the jump applied, keyed by its target heuristic, the log plus the pair and the 4-tuple), and board and log are restored |
| Chinois.SolitaireChinois.AStarEntry | solitaire_chinois.py:187-191 | one turn of the A* expansion loop: the child pushed is AStarChild of the current board and log at cost + 1, keyed by that cost plus its target heuristic, its log the parent log plus the pair and the 4-tuple, and board and log are restored |
| Chinois.SolitaireChinois.AStarSearch | solitaire_chinois.py:163-194 | as the greedy search: terminates, a goal board on success with a legal line in the log, the solution list extended only on success, one count per non-goal pop, and no board expanded twice |
| Chinois.SolitaireChinois.PushAStarChildren | solitaire_chinois.py:186-192 | pushes exactly the specified A* children, at cost plus one, and restores board and log |
| Chinois.SolitaireChinois.LogMoves | solitaire_chinois.py:205-210 | replaying a solution list skips the pair entries and plays the 4-tuples: the board ends at their replay and the log gains their pairs |
| Chinois.SolitaireChinois.ResetBoard | solitaire_chinois.py:220-232 | the board is the starting position again and the log is empty |
| Final.MovesOfJumps | final.py:63 | reading back the pairs logged along a line gives that line |
| Final.JumpsOfMoves | final.py:63 | logging the jumps read back from a log gives the log |
| Final.TrailStep | final.py:138-139 | a child snapshot's log, the parent's plus one pair, is a legal line from the entry board ending on the child board |
| Final.TrailOfPath | final.py:89-103 | the pairs of a legal line form a log of the board it reaches |
| Final.GreedyChildrenSpec | final.py:136-141 | every pushed greedy child is a legal line keyed by its centre heuristic, and the children weigh one child weight each |
| Final.GreedyExpand | final.py:136-141 | pushing a popped entry's children keeps the frontier invariant and lowers the measure |
| Final.GreedyPop | final.py:122-124 | a popped entry and the remaining frontier satisfy the frontier invariant |
| Final.AStarChildrenSpec | final.py:167-173 | every pushed A* child's cost is its log length and its key is cost plus centre heuristic; the children weigh one child weight each |
| Final.AStarExpand | final.py:167-173 | pushing a popped entry's A* children keeps the invariant and lowers the measure |
| Final.AStarPop | final.py:153-155 | a popped A* entry and the remaining frontier satisfy the frontier invariant |
| Final.DfsFound | final.py:98-100 | success below a jump puts that jump's pair in front of the line's pairs |
| Final.SolitaireChinois.constructor | final.py:5-20 | the board is the cross with the chosen hole and the log is empty; a given target is kept, and without one the target is the initial empty cell |
| Final.SolitaireChinois.MakeMove | final.py:57-63 | the board becomes the jump applied and the log gains the pair |
| Final.SolitaireChinois.UndoMove | final.py:65-71 | the board becomes the jump taken back and the last pair is dropped |
| Final.SolitaireChinois.Heuristic | final.py:105-112 | the row-by-row loop computes the peg count plus the summed distance of the pegs to the centre |
| Final.SolitaireChinois.Dfs | final.py:89-103 | agrees with the reference search, including the node count. On success the board is a goal board and the log has gained exactly the winning line's pairs. On failure board and log are unchanged. It succeeds iff a goal board is reachable |
| Final.SolitaireChinois.DfsLoop | final.py:96-103 | the loop over the generated jumps agrees with the reference loop |
| Final.SolitaireChinois.DfsStep | final.py:97-101 | play, recurse, and on failure take the jump back |
| Final.SolitaireChinois.GreedyBestFirstSearch | final.py:114-143 | terminates. On success the board is a goal board and the log is a legal line to it. One count per non-goal pop, and no board is expanded twice |
| Final.SolitaireChinois.PushGreedyChildren | final.py:136-141 | pushes exactly the specified children, in generator order, and restores board and log |
| Final.SolitaireChinois.Probe | final.py:137-141 | the snapshot after a jump is the child board, its heuristic and the log plus one pair, and the state is restored |
| Final.SolitaireChinois.GreedyEntry | final.py:137-140 | one turn of the greedy expansion loop: the child pushed is GreedyChild of the current board and log (the jump applied, keyed by its centre heuristic, the log plus one pair), and board and log are restored |
| Final.SolitaireChinois.AStarEntry | final.py:168-172 | one turn of the A* expansion loop: the child pushed is AStarChild of the current board and log at cost + 1, keyed by that cost plus its centre heuristic, its log the parent log plus one pair, and board and log are restored |
| Final.SolitaireChinois.AStarSearch | final.py:145-175 | as the greedy search, with the root keyed by heuristic plus 0 and each child by its cost plus its heuristic |
| Final.SolitaireChinois.PushAStarChildren | final.py:167-173 | pushes exactly the specified A* children, at cost plus one, and restores board and log |

## Left out

- Console input: `get_initial_empty_position` (both revisions) and `get_final_target` (solitaire_chinois.py) loop on `input()` until they read a playable cell. The constructors take that cell as a parameter and require it to be playable.
- Rendering and file output: `display_board`, `draw_board`, and the file writes and prints of `log_moves` are left out. Only the replay of the solution list on the board is modelled (`LogMoves`).
- The `solve_and_compare` drivers: they time the searches with `time.time()` and print reports. This includes the inline board reset in final.py's driver, which repeats `reset_board` of the first revision.
- heapq internals: the array layout of the heap is not modelled. Python also breaks key ties by comparing the stored boards and move lists. The model pops some node of least key and leaves the tie-break open.
- Python's negative indexing: every coordinate the model handles lies in 0..6. `board[-1]` wrap-around and the `IndexError` of an out-of-range target are not modelled.
- Final.SolitaireChinois.constructor: requires a given target to lie in the grid. final.py accepts any pair there, and then `is_goal` raises or wraps.
- Chinois.SolitaireChinois.MakeMove: requires the coordinates in 0..6. The Python method writes cells without any check. Every call site passes a generated or logged jump, and those are in the grid.
- Chinois.SolitaireChinois.LogMoves: requires every 4-tuple entry of the solution list to lie in the grid. The Python loop does not check this either.
- Caller-owned mutable lists: `explored_states` and `solution_moves` are passed in and returned as values. Aliasing between them and the object's fields is not modelled. The board is a value field, so the copies `[row[:] for row in ...]` need no counterpart.
- Completeness and optimality of the greedy search and of A*: these are not claimed. The centre and target heuristics are not admissible in general. The searches are proved sound, terminating, and exact in their node accounting.
- Concrete outcomes for particular starting holes, such as solution lengths, are not derived. They need exhaustive execution. SearchDecides does give the length of any solution: one jump fewer than the pegs on the board.
