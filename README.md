# Mancala engine, minimax agent and sliding-tile search

This project models three pieces of a coursework repository for an
artificial-intelligence class, and proves properties of the model.

* **The Mancala board** (`Project2/src/mancala.py`). A board has `m` pits per
  side and two stores. It is kept as one list of `2m+2` counts: player 1's
  pits, player 1's store, player 2's pits, player 2's store. A move
  ("sowing") empties one of the mover's pits. Its stones are dealt one per
  cell around the board, skipping the opponent's store. If the last stone
  lands in the mover's store, the mover plays again. If it lands in one of the
  mover's own pits, and that pit now holds exactly one stone, that stone and
  the opposite pit are captured into the mover's store.
  Files: `mancala.dfy` (module `Mancala`).
  * The rules are functions on the state list: `Sow`, `Capture`, `TurnTake`.
  * The game object is the class `Mancala.Board`. Its methods update `state`
    in place and are proved against those functions.
  * Sowing is also written a second, independent way, one stone at a time:
    `TurnByStones`. `TurnTakeByStones` proves that the closed-form
    arithmetic the source uses (full laps plus a remainder) agrees with it.
* **The game-playing agent** (`Project2-Mancala/src/player.py`). It has a
  static evaluation `score` with four heuristic modes, and depth-limited
  minimax (`max_value` / `min_value`), with alpha-beta pruning as an option.
  Files: `player.dfy` (module `Agent`).
  * The search is specified by a function, `Value`: plain minimax on board
    values. `BestMove` is the move plain minimax picks.
  * The methods of `Agent.Player` are mutually recursive, like the source. Each
    child is searched on a fresh copy of the board.
  * They are proved to return the minimax value without pruning. With pruning
    they return the value inside the (`alpha`, `beta`) window and a correct
    bound outside it.
  * Both players, minimax and alpha-beta, are proved to pick the same move as
    plain minimax.
* **The sliding-tile puzzle** (`Project1-SlidingBlocks/src/program.py`). A
  `dim x dim` puzzle holds tiles `0..n-1`, and `0` is the blank. The goal is
  `[0, 1, ..., n-1]`. Files: `puzzle.dfy` (module `SlidingBlocks`) and
  `search.dfy` (module `SlidingSearch`).
  * The `Puzzle` object builds fences: for each direction, the cells from
    which the blank cannot move that way.
  * Its methods list the legal actions, play one, and compute three
    heuristics: Manhattan distance, inversions and misplaced tiles.
  * Search nodes form a parent chain. Breadth-first search returns a node
    holding the goal.
  * `Bfs` is proved to return only nodes holding the goal. Each such node's
    recorded actions, replayed from the initial state, reach the goal, and
    its depth equals its number of actions. `Bfs` is also proved to
    terminate.

`wrappers.dfy` holds the `Option` type. `arith.dfy` holds three facts about
division and remainder that the models share.

Notes on how the model reads the code:

* **Capture.** The capture in `turn_taking` (`mancala.py:184-193`) does not
  check that the opposite pit holds any stones. A capture against an empty
  pit still moves the landing stone into the store. The model follows the
  code: `Capture` is unconditional once the landing pit holds exactly one
  stone.
* **Scoring at a minimising leaf.** `min_value` runs on the opponent's
  `Player` object (`player.py:95`, `115`). So a leaf reached at a minimising
  node is scored by `score` from the *minimising* side's point of view, not
  the root player's. The model keeps this. `Agent.Value` scores a terminal
  node for the side that moves there, and `Agent.MinLeafIsOpponentView`
  states what that means: such a value is the negation of the root side's
  score of the same board.
* **The initial state in `bfs`.** `bfs` seeds its visited set with
  `set(tuple(init_state))`. That is the set of tile numbers, not the set
  holding the initial state. A state lookup never finds a tile number, so
  the set behaves as empty and the initial state can be queued once more as
  a child. The model starts with an empty set of recorded states, which
  behaves the same way.
* **Tie-breaking.** A child replaces the best so far only when it is
  strictly better (`player.py:99`, `119`), so the first best action wins.
  `FirstArgMax` / `FirstArgMin` capture this.

## Model

| member | source | states |
|---|---|---|
| Mancala.InitState | Project2/src/mancala.py:12-14 | the initial board has `2m+2` cells: `k` stones in every pit and empty stores at cells `m` and `2m+1` |
| Mancala.InitStateTotal | Project2/src/mancala.py:12-14 | the initial board holds `2mk` stones in all |
| Mancala.P1Pits | Project2/src/mancala.py:21-23 | player 1's pits are cells `0..m-1`, in order |
| Mancala.P2Pits | Project2/src/mancala.py:25-27 | player 2's pits are cells `m+1..2m`, in order |
| Mancala.Pits | Project2/src/mancala.py:37-42 | the pits of side 1 or 2 are that side's `m` cells, in order |
| Mancala.Store | Project2/src/mancala.py:44-49 | a side's store is cell `m` for player 1 and the last cell for player 2 |
| Mancala.SetStore | Project2/src/mancala.py:51-56 | the board with only the side's store cell replaced, still well formed |
| Mancala.SetPit | Project2/src/mancala.py:58-63 | the board with only pit `i` of the side replaced (offset `m+1` for player 2), still well formed |
| Mancala.Any | Project2/src/mancala.py:93 | `any(pits)` holds exactly when some pit is non-empty |
| Mancala.LegalActions | Project2/src/mancala.py:65-72 | `filter_actions` on a side's pits: every action it returns is a pit index; `LegalActionsSpec` proves it returns exactly the non-empty pits, in order |
| Mancala.LegalActionsSpec | Project2/src/mancala.py:65-72 | the legal actions are the non-empty pits, each exactly once, in increasing order |
| Mancala.NoLegalActions | Project2/src/mancala.py:65-72 | there is no legal action exactly when every pit of the side is empty |
| Mancala.EndGame | Project2/src/mancala.py:91-96 | the game is over exactly when all of player 1's pits or all of player 2's pits are empty |
| Mancala.EndGameIffNoMoves | Project2/src/mancala.py:91-96 | the game is over exactly when one side has no legal action |
| Mancala.WinnerScores | Project2/src/mancala.py:98-113 | the scores are the two stores; the winner is 1, 2 or 0 exactly when player 1's store is larger, smaller or equal |
| Mancala.Frame | Project2/src/mancala.py:148-151 | the mover's view of the board: `2m+1` cells starting at the mover's first pit, without the opponent's store |
| Mancala.UnframeFrame | Project2/src/mancala.py:170-173 | putting the mover's view back into the board gives the board it was taken from |
| Mancala.Sow | Project2/src/mancala.py:141-173 | `sowing`: the sown board is well formed and the landing position is a cell of the mover's view; the lemmas below state its cells and its stone count |
| Mancala.SowByFrame | Project2/src/mancala.py:141-173 | sowing equals rotating to the mover's view, sowing the view as the source does, and rotating back |
| Mancala.SowConserves | Project2/src/mancala.py:141-173 | sowing keeps the board's length and its total number of stones |
| Mancala.SowOpponentStore | Project2/src/mancala.py:146-151 | sowing never changes the opponent's store |
| Mancala.SowChosenPit | Project2/src/mancala.py:153-158 | the chosen pit ends with only its share of the full laps, `stones div (2m+1)` |
| Mancala.SowOtherCells | Project2/src/mancala.py:153-168 | every other cell in the mover's view gains `stones div (2m+1)` plus one if it is among the `stones mod (2m+1)` cells after the chosen pit |
| Mancala.SowLanding | Project2/src/mancala.py:156 | the last stone lands on the chosen pit after full laps only; otherwise at forward distance `stones mod (2m+1)` from it |
| Mancala.SowingSteps | Project2/src/mancala.py:141-173 | the source's steps compose to `Sow`: take the view for player 1 or 2, sow it, and rebuild player 1's or player 2's board from it |
| Mancala.Capture | Project2/src/mancala.py:184-193 | the capture branch of `turn_taking` keeps the board well formed; `CaptureCells` states what it does to each cell |
| Mancala.CaptureBySteps | Project2/src/mancala.py:188-193 | `Capture` is the store update followed by emptying the own pit and the mirrored pit `m-1-last` |
| Mancala.CaptureConserves | Project2/src/mancala.py:184-193 | when the landing pit holds one stone, a capture keeps the total number of stones |
| Mancala.CaptureCells | Project2/src/mancala.py:184-193 | a capture adds `1 +` the mirrored pit to the mover's store, empties both pits and changes no other cell |
| Mancala.TurnTake | Project2/src/mancala.py:175-194 | `turn_taking` as a function keeps the board well formed; the `TurnTake…` lemmas state its extra turn, its capture and its stone count |
| Mancala.TurnTakeConserves | Project2/src/mancala.py:175-194 | a whole turn keeps the total number of stones |
| Mancala.TurnTakeExtraTurn | Project2/src/mancala.py:179-183 | the mover plays again exactly when the last stone lands in its own store, and then the board is the sown board |
| Mancala.TurnTakeCapture | Project2/src/mancala.py:184-194 | a last stone alone in an own pit captures it and the mirrored pit into the store, changes nothing else and passes the turn |
| Mancala.TurnTakeNoCapture | Project2/src/mancala.py:179-194 | with no extra turn and no capture, the board is the sown board and the turn passes |
| Mancala.TurnTakeByStones | Project2/src/mancala.py:141-194 | the source's turn, computed by full laps and a remainder, is the turn played one stone at a time round the board, skipping the opponent's store |
| Mancala.Board.constructor | Project2/src/mancala.py:3-10 | a new game has the given `m` and `k`, player 1 to move, and the given board, or the initial board when none is given |
| Mancala.Board.Copy | Project2-Mancala/src/player.py:96 | a deep copy has the same pit count, stone count, player to move and board |
| Mancala.Board.Reset | Project2/src/mancala.py:16-19 | reset gives player 1 the move and restores the initial board |
| Mancala.Board.UpdateStore | Project2/src/mancala.py:51-56 | only the side's store cell changes, to `value` |
| Mancala.Board.UpdatePit | Project2/src/mancala.py:58-63 | only pit `pitIndex` of the side changes, to `value` |
| Mancala.Board.FilterActions | Project2/src/mancala.py:65-72 | the loop returns exactly the legal actions of the side |
| Mancala.Board.CheckIllegalMove | Project2/src/mancala.py:133-139 | the result is true exactly when the action is a legal action, i.e. an own pit index whose pit is non-empty |
| Mancala.Board.Sowing | Project2/src/mancala.py:141-173 | returns the sown board and the landing position, and leaves the game unchanged |
| Mancala.SowInFrame | Project2/src/mancala.py:153-168 | the loops of `sowing` produce the sown view, and the landing position is `(move + stones mod len) mod len` |
| Mancala.SowFrameByArc | Project2/src/mancala.py:159-168 | the two loop cases (landing after or before the chosen pit) add one stone exactly to the cells on the arc after it |
| Mancala.SowFrameConserves | Project2/src/mancala.py:153-168 | sowing the view keeps its total number of stones |
| Mancala.SowFrameIsSpread | Project2/src/mancala.py:153-158 | sowing the view deals every cell `stones div len` full-lap stones, and one more on the `stones mod len` cells after the chosen pit |
| Mancala.Board.Capturing | Project2/src/mancala.py:184-193 | the three in-place updates leave the captured board |
| Mancala.Board.TurnTaking | Project2/src/mancala.py:175-194 | the board becomes the board after the turn, and the result says whether the mover plays again |
| Agent.Larger | Project2-Mancala/src/player.py:102 | `max` of two extended integers: one of them, and at least both |
| Agent.Smaller | Project2-Mancala/src/player.py:122 | `min` of two extended integers: one of them, and at most both |
| Agent.Score | Project2-Mancala/src/player.py:131-171 | `score`: unless a finished game is rated by depth (modes 1 and 3), the evaluation has the sign of the side's store margin: positive when it leads, negative when it trails, zero on a tie; `ScoreValues` gives its exact value in every mode |
| Agent.ScoreValues | Project2-Mancala/src/player.py:131-171 | the score is the signed store margin off the end of the game, in mode 2 and in any unknown mode; at the end of the game it is ±50 (mode 0), ±(50 − depth) (mode 1) or the margin less the depth (mode 3), signed by the winner |
| Agent.ScoreAntisymmetric | Project2-Mancala/src/player.py:131-171 | the evaluation is zero-sum: the opponent's score of a board is the negation of the agent's |
| Agent.ScoreFasterWin | Project2-Mancala/src/player.py:142-148 | in mode 1 the same won board scores strictly more at a smaller depth |
| Agent.ScoreWiderMargin | Project2-Mancala/src/player.py:150-156 | in mode 2, of two finished boards the one with the wider margin scores more |
| Agent.FirstArgMaxIsMax | Project2-Mancala/src/player.py:99-101 | the chosen index holds a largest value and every earlier value is strictly smaller, so the first best child wins |
| Agent.FirstArgMinIsMin | Project2-Mancala/src/player.py:119-121 | the chosen index holds a smallest value and every earlier value is strictly larger |
| Agent.FirstArgMaxUnique | Project2-Mancala/src/player.py:99-101 | the first largest index is the only index with those two properties |
| Agent.FirstArgMinUnique | Project2-Mancala/src/player.py:119-121 | the first smallest index is the only index with those two properties |
| Agent.BestIndexIsBest | Project2-Mancala/src/player.py:92-125 | at a maximising node the best index holds the first largest child value; at a minimising node, the first smallest |
| Agent.MovesAvailable | Project2-Mancala/src/player.py:89-94 | away from the end of the game the side to move has at least one legal action |
| Agent.Value | Project2-Mancala/src/player.py:87-125 | the minimax value that `max_value` and `min_value` compute, written as a function; it has no contract of its own, and `ValueIsBestChild` and `MinLeafIsOpponentView` state what it is |
| Agent.ChildValues | Project2-Mancala/src/player.py:94-98 | a non-terminal node has one child value per legal action, and at least one |
| Agent.ValuesAfterAt | Project2-Mancala/src/player.py:94-98 | the `j`-th value is the opponent's minimax value, one level deeper, of the board after the `j`-th action |
| Agent.ChildValueAt | Project2-Mancala/src/player.py:94-98 | the `j`-th child value is the opponent's minimax value, one level deeper, of the board after the `j`-th legal action |
| Agent.BestMove | Project2-Mancala/src/player.py:46-50 | there is no move exactly at a terminal node; any move is a legal action |
| Agent.ValueUnfold | Project2-Mancala/src/player.py:92-105 | an unfolding helper: a non-terminal node's `Value` is its child value at `BestIndex`, as the definition reads |
| Agent.ValueIsBestChild | Project2-Mancala/src/player.py:92-125 | a non-terminal node is worth one of its children; no child is worth more at a maximising node, and none less at a minimising one |
| Agent.MinLeafIsOpponentView | Project2-Mancala/src/player.py:107-110 | a terminal minimising node is worth the negation of the other side's score of the board |
| Agent.Player.constructor | Project2-Mancala/src/player.py:7-15 | a new agent has the given side, algorithm, depth limit and depth, and its opponent is the other side |
| Agent.Player.Reset | Project2-Mancala/src/player.py:17-19 | reset puts the agent back at depth 0 |
| Agent.Player.ReachMaxDepth | Project2-Mancala/src/player.py:127-129 | the depth limit is reached exactly when no plies remain |
| Agent.Player.MaxValue | Project2-Mancala/src/player.py:87-105 | returns the agent's score and no move at a terminal node, and a legal move at any other node; without pruning it returns the minimax value; with pruning, the value inside the window and a bound outside it; inside the window, the first best move |
| Agent.Player.MaxChildren | Project2-Mancala/src/player.py:92-105 | the loop over the legal actions, with the pruning test, meets the `MaxValue` contract at a non-terminal node, and always returns a legal move |
| Agent.Player.MinValue | Project2-Mancala/src/player.py:107-125 | the minimising counterpart of `MaxValue`: a legal move at every non-terminal node, the minimax value without pruning, the value or a bound with pruning |
| Agent.Player.MinChildren | Project2-Mancala/src/player.py:112-125 | the minimising counterpart of `MaxChildren`: meets the `MinValue` contract at a non-terminal node, and always returns a legal move |
| Agent.Player.Play | Project2-Mancala/src/player.py:95-97 | a fresh copy of the game, after this agent's action, holds the child board; the original game is untouched |
| Agent.Player.Reply | Project2-Mancala/src/player.py:95-98 | the opponent agent, one level deeper, reports the opponent's value of the child board within the window |
| Agent.Player.ReplyAt | Project2-Mancala/src/player.py:94-98 | searching the `j`-th legal action reports the `j`-th child value within the window |
| Agent.Player.MinimaxPlayer | Project2-Mancala/src/player.py:46-50 | the minimax player picks the move of plain minimax |
| Agent.Player.AlphabetaPlayer | Project2-Mancala/src/player.py:52-56 | the alpha-beta player picks the same move as plain minimax |
| Agent.ChildBoundAt | Project2-Mancala/src/player.py:98 | a bound the opponent reports for the child board is a bound on the `j`-th child value |
| Agent.Cutoff | Project2-Mancala/src/player.py:103-104 | a node cut off beyond `beta` (max) or at `alpha` (min) has its result bounding the node's value from that side |
| Agent.MaxStep | Project2-Mancala/src/player.py:98-104 | one iteration of the `max_value` loop either keeps the loop invariant or prunes with a lower bound |
| Agent.MaxDone | Project2-Mancala/src/player.py:105 | after the last child, the best value is reported correctly and, inside the window, was found at the first best index |
| Agent.MaxResult | Project2-Mancala/src/player.py:92-105 | a maximising node whose children were all searched reports its value, and picks the move plain minimax picks |
| Agent.MinStep | Project2-Mancala/src/player.py:118-124 | one iteration of the `min_value` loop either keeps the loop invariant or prunes with an upper bound |
| Agent.MinDone | Project2-Mancala/src/player.py:125 | the minimising counterpart of `MaxDone` |
| Agent.MinResult | Project2-Mancala/src/player.py:112-125 | the minimising counterpart of `MaxResult` |
| SlidingBlocks.RangeMember | Project1-SlidingBlocks/src/program.py:34-37 | `range(start, stop, step)` holds exactly the values from `start` below `stop` at a multiple of `step` |
| SlidingBlocks.ActionFences | Project1-SlidingBlocks/src/program.py:31-44 | the fence table has exactly the four directions, each mapped to its fence |
| SlidingBlocks.FenceEdges | Project1-SlidingBlocks/src/program.py:34-37 | the up, left, right and down fences are exactly the top row, left column, right column and bottom row |
| SlidingBlocks.GoalState | Project1-SlidingBlocks/src/program.py:47-48 | the goal holds every tile at its own index |
| SlidingBlocks.FindBlank | Project1-SlidingBlocks/src/program.py:62-63 | the first index holding the blank |
| SlidingBlocks.AllowedMember | Project1-SlidingBlocks/src/program.py:66-72 | an action is allowed exactly when it is tried and its fence does not hold the blank |
| SlidingBlocks.AllowedMoves | Project1-SlidingBlocks/src/program.py:66-72 | the blank can move up, left, right or down exactly when it is not in the top row, left column, right column or bottom row |
| SlidingBlocks.LegalMoveTarget | Project1-SlidingBlocks/src/program.py:51-55 | a legal action moves the blank to a cell on the grid, one row or one column over in its direction |
| SlidingBlocks.Swap | Project1-SlidingBlocks/src/program.py:56-58 | exchanging two cells changes only those two cells and keeps the multiset of tiles |
| SlidingBlocks.LegalOnBoard | Project1-SlidingBlocks/src/program.py:51-55 | an action the fences allow moves the blank to a cell on the board |
| SlidingBlocks.NextState | Project1-SlidingBlocks/src/program.py:51-59 | `get_next_state` as a function: the next state has the same length and the same tiles |
| SlidingBlocks.NextStateSwap | Project1-SlidingBlocks/src/program.py:54-58 | the next state is the state with the blank and the target cell swapped: the target now holds the blank, and the blank's old cell holds the tile from the target |
| SlidingBlocks.DistanceZero | Project1-SlidingBlocks/src/program.py:82-86 | a tile's grid distance from its home is zero exactly when it is at home |
| SlidingBlocks.ManhattanZero | Project1-SlidingBlocks/src/program.py:78-86 | the Manhattan heuristic is zero exactly when every tile is at home |
| SlidingBlocks.MisplacedZero | Project1-SlidingBlocks/src/program.py:93-95 | the misplaced-tiles heuristic is zero exactly when every tile is at home |
| SlidingBlocks.MisplacedAtMostManhattan | Project1-SlidingBlocks/src/program.py:78-95 | the misplaced-tiles count never exceeds the Manhattan distance |
| SlidingBlocks.InversionsSorted | Project1-SlidingBlocks/src/program.py:87-92 | a strictly increasing state has no inversions |
| SlidingBlocks.GoalHeuristics | Project1-SlidingBlocks/src/program.py:75-99 | every heuristic is zero at the goal |
| SlidingBlocks.Heuristic | Project1-SlidingBlocks/src/program.py:75-99 | `h_value`: in the Manhattan (flag 0) and misplaced-tiles (flag 2) modes the heuristic is zero exactly when every tile is at its own index |
| SlidingBlocks.Puzzle.constructor | Project1-SlidingBlocks/src/program.py:22-24 | a puzzle keeps its initial state and side length |
| SlidingBlocks.Puzzle.GetNextState | Project1-SlidingBlocks/src/program.py:51-59 | the copied list with the two cells exchanged is `NextState`, so the blank trades places with the cell `Offset` away (`NextStateSwap`) and the tiles stay the same |
| SlidingBlocks.Puzzle.FilterActions | Project1-SlidingBlocks/src/program.py:66-72 | the loop returns the allowed actions in fence-table order |
| SlidingBlocks.Puzzle.HValue | Project1-SlidingBlocks/src/program.py:75-99 | the loops compute the Manhattan (0), inversion (1) or misplaced-tiles (2) heuristic, and 0 for any other flag |
| SlidingSearch.Node.Path | Project1-SlidingBlocks/src/program.py:124-130 | the path is not empty and ends at this node |
| SlidingSearch.Node.GetNextNode | Project1-SlidingBlocks/src/program.py:121-122 | the child node holds the given state and depth; its path is this node's path plus the child, and its solution is this node's solution plus the action |
| SlidingSearch.Node.Solution | Project1-SlidingBlocks/src/program.py:132-134 | `get_solution` as a function: one action per step of the path, one fewer than the path has nodes |
| SlidingSearch.Node.GetPath | Project1-SlidingBlocks/src/program.py:124-130 | collecting the parent chain and reversing it gives the path from the root to this node |
| SlidingSearch.ChainStep | Project1-SlidingBlocks/src/program.py:127-129 | one step of the `get_path` loop keeps the chain-plus-reversed invariant |
| SlidingSearch.Node.GetSolution | Project1-SlidingBlocks/src/program.py:132-134 | returns the node's solution |
| SlidingSearch.SolutionIsPathActions | Project1-SlidingBlocks/src/program.py:132-134 | the solution is the actions of the path's nodes, without the root's |
| SlidingSearch.SolutionLength | Project1-SlidingBlocks/src/program.py:132-134 | for nodes whose depth grows by one per step, the solution has depth-many actions, one fewer than the path has nodes |
| SlidingSearch.ChildReached | Project1-SlidingBlocks/src/program.py:159-164 | a child made by a legal action from a node reachable from the initial state is reachable too, by its solution |
| SlidingSearch.Dequeue | Project1-SlidingBlocks/src/program.py:155 | the front of a queue of reachable nodes is reachable, and so is the rest |
| SlidingSearch.QueueChild | Project1-SlidingBlocks/src/program.py:163-164 | appending a reachable child keeps every queued node reachable |
| SlidingSearch.Record | Project1-SlidingBlocks/src/program.py:165 | recording a new state grows the record by one and keeps it among the rearrangements of the initial state |
| SlidingSearch.FewerLeft | Project1-SlidingBlocks/src/program.py:154-165 | recording states shrinks the set of states not yet recorded, which bounds the search |
| SlidingSearch.Expand | Project1-SlidingBlocks/src/program.py:158-165 | a child found holding the goal is returned and is reachable; queued children are reachable; exactly one state is recorded per queued child |
| SlidingSearch.Bfs | Project1-SlidingBlocks/src/program.py:146-165 | `None` when the start is the goal; a node returned holds the goal, its depth is the length of its solution, and that solution replayed from the initial state reaches it |

## Left out

- `show_board`, the printing in `end_game`, the "Illegal move!" message of `check_illegal_move`, `play_game`, `ask_human_move`, `human_player` and `get_move`: console input and output, and the game loop that drives them.
- `random_player`: it draws a random legal action.
- A* and iterative-deepening A* (`a_star`, `ida_star`), `get_path_state`, the timing and file helpers of `program.py`, `experiment.py` and the Bayesian-network project: not part of this model.
- `Node.__lt__` and `Node.__hash__`: only the priority queue of A* uses them.
- `int(sqrt(len(state)))`: the side length is the puzzle's `dim`, and `GetNextState` and `HValue` require `len(state) == dim * dim`, so it is not computed from the length.
- SlidingBlocks.FindBlank: requires a blank in the state. `state.index(0)` raises `ValueError` when there is none, and the model has no exceptions.
- SlidingBlocks.Puzzle.GetNextState: requires the target cell `blank + offset` to lie on the board. The source does not check it. Beyond the end it raises `IndexError`, and below 0 it wraps through Python's negative indices. `bfs` only passes actions the fences allow, and `LegalOnBoard` shows those stay on the board. The on-board condition alone would admit a row wrap, such as `Left` from a left-column cell, but the fences exclude those moves.
- Mancala.Board.constructor: requires `m >= 1` and a given board of `2m+2` cells. The source does not check either, but the rest of the board's methods only make sense with them.
- `maximum_depth`'s default of infinity: the depth limit is a natural number, so the search is always depth-limited. `float("-inf")` and `float("inf")` become the extended integers `NegInf` and `PosInf`.
- `deepcopy(game)`: a fresh `Board` with the same fields. The agent's strategy tag is kept, but nothing dispatches on it.
- `find_scores` is folded into `WinnerScores`, and `p1_store` / `p2_store` into `Store`.
- Agent.Player.MaxValue: with pruning, outside the window, the move is stated only to be some legal action (one is always returned at a non-terminal node). The source returns whatever action led to the cut, and that action is not specified further.
- Agent.Player.MinValue: the same as `MaxValue`: outside the window the move is stated only to be some legal action.
- SlidingSearch.Bfs: does not state completeness (that a reachable goal is always found), nor that the solution is shortest. It states soundness and termination only.
