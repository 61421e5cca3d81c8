/**
 * The sliding-tile puzzle of `Project1-SlidingBlocks/src/program.py`.
 *
 * A state of a `dim x dim` puzzle is a list of `n == dim * dim` tile numbers
 * in row-major order; tile 0 is the blank.  Cell `i` lies in row `i / dim`
 * and column `i % dim`.  The blank moves UP, LEFT, RIGHT or DOWN by swapping
 * places with the neighbouring tile; an action is refused when the blank
 * sits in that action's "fence", the edge row or column it cannot leave by.
 */
module SlidingBlocks {
  import opened Arith

  datatype Action = Up | Left | Right | Down

  /** The side of the grid: at least one cell. */
  type Dim = d: nat | d >= 1 witness 1

  /** The actions in the order of the fence table, which is the order `filter_actions` tries them. */
  const ActionOrder: seq<Action> := [Up, Left, Right, Down]

  /** How far the blank's index moves under each action. */
  function Offset(dim: nat, a: Action): int
  {
    match a
    case Up => -(dim as int)
    case Left => -1
    case Right => 1
    case Down => dim as int
  }

  /** The row and the column of cell `i`. */
  function Row(dim: nat, i: nat): nat
    requires dim >= 1
  {
    i / dim
  }

  function Col(dim: nat, i: nat): nat
    requires dim >= 1
  {
    i % dim
  }

  // ---------------------------------------------------------------------------
  // Fences

  /** Python's `range(start, stop, step)` for a positive step. */
  function Range(start: int, stop: int, step: nat): (r: seq<int>)
    requires step >= 1
    decreases stop - start
  {
    if start >= stop then [] else [start] + Range(start + step, stop, step)
  }

  /** `range(start, stop, step)` holds the numbers from `start` below `stop` that are whole steps from `start`. */
  lemma {:induction false} RangeMember(start: int, stop: int, step: nat, x: int)
    requires step >= 1
    ensures x in Range(start, stop, step) <==> start <= x < stop && (x - start) % step == 0
    decreases stop - start
  {
    if start < stop {
      RangeMember(start + step, stop, step, x);
      if x >= start + step {
        ModShift(x - start - step, step);
      } else if x >= start {
        DivModUnique(x - start, step, 0, x - start);
      }
    }
  }

  /**
   * The fence of one action: the cells from which the blank cannot take it.
   * UP's is the first row, LEFT's the multiples of `dim`, RIGHT's the cells
   * `dim - 1` plus a multiple of `dim`, DOWN's the last row.
   */
  function Fence(dim: nat, a: Action): seq<int>
    requires dim >= 1
  {
    var n := dim * dim;
    match a
    case Up => Range(0, dim, 1)
    case Left => Range(0, n, dim)
    case Right => Range(dim - 1, n, dim)
    case Down => Range(n - dim, n, 1)
  }

  /** `get_action_fences`: the table of the four fences. */
  function ActionFences(dim: nat): (f: map<Action, seq<int>>)
    requires dim >= 1
    ensures f.Keys == {Up, Left, Right, Down}
    ensures f[Up] == Fence(dim, Up) && f[Left] == Fence(dim, Left)
    ensures f[Right] == Fence(dim, Right) && f[Down] == Fence(dim, Down)
  {
    map[Up := Fence(dim, Up), Left := Fence(dim, Left), Right := Fence(dim, Right), Down := Fence(dim, Down)]
  }

  /**
   * The fences are the edges of the grid: a cell is in UP's fence exactly
   * when it is in the first row, in LEFT's when in the first column, in
   * RIGHT's when in the last column and in DOWN's when in the last row.
   */
  lemma FenceEdges(dim: nat, x: nat)
    requires dim >= 1 && x < dim * dim
    ensures x in Fence(dim, Up) <==> Row(dim, x) == 0
    ensures x in Fence(dim, Left) <==> Col(dim, x) == 0
    ensures x in Fence(dim, Right) <==> Col(dim, x) == dim - 1
    ensures x in Fence(dim, Down) <==> Row(dim, x) == dim - 1
  {
    UpFence(dim, x);
    LeftFence(dim, x);
    RightFence(dim, x);
    DownFence(dim, x);
  }

  lemma UpFence(dim: nat, x: nat)
    requires dim >= 1
    ensures x in Range(0, dim, 1) <==> x / dim == 0
  {
    RangeMember(0, dim, 1, x);
    DivModUnique(x, 1, x, 0);
    if x < dim {
      DivModUnique(x, dim, 0, x);
    } else {
      MulStep(0, x / dim, dim);
    }
  }

  lemma LeftFence(dim: nat, x: nat)
    requires dim >= 1 && x < dim * dim
    ensures x in Range(0, dim * dim, dim) <==> x % dim == 0
  {
    RangeMember(0, dim * dim, dim, x);
  }

  lemma RightFence(dim: nat, x: nat)
    requires dim >= 1 && x < dim * dim
    ensures x in Range(dim - 1, dim * dim, dim) <==> x % dim == dim - 1
  {
    RangeMember(dim - 1, dim * dim, dim, x);
    if x >= dim - 1 {
      if x % dim == dim - 1 {
        var r := x / dim;
        assert x - (dim - 1) == r * dim;
        DivModUnique(x - (dim - 1), dim, r, 0);
      } else {
        LastColumn(dim, x);
      }
    } else {
      DivModUnique(x, dim, 0, x);
    }
  }

  lemma DownFence(dim: nat, x: nat)
    requires dim >= 1 && x < dim * dim
    ensures x in Range(dim * dim - dim, dim * dim, 1) <==> x / dim == dim - 1
  {
    RangeMember(dim * dim - dim, dim * dim, 1, x);
    if x >= dim * dim - dim {
      DivModUnique(x - (dim * dim - dim), 1, x - (dim * dim - dim), 0);
    }
    LastRow(dim, x);
  }

  /** Every cell of the grid lies in a row below `dim`. */
  lemma RowBelowDim(dim: nat, x: nat)
    requires dim >= 1 && x < dim * dim
    ensures x / dim < dim
  {
    MulStep(dim, x / dim, dim);
  }

  /** A cell that is not in the last column is not `dim - 1` past a multiple of `dim`. */
  lemma LastColumn(dim: nat, x: nat)
    requires dim >= 1 && x >= dim - 1 && x % dim != dim - 1
    ensures (x - (dim - 1)) % dim != 0
  {
    var y := x - (dim - 1);
    if y % dim == 0 {
      DivModUnique(x, dim, y / dim, dim - 1);
    }
  }

  /** The last row is the last `dim` cells. */
  lemma LastRow(dim: nat, x: nat)
    requires dim >= 1 && x < dim * dim
    ensures x >= dim * dim - dim <==> x / dim == dim - 1
  {
    var r, c := x / dim, x % dim;
    assert x == r * dim + c;
    RowBelowDim(dim, x);
    assert dim * dim - dim == (dim - 1) * dim;
    MulStep(r, dim - 1, dim);
    MulStep(dim - 1, r, dim);
  }

  // ---------------------------------------------------------------------------
  // States, the goal and the blank

  /**
   * `get_goal_state`: `[0] + [1, ..., n-1]`, every tile at its own index.
   * An empty list still gets the blank.
   */
  function GoalState(n: nat): (g: seq<nat>)
    ensures |g| == if n == 0 then 1 else n
    ensures forall i :: 0 <= i < |g| ==> g[i] == i
  {
    [0] + seq(if n == 0 then 0 else n - 1, i => i + 1)
  }

  /** `find_blank_space`: the first index holding the blank. */
  function FindBlank(s: seq<nat>): (b: nat)
    requires 0 in s
    ensures b < |s| && s[b] == 0
    ensures forall j :: 0 <= j < b ==> s[j] != 0
  {
    if s[0] == 0 then 0 else 1 + FindBlank(s[1..])
  }

  /** The actions, in the fence table's order, whose fence does not hold the blank at `b`. */
  function Allowed(dim: nat, b: nat, order: seq<Action>): (acts: seq<Action>)
    requires dim >= 1
  {
    if order == [] then []
    else (if b in Fence(dim, order[0]) then [] else [order[0]]) + Allowed(dim, b, order[1..])
  }

  /** An action is allowed exactly when it is tried and its fence does not hold the blank. */
  lemma {:induction false} AllowedMember(dim: nat, b: nat, order: seq<Action>, a: Action)
    requires dim >= 1
    ensures a in Allowed(dim, b, order) <==> a in order && b !in Fence(dim, a)
  {
    if order != [] {
      AllowedMember(dim, b, order[1..], a);
      assert order == [order[0]] + order[1..];
    }
  }

  /** Trying one more action appends it when its fence does not hold the blank. */
  lemma {:induction false} AllowedSnoc(dim: nat, b: nat, order: seq<Action>, a: Action)
    requires dim >= 1
    ensures Allowed(dim, b, order + [a]) == Allowed(dim, b, order) + (if b in Fence(dim, a) then [] else [a])
  {
    if order == [] {
      assert [a][1..] == [];
    } else {
      var first := if b in Fence(dim, order[0]) then [] else [order[0]];
      var last := if b in Fence(dim, a) then [] else [a];
      calc {
        Allowed(dim, b, order + [a]);
        { assert (order + [a])[0] == order[0]; }
        first + Allowed(dim, b, (order + [a])[1..]);
        { assert (order + [a])[1..] == order[1..] + [a]; }
        first + Allowed(dim, b, order[1..] + [a]);
        { AllowedSnoc(dim, b, order[1..], a); }
        first + (Allowed(dim, b, order[1..]) + last);
        (first + Allowed(dim, b, order[1..])) + last;
      }
    }
  }

  /**
   * The allowed actions are exactly the moves that keep the blank on the
   * grid: UP off the first row, LEFT off the first column, RIGHT off the last
   * column, DOWN off the last row.
   */
  lemma AllowedMoves(dim: nat, b: nat)
    requires dim >= 1 && b < dim * dim
    ensures Up in Allowed(dim, b, ActionOrder) <==> Row(dim, b) > 0
    ensures Left in Allowed(dim, b, ActionOrder) <==> Col(dim, b) > 0
    ensures Right in Allowed(dim, b, ActionOrder) <==> Col(dim, b) < dim - 1
    ensures Down in Allowed(dim, b, ActionOrder) <==> Row(dim, b) < dim - 1
  {
    FenceEdges(dim, b);
    RowBelowDim(dim, b);
    AllowedMember(dim, b, ActionOrder, Up);
    AllowedMember(dim, b, ActionOrder, Left);
    AllowedMember(dim, b, ActionOrder, Right);
    AllowedMember(dim, b, ActionOrder, Down);
  }

  /** The blank at `b` may take action `a`. */
  predicate Legal(dim: nat, b: nat, a: Action)
    requires dim >= 1
  {
    b !in Fence(dim, a)
  }

  /**
   * A legal move takes the blank to the neighbouring cell in the action's
   * direction: the new index is on the grid, one row up or down or one
   * column left or right, the other coordinate unchanged.
   */
  lemma LegalMoveTarget(dim: nat, b: nat, a: Action)
    requires dim >= 1 && b < dim * dim && Legal(dim, b, a)
    ensures var nb := b + Offset(dim, a);
            && 0 <= nb < dim * dim
            && Row(dim, nb) == Row(dim, b) + (if a == Up then -1 else if a == Down then 1 else 0)
            && Col(dim, nb) == Col(dim, b) + (if a == Left then -1 else if a == Right then 1 else 0)
  {
    FenceEdges(dim, b);
    match a
    case Up => StepUp(dim, b);
    case Left => StepLeft(dim, b);
    case Right => StepRight(dim, b);
    case Down => StepDown(dim, b);
  }

  /** The cell a legal move leads to is on the grid. */
  lemma MoveOnGrid(dim: nat, b: nat, a: Action)
    requires dim >= 1 && b < dim * dim && Legal(dim, b, a)
    ensures 0 <= b + Offset(dim, a) < dim * dim
  {
    LegalMoveTarget(dim, b, a);
  }

  lemma StepUp(dim: nat, b: nat)
    requires dim >= 1 && b / dim > 0
    ensures b >= dim && (b - dim) / dim == b / dim - 1 && (b - dim) % dim == b % dim
  {
    var r, c := b / dim, b % dim;
    assert b == r * dim + c;
    assert b - dim == (r - 1) * dim + c;
    DivModUnique(b - dim, dim, r - 1, c);
  }

  lemma StepLeft(dim: nat, b: nat)
    requires dim >= 1 && b % dim > 0
    ensures b >= 1 && (b - 1) / dim == b / dim && (b - 1) % dim == b % dim - 1
  {
    var r, c := b / dim, b % dim;
    assert b == r * dim + c;
    DivModUnique(b - 1, dim, r, c - 1);
  }

  lemma StepRight(dim: nat, b: nat)
    requires dim >= 1 && b < dim * dim && b % dim != dim - 1
    ensures b + 1 < dim * dim && (b + 1) / dim == b / dim && (b + 1) % dim == b % dim + 1
  {
    var r, c := b / dim, b % dim;
    assert c < dim - 1;
    assert b == r * dim + c;
    DivModUnique(b + 1, dim, r, c + 1);
    RowBelowDim(dim, b);
    MulStep(r, dim - 1, dim);
  }

  lemma StepDown(dim: nat, b: nat)
    requires dim >= 1 && b < dim * dim && b / dim != dim - 1
    ensures b + dim < dim * dim && (b + dim) / dim == b / dim + 1 && (b + dim) % dim == b % dim
  {
    var r, c := b / dim, b % dim;
    RowBelowDim(dim, b);
    assert b == r * dim + c;
    assert (r + 1) * dim == r * dim + dim;
    DivModUnique(b + dim, dim, r + 1, c);
    MulStep(r + 1, dim - 1, dim);
    assert (dim - 1) * dim + dim == dim * dim;
  }

  /** The state after the blank at `b` swaps places with the tile at `nb`. */
  function Swap(s: seq<nat>, b: nat, nb: nat): (t: seq<nat>)
    requires b < |s| && nb < |s|
    ensures |t| == |s| && t[b] == s[nb] && t[nb] == s[b]
    ensures forall i :: 0 <= i < |s| && i != b && i != nb ==> t[i] == s[i]
    ensures multiset(t) == multiset(s)
  {
    s[b := s[nb]][nb := s[b]]
  }

  /**
   * The cell the blank moves to under `a` lies on the board: the only
   * condition the swap itself relies on.
   */
  predicate OnBoard(dim: nat, s: seq<nat>, a: Action)
    requires 0 in s
  {
    0 <= FindBlank(s) + Offset(dim, a) < |s|
  }

  /** A legal action keeps the blank on the board. */
  lemma LegalOnBoard(dim: nat, s: seq<nat>, a: Action)
    requires dim >= 1 && |s| == dim * dim && 0 in s && Legal(dim, FindBlank(s), a)
    ensures OnBoard(dim, s, a)
  {
    MoveOnGrid(dim, FindBlank(s), a);
  }

  /** The state after the blank swaps places with the cell `Offset(dim, a)` away. */
  function NextState(dim: nat, s: seq<nat>, a: Action): (t: seq<nat>)
    requires 0 in s && OnBoard(dim, s, a)
    ensures |t| == |s| && multiset(t) == multiset(s)
  {
    var b := FindBlank(s);
    Swap(s, b, b + Offset(dim, a))
  }

  /** The blank trades places with the target cell, which then holds the blank. */
  lemma NextStateSwap(dim: nat, s: seq<nat>, a: Action)
    requires 0 in s && OnBoard(dim, s, a)
    ensures var b := FindBlank(s);
            var nb := b + Offset(dim, a);
            && NextState(dim, s, a) == Swap(s, b, nb)
            && NextState(dim, s, a)[nb] == 0
            && NextState(dim, s, a)[b] == s[nb]
  {
  }

  // ---------------------------------------------------------------------------
  // Heuristics

  /** The grid distance between cell `i` and the home cell of tile `v`. */
  function Distance(dim: nat, i: nat, v: nat): nat
    requires dim >= 1
  {
    Abs(Row(dim, i) - Row(dim, v)) + Abs(Col(dim, i) - Col(dim, v))
  }

  function Abs(x: int): nat
  {
    if x < 0 then -x else x
  }

  /** Cells in different places are at least one step apart. */
  lemma DistanceZero(dim: nat, i: nat, v: nat)
    requires dim >= 1
    ensures Distance(dim, i, v) == 0 <==> i == v
  {
    assert i == Row(dim, i) * dim + Col(dim, i);
    assert v == Row(dim, v) * dim + Col(dim, v);
  }

  /** The Manhattan distances of the tiles in the first `k` cells. */
  function Manhattan(dim: nat, s: seq<nat>, k: nat): nat
    requires dim >= 1 && k <= |s|
  {
    if k == 0 then 0
    else Manhattan(dim, s, k - 1) + (if s[k - 1] != 0 then Distance(dim, k - 1, s[k - 1]) else 0)
  }

  /** The number of the first `k` cells holding a larger tile than cell `i`. */
  function LargerBefore(s: seq<nat>, i: nat, k: nat): nat
    requires i < |s| && k <= |s|
  {
    if k == 0 then 0 else LargerBefore(s, i, k - 1) + (if s[k - 1] > s[i] then 1 else 0)
  }

  /** The inversions among the first `k` cells: pairs `j < i` with `s[j] > s[i] != 0`. */
  function Inversions(s: seq<nat>, k: nat): nat
    requires k <= |s|
  {
    if k == 0 then 0
    else Inversions(s, k - 1) + (if s[k - 1] != 0 then LargerBefore(s, k - 1, k - 1) else 0)
  }

  /** The tiles among the first `k` cells that are not at their own index. */
  function Misplaced(s: seq<nat>, k: nat): nat
    requires k <= |s|
  {
    if k == 0 then 0 else Misplaced(s, k - 1) + (if s[k - 1] != 0 && s[k - 1] != k - 1 then 1 else 0)
  }

  /**
   * `h_value(state, flag)`: Manhattan for 0, inversions for 1, misplaced tiles
   * for 2, else 0.  Manhattan and misplaced tiles vanish exactly when every
   * tile is at home.
   */
  function Heuristic(dim: nat, s: seq<nat>, flag: int): (h: nat)
    requires dim >= 1
    ensures (flag == 0 || flag == 2) ==> (h == 0 <==> forall i :: 0 <= i < |s| && s[i] != 0 ==> s[i] == i)
  {
    ManhattanZero(dim, s, |s|);
    MisplacedZero(s, |s|);
    if flag == 0 then Manhattan(dim, s, |s|)
    else if flag == 1 then Inversions(s, |s|)
    else if flag == 2 then Misplaced(s, |s|)
    else 0
  }

  /** No tile of the first `k` cells is misplaced exactly when each is at home. */
  lemma {:induction false} MisplacedZero(s: seq<nat>, k: nat)
    requires k <= |s|
    ensures Misplaced(s, k) == 0 <==> forall i :: 0 <= i < k && s[i] != 0 ==> s[i] == i
  {
    if k > 0 {
      MisplacedZero(s, k - 1);
    }
  }

  /** The Manhattan sum of the first `k` cells is zero exactly when each tile is at home. */
  lemma {:induction false} ManhattanZero(dim: nat, s: seq<nat>, k: nat)
    requires dim >= 1 && k <= |s|
    ensures Manhattan(dim, s, k) == 0 <==> forall i :: 0 <= i < k && s[i] != 0 ==> s[i] == i
  {
    if k > 0 {
      ManhattanZero(dim, s, k - 1);
      DistanceZero(dim, k - 1, s[k - 1]);
    }
  }

  /** Each misplaced tile is at least one step from home, so misplaced tiles never exceed the Manhattan sum. */
  lemma {:induction false} MisplacedAtMostManhattan(dim: nat, s: seq<nat>, k: nat)
    requires dim >= 1 && k <= |s|
    ensures Misplaced(s, k) <= Manhattan(dim, s, k)
  {
    if k > 0 {
      MisplacedAtMostManhattan(dim, s, k - 1);
      DistanceZero(dim, k - 1, s[k - 1]);
    }
  }

  /** A state whose tiles increase along the cells has no inversions. */
  lemma {:induction false} InversionsSorted(s: seq<nat>, k: nat)
    requires k <= |s|
    requires forall i, j :: 0 <= j < i < |s| ==> s[j] < s[i]
    ensures Inversions(s, k) == 0
  {
    if k > 0 {
      InversionsSorted(s, k - 1);
      NoneLarger(s, k - 1, k - 1);
    }
  }

  /** In an increasing state no earlier cell holds a larger tile. */
  lemma {:induction false} NoneLarger(s: seq<nat>, i: nat, k: nat)
    requires i < |s| && k <= i
    requires forall i, j :: 0 <= j < i < |s| ==> s[j] < s[i]
    ensures LargerBefore(s, i, k) == 0
  {
    if k > 0 {
      NoneLarger(s, i, k - 1);
    }
  }

  /** Every heuristic rates the goal state 0. */
  lemma GoalHeuristics(dim: nat, flag: int)
    requires dim >= 1
    ensures Heuristic(dim, GoalState(dim * dim), flag) == 0
  {
    var g := GoalState(dim * dim);
    ManhattanZero(dim, g, |g|);
    MisplacedZero(g, |g|);
    InversionsSorted(g, |g|);
  }

  // ---------------------------------------------------------------------------
  // The puzzle object

  /** `Puzzle(init_state)`: the initial state and its fence table, fixed at construction. */
  class Puzzle {
    const initState: seq<nat>
    const dim: Dim
    /** `get_action_fences()`, computed when the puzzle is made. */
    const actionFences: map<Action, seq<int>> := ActionFences(dim)

    /** The state is a square of side `dim`. */
    ghost predicate Valid()
    {
      |initState| == dim * dim
    }

    constructor (initState: seq<nat>, dim: Dim)
      requires |initState| == dim * dim
      ensures Valid() && this.initState == initState && this.dim == dim
    {
      this.initState, this.dim := initState, dim;
    }

    /**
     * `get_next_state`: a copy of `state` in which the blank has swapped places
     * with its neighbour in the action's direction; `state` itself is a value
     * and does not change.
     */
    method GetNextState(state: seq<nat>, action: Action) returns (next: seq<nat>)
      requires |state| == dim * dim && 0 in state && OnBoard(dim, state, action)
      ensures next == NextState(dim, state, action)
    {
      var blank := FindBlank(state);
      var nextBlank := blank + Offset(dim, action);
      var cells := new nat[|state|](i requires 0 <= i < |state| => state[i]);
      assert cells[..] == state;
      cells[blank] := state[nextBlank];
      cells[nextBlank] := state[blank];
      assert cells[..] == state[blank := state[nextBlank]][nextBlank := state[blank]];
      next := cells[..];
    }

    /** `filter_actions`: the actions, in fence-table order, whose fence does not hold the blank. */
    method FilterActions(state: seq<nat>) returns (actions: seq<Action>)
      requires 0 in state
      ensures actions == Allowed(dim, FindBlank(state), ActionOrder)
    {
      actions := [];
      var blank := FindBlank(state);
      for k := 0 to |ActionOrder|
        invariant actions == Allowed(dim, blank, ActionOrder[..k])
      {
        var action := ActionOrder[k];
        assert ActionOrder[..k + 1] == ActionOrder[..k] + [action];
        AllowedSnoc(dim, blank, ActionOrder[..k], action);
        assert actionFences[action] == Fence(dim, action);
        if blank !in actionFences[action] {
          actions := actions + [action];
        }
      }
      assert ActionOrder[..|ActionOrder|] == ActionOrder;
    }

    /** `h_value(state, flag)`, summed cell by cell as the source's loops do. */
    method HValue(state: seq<nat>, flag: int) returns (h: nat)
      requires |state| == dim * dim
      ensures h == Heuristic(dim, state, flag)
    {
      h := 0;
      if flag == 0 {
        for i := 0 to |state|
          invariant h == Manhattan(dim, state, i)
        {
          if state[i] != 0 {
            var row, column := i / dim, i % dim;
            var rowGoal, columnGoal := state[i] / dim, state[i] % dim;
            h := h + Abs(row - rowGoal) + Abs(column - columnGoal);
          }
        }
      } else if flag == 1 {
        for i := 0 to |state|
          invariant h == Inversions(state, i)
        {
          if state[i] != 0 {
            for j := 0 to i
              invariant h == Inversions(state, i) + LargerBefore(state, i, j)
            {
              if state[j] > state[i] {
                h := h + 1;
              }
            }
          }
        }
      } else if flag == 2 {
        for i := 0 to |state|
          invariant h == Misplaced(state, i)
        {
          if state[i] != 0 && state[i] != i {
            h := h + 1;
          }
        }
      }
    }
  }
}
