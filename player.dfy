/**
 * The Mancala decision agent: the static evaluation `score`, depth-limited
 * minimax over `max_value`/`min_value`, and the same search with alpha-beta
 * pruning.  The search is specified by `Value`, plain minimax on board
 * values, and every method is proved against it.
 */
module Agent {
  import opened Wrappers
  import opened Mancala

  // ---------------------------------------------------------------------------
  // Integers extended with the two infinities used for `alpha`, `beta` and the
  // initial `value` of a search node.

  datatype ExtInt = NegInf | Fin(n: int) | PosInf

  /** `a < b` on extended integers. */
  predicate Less(a: ExtInt, b: ExtInt)
  {
    match (a, b)
    case (NegInf, NegInf) => false
    case (NegInf, _) => true
    case (Fin(x), Fin(y)) => x < y
    case (Fin(_), PosInf) => true
    case (_, _) => false
  }

  /** `a <= b` on extended integers. */
  predicate AtMost(a: ExtInt, b: ExtInt)
  {
    a == b || Less(a, b)
  }

  /** Python's `max(a, b)`. */
  function Larger(a: ExtInt, b: ExtInt): (r: ExtInt)
    ensures AtMost(a, r) && AtMost(b, r) && (r == a || r == b)
  {
    if Less(a, b) then b else a
  }

  /** Python's `min(a, b)`. */
  function Smaller(a: ExtInt, b: ExtInt): (r: ExtInt)
    ensures AtMost(r, a) && AtMost(r, b) && (r == a || r == b)
  {
    if Less(b, a) then b else a
  }

  // ---------------------------------------------------------------------------
  // Static evaluation

  /** The store margin of `side`: its own store minus the opponent's. */
  function Margin(s: seq<nat>, m: nat, side: Side): int
    requires WellFormed(s, m)
  {
    Store(s, m, side) - Store(s, m, Opp(side))
  }

  /**
   * `score`: the evaluation of board `s` for the agent playing `side` at
   * search depth `depth`, under heuristic mode `h`.  At an end of game modes
   * 0 to 3 rate the outcome; otherwise, and for any other mode, the result is
   * the signed store margin.  Unless a finished game is rated by depth
   * (modes 1 and 3), the score has the sign of the margin.
   */
  function Score(s: seq<nat>, m: nat, side: Side, depth: nat, h: int): (r: int)
    requires WellFormed(s, m)
    ensures !(EndGame(s, m) && (h == 1 || h == 3)) ==>
              (r > 0 <==> Margin(s, m, side) > 0) && (r < 0 <==> Margin(s, m, side) < 0)
  {
    var o := WinnerScores(s, m);
    var winIndex, p1Score, p2Score := o.winner, o.p1Score, o.p2Score;
    var diff := if p1Score >= p2Score then p1Score - p2Score else p2Score - p1Score;
    if EndGame(s, m) && h == 0 then
      (if winIndex == side then 50 else if winIndex == Opp(side) then -50 else 0)
    else if EndGame(s, m) && h == 1 then
      (if winIndex == side then 50 - depth else if winIndex == Opp(side) then depth - 50 else 0)
    else if EndGame(s, m) && h == 2 then
      (if winIndex == side then diff else if winIndex == Opp(side) then -diff else 0)
    else if EndGame(s, m) && h == 3 then
      (if winIndex == side then diff - depth else if winIndex == Opp(side) then -diff + depth else 0)
    else
      (if winIndex == side then diff else if winIndex == Opp(side) then -diff else 0)
  }

  /**
   * What `score` rates: the signed store margin off the end of the game, in
   * mode 2 and in any unknown mode; a fixed 50 (mode 0), 50 less the depth
   * (mode 1) or the margin less the depth (mode 3) for a finished game, with
   * the sign of the margin.
   */
  lemma ScoreValues(s: seq<nat>, m: nat, side: Side, depth: nat, h: int)
    requires WellFormed(s, m)
    ensures var r, g := Score(s, m, side, depth, h), Margin(s, m, side);
            && ((!EndGame(s, m) || h == 2 || !(0 <= h <= 3)) ==> r == g)
            && (EndGame(s, m) && h == 0 ==> r == (if g > 0 then 50 else if g < 0 then -50 else 0))
            && (EndGame(s, m) && h == 1 ==> r == (if g > 0 then 50 - depth else if g < 0 then depth - 50 else 0))
            && (EndGame(s, m) && h == 3 ==> r == (if g > 0 then g - depth else if g < 0 then g + depth else 0))
  {
  }

  /** The evaluation is zero-sum: the opponent's score is the negation of the agent's. */
  lemma ScoreAntisymmetric(s: seq<nat>, m: nat, side: Side, depth: nat, h: int)
    requires WellFormed(s, m)
    ensures Score(s, m, Opp(side), depth, h) == -Score(s, m, side, depth, h)
  {
    assert Opp(Opp(side)) == side;
  }

  /** Mode 1 prefers a faster win: the same won board scores strictly more at a smaller depth. */
  lemma ScoreFasterWin(s: seq<nat>, m: nat, side: Side, d1: nat, d2: nat)
    requires WellFormed(s, m) && EndGame(s, m) && Margin(s, m, side) > 0 && d1 < d2
    ensures Score(s, m, side, d1, 1) > Score(s, m, side, d2, 1)
  {
    ScoreValues(s, m, side, d1, 1);
    ScoreValues(s, m, side, d2, 1);
  }

  /** Mode 2 grows with the margin: of two finished boards, the larger margin scores more. */
  lemma ScoreWiderMargin(s: seq<nat>, t: seq<nat>, m: nat, side: Side, depth: nat)
    requires WellFormed(s, m) && WellFormed(t, m) && EndGame(s, m) && EndGame(t, m)
    requires Margin(s, m, side) < Margin(t, m, side)
    ensures Score(s, m, side, depth, 2) < Score(t, m, side, depth, 2)
  {
    ScoreValues(s, m, side, depth, 2);
    ScoreValues(t, m, side, depth, 2);
  }

  // ---------------------------------------------------------------------------
  // Maxima and minima of child values, first one wins

  /** The first index of a largest element. */
  function FirstArgMax(xs: seq<int>): (k: nat)
    requires |xs| > 0
    ensures k < |xs|
  {
    if |xs| == 1 then 0
    else
      var k := FirstArgMax(xs[..|xs| - 1]);
      if xs[|xs| - 1] > xs[k] then |xs| - 1 else k
  }

  /** The first index of a smallest element. */
  function FirstArgMin(xs: seq<int>): (k: nat)
    requires |xs| > 0
    ensures k < |xs|
  {
    if |xs| == 1 then 0
    else
      var k := FirstArgMin(xs[..|xs| - 1]);
      if xs[|xs| - 1] < xs[k] then |xs| - 1 else k
  }

  /** `FirstArgMax` finds a largest element, and every element before it is smaller. */
  lemma {:induction false} FirstArgMaxIsMax(xs: seq<int>)
    requires |xs| > 0
    ensures forall j :: 0 <= j < |xs| ==> xs[j] <= xs[FirstArgMax(xs)]
    ensures forall j :: 0 <= j < FirstArgMax(xs) ==> xs[j] < xs[FirstArgMax(xs)]
  {
    if |xs| > 1 {
      var init := xs[..|xs| - 1];
      FirstArgMaxIsMax(init);
      assert forall j :: 0 <= j < |init| ==> xs[j] == init[j];
    }
  }

  /** `FirstArgMin` finds a smallest element, and every element before it is larger. */
  lemma {:induction false} FirstArgMinIsMin(xs: seq<int>)
    requires |xs| > 0
    ensures forall j :: 0 <= j < |xs| ==> xs[FirstArgMin(xs)] <= xs[j]
    ensures forall j :: 0 <= j < FirstArgMin(xs) ==> xs[FirstArgMin(xs)] < xs[j]
  {
    if |xs| > 1 {
      var init := xs[..|xs| - 1];
      FirstArgMinIsMin(init);
      assert forall j :: 0 <= j < |init| ==> xs[j] == init[j];
    }
  }

  /** An index holding the maximum with only smaller values before it is the first argmax. */
  lemma FirstArgMaxUnique(xs: seq<int>, k: nat)
    requires k < |xs|
    requires forall j :: 0 <= j < |xs| ==> xs[j] <= xs[k]
    requires forall j :: 0 <= j < k ==> xs[j] < xs[k]
    ensures FirstArgMax(xs) == k
  {
    FirstArgMaxIsMax(xs);
  }

  /** An index holding the minimum with only larger values before it is the first argmin. */
  lemma FirstArgMinUnique(xs: seq<int>, k: nat)
    requires k < |xs|
    requires forall j :: 0 <= j < |xs| ==> xs[k] <= xs[j]
    requires forall j :: 0 <= j < k ==> xs[k] < xs[j]
    ensures FirstArgMin(xs) == k
  {
    FirstArgMinIsMin(xs);
  }

  // ---------------------------------------------------------------------------
  // The search, as a function of the board

  /** Plies left before the depth limit; it shrinks with every recursive call. */
  function Remaining(depth: nat, maxDepth: nat): nat
  {
    if depth < maxDepth then maxDepth - depth else 0
  }

  /** A node is evaluated statically at the end of the game or at the depth limit. */
  predicate Terminal(s: seq<nat>, m: nat, depth: nat, maxDepth: nat)
    requires WellFormed(s, m)
  {
    EndGame(s, m) || depth >= maxDepth
  }

  /** Away from the end of the game the mover has at least one legal action. */
  lemma MovesAvailable(s: seq<nat>, m: nat, side: Side)
    requires WellFormed(s, m) && !EndGame(s, m)
    ensures |LegalActions(Pits(s, m, side))| > 0
  {
    EndGameIffNoMoves(s, m);
  }

  /**
   * The minimax value of a node where `side` moves: the node agent's own
   * score at a terminal node, otherwise the largest (`maximizing`) or
   * smallest value of its children.  Every child passes the move to the
   * opponent, one level deeper.
   */
  function Value(s: seq<nat>, m: nat, side: Side, depth: nat, maxDepth: nat, maximizing: bool): int
    requires WellFormed(s, m)
    decreases Remaining(depth, maxDepth), 2
  {
    if Terminal(s, m, depth, maxDepth) then Score(s, m, side, depth, 0)
    else
      var vs := ChildValues(s, m, side, depth, maxDepth, maximizing);
      vs[BestIndex(vs, maximizing)]
  }

  /** Where the best child value sits: the first largest, or the first smallest one. */
  function BestIndex(vs: seq<int>, maximizing: bool): (k: nat)
    requires |vs| > 0
    ensures k < |vs|
  {
    if maximizing then FirstArgMax(vs) else FirstArgMin(vs)
  }

  /** The best index holds a best value, and every value before it is strictly worse. */
  lemma BestIndexIsBest(vs: seq<int>, maximizing: bool)
    requires |vs| > 0
    ensures var k := BestIndex(vs, maximizing);
            && (maximizing ==> (forall j :: 0 <= j < |vs| ==> vs[j] <= vs[k]) && (forall j :: 0 <= j < k ==> vs[j] < vs[k]))
            && (!maximizing ==> (forall j :: 0 <= j < |vs| ==> vs[k] <= vs[j]) && (forall j :: 0 <= j < k ==> vs[k] < vs[j]))
  {
    if maximizing { FirstArgMaxIsMax(vs); } else { FirstArgMinIsMin(vs); }
  }

  /** The values of the children of a non-terminal node, one per legal action, in order. */
  function ChildValues(s: seq<nat>, m: nat, side: Side, depth: nat, maxDepth: nat, maximizing: bool): (vs: seq<int>)
    requires WellFormed(s, m) && !Terminal(s, m, depth, maxDepth)
    decreases Remaining(depth, maxDepth), 1
    ensures |vs| == |LegalActions(Pits(s, m, side))| > 0
  {
    MovesAvailable(s, m, side);
    ValuesAfter(s, m, side, depth, maxDepth, maximizing, LegalActions(Pits(s, m, side)))
  }

  /** The values of the boards after each of `acts`, searched one level deeper by the opponent. */
  function ValuesAfter(s: seq<nat>, m: nat, side: Side, depth: nat, maxDepth: nat, maximizing: bool, acts: seq<nat>): (vs: seq<int>)
    requires WellFormed(s, m) && depth < maxDepth
    requires forall j :: 0 <= j < |acts| ==> acts[j] < m
    decreases Remaining(depth, maxDepth), 0, |acts|
    ensures |vs| == |acts|
  {
    if acts == [] then []
    else
      ValuesAfter(s, m, side, depth, maxDepth, maximizing, acts[..|acts| - 1])
      + [Value(Child(s, m, side, acts[|acts| - 1]), m, Opp(side), depth + 1, maxDepth, !maximizing)]
  }

  /** The `j`-th of those values belongs to the `j`-th action. */
  lemma {:induction false} ValuesAfterAt(s: seq<nat>, m: nat, side: Side, depth: nat, maxDepth: nat, maximizing: bool, acts: seq<nat>, j: nat)
    requires WellFormed(s, m) && depth < maxDepth
    requires forall i :: 0 <= i < |acts| ==> acts[i] < m
    requires j < |acts|
    decreases |acts|
    ensures ValuesAfter(s, m, side, depth, maxDepth, maximizing, acts)[j]
              == Value(Child(s, m, side, acts[j]), m, Opp(side), depth + 1, maxDepth, !maximizing)
  {
    if j < |acts| - 1 {
      ValuesAfterAt(s, m, side, depth, maxDepth, maximizing, acts[..|acts| - 1], j);
    }
  }

  /**
   * The board a child node searches: `s` after `side` plays `action`, by the
   * rules dropping one stone at a time (`TurnTakeByStones` shows this is the
   * board `turn_taking` leaves).
   */
  function Child(s: seq<nat>, m: nat, side: Side, action: nat): (t: seq<nat>)
    requires WellFormed(s, m) && action < m
    ensures WellFormed(t, m)
  {
    TurnByStones(s, m, side, action)
  }

  /** The move plain minimax picks: the first action whose child value is best. */
  function BestMove(s: seq<nat>, m: nat, side: Side, depth: nat, maxDepth: nat, maximizing: bool): (r: Option<nat>)
    requires WellFormed(s, m)
    ensures r.None? <==> Terminal(s, m, depth, maxDepth)
    ensures r.Some? ==> r.value in LegalActions(Pits(s, m, side))
  {
    if Terminal(s, m, depth, maxDepth) then None
    else
      var acts := LegalActions(Pits(s, m, side));
      var vs := ChildValues(s, m, side, depth, maxDepth, maximizing);
      Some(acts[BestIndex(vs, maximizing)])
  }

  /** A non-terminal node is worth its best child's value, found at `BestIndex`. */
  lemma {:induction false} ValueUnfold(s: seq<nat>, m: nat, side: Side, depth: nat, maxDepth: nat, maximizing: bool)
    requires WellFormed(s, m) && !Terminal(s, m, depth, maxDepth)
    ensures var vs := ChildValues(s, m, side, depth, maxDepth, maximizing);
            Value(s, m, side, depth, maxDepth, maximizing) == vs[BestIndex(vs, maximizing)]
  {
  }

  /**
   * A non-terminal node is worth the value of one of its children; at a
   * maximising node no child is worth more, at a minimising node none less.
   */
  lemma {:induction false} ValueIsBestChild(s: seq<nat>, m: nat, side: Side, depth: nat, maxDepth: nat, maximizing: bool, j: nat)
    requires WellFormed(s, m) && !Terminal(s, m, depth, maxDepth)
    requires j < |LegalActions(Pits(s, m, side))|
    ensures var vs := ChildValues(s, m, side, depth, maxDepth, maximizing);
            var v := Value(s, m, side, depth, maxDepth, maximizing);
            && v in vs
            && (maximizing ==> vs[j] <= v)
            && (!maximizing ==> v <= vs[j])
  {
    var vs := ChildValues(s, m, side, depth, maxDepth, maximizing);
    var k := BestIndex(vs, maximizing);
    BestIndexIsBest(vs, maximizing);
    assert Value(s, m, side, depth, maxDepth, maximizing) == vs[k] by {
      ValueUnfold(s, m, side, depth, maxDepth, maximizing);
    }
  }

  /**
   * A terminal minimising node is scored by the minimising agent for its own
   * side, which is the negation of the maximising side's score of the same board.
   */
  lemma {:induction false} MinLeafIsOpponentView(s: seq<nat>, m: nat, side: Side, depth: nat, maxDepth: nat)
    requires WellFormed(s, m) && Terminal(s, m, depth, maxDepth)
    ensures Value(s, m, side, depth, maxDepth, false) == -Score(s, m, Opp(side), depth, 0)
  {
    ScoreAntisymmetric(s, m, side, depth, 0);
    assert Opp(Opp(side)) == side;
  }

  // ---------------------------------------------------------------------------
  // The agent object

  /** `Player`: the side it plays, its strategy tag and its position in the search. */
  class Player {
    const index: Side
    const oppIndex: Side
    const algorithm: string
    const maximumDepth: nat
    var depth: nat

    /** The opponent's index is the other side. */
    ghost predicate Valid()
    {
      oppIndex == Opp(index)
    }

    /** `Player(index, algorithm, maximum_depth, depth)`. */
    constructor (index: Side, algorithm: string, maximumDepth: nat, depth: nat)
      ensures this.index == index && this.algorithm == algorithm
      ensures this.maximumDepth == maximumDepth && this.depth == depth
      ensures Valid() && oppIndex != index
    {
      this.index, this.algorithm := index, algorithm;
      this.oppIndex := 3 - index;
      this.maximumDepth, this.depth := maximumDepth, depth;
    }

    /** `reset`: back to the root of the search. */
    method Reset()
      modifies this
      ensures depth == 0
    {
      depth := 0;
    }

    /** `reach_max_depth`: no plies are left to search. */
    predicate ReachMaxDepth()
      reads this
      ensures ReachMaxDepth() <==> Remaining(depth, maximumDepth) == 0
    {
      depth >= maximumDepth
    }

    /**
     * `max_value`: the value of `game` for this agent, and the action it
     * picks.  Without pruning the value is the minimax value.  With pruning
     * the result is exact inside the window (`alpha`, `beta`), an upper bound
     * at or below `alpha` and a lower bound at or above `beta`.  Inside the
     * window, or without pruning, the action is the first best one.  `game`
     * is not modified: every action is tried on a fresh copy.
     */
    method MaxValue(game: Board, ab: bool, alpha: ExtInt, beta: ExtInt) returns (value: int, move: Option<nat>)
      requires Valid() && game.Valid()
      requires ab ==> Less(alpha, beta)
      decreases Remaining(depth, maximumDepth), 2
      ensures Reported(Value(game.state, game.numPit, index, depth, maximumDepth, true), value, ab, alpha, beta)
      ensures Terminal(game.state, game.numPit, depth, maximumDepth) ==>
                value == Score(game.state, game.numPit, index, depth, 0) && move == None
      ensures !Terminal(game.state, game.numPit, depth, maximumDepth) ==> move.Some?
      ensures move.Some? ==> move.value in LegalActions(Pits(game.state, game.numPit, index))
      ensures !ab || (Less(alpha, Fin(value)) && Less(Fin(value), beta)) ==>
                move == BestMove(game.state, game.numPit, index, depth, maximumDepth, true)
    {
      if EndGame(game.state, game.numPit) || ReachMaxDepth() {
        return Score(game.state, game.numPit, index, depth, 0), None;
      }
      value, move := MaxChildren(game, ab, alpha, beta);
    }

    /** The loop of `max_value` over the legal actions of a node that is not terminal. */
    method MaxChildren(game: Board, ab: bool, alpha: ExtInt, beta: ExtInt) returns (value: int, move: Option<nat>)
      requires Valid() && game.Valid()
      requires !Terminal(game.state, game.numPit, depth, maximumDepth)
      requires ab ==> Less(alpha, beta)
      decreases Remaining(depth, maximumDepth), 1
      ensures Reported(Value(game.state, game.numPit, index, depth, maximumDepth, true), value, ab, alpha, beta)
      ensures move.Some? && move.value in LegalActions(Pits(game.state, game.numPit, index))
      ensures !ab || (Less(alpha, Fin(value)) && Less(Fin(value), beta)) ==>
                move == BestMove(game.state, game.numPit, index, depth, maximumDepth, true)
    {
      ghost var s, m := game.state, game.numPit;
      ghost var d := depth;
      ghost var vs := ChildValues(s, m, index, d, maximumDepth, true);
      var best := NegInf;
      var a := alpha;
      move := None;
      var actions := game.FilterActions(index);
      ghost var k: nat := 0;
      for i := 0 to |actions|
        invariant MaxInv(vs, i, best, a, k, alpha, beta, ab)
        invariant i == 0 ==> move == None
        invariant i > 0 ==> move == Some(actions[k])
      {
        var action := actions[i];
        var value2 := ReplyAt(game, action, i, true, ab, a, beta);
        MaxStep(vs, i, best, a, k, alpha, beta, ab, value2);
        if Less(best, Fin(value2)) {
          best := Fin(value2);
          move := Some(action);
          a := Larger(a, best);
          k := i;
        }
        if ab && AtMost(beta, best) {
          Cutoff(s, m, index, d, maximumDepth, true, i, best.n, alpha, beta);
          return best.n, move;
        }
      }
      MaxResult(s, m, index, d, maximumDepth, best, a, k, alpha, beta, ab);
      return best.n, move;
    }

    /**
     * `min_value`: the mirror image of `MaxValue` for the minimising agent,
     * whose terminal nodes are scored for its own side.
     */
    method MinValue(game: Board, ab: bool, alpha: ExtInt, beta: ExtInt) returns (value: int, move: Option<nat>)
      requires Valid() && game.Valid()
      requires ab ==> Less(alpha, beta)
      decreases Remaining(depth, maximumDepth), 2
      ensures Reported(Value(game.state, game.numPit, index, depth, maximumDepth, false), value, ab, alpha, beta)
      ensures Terminal(game.state, game.numPit, depth, maximumDepth) ==>
                value == Score(game.state, game.numPit, index, depth, 0) && move == None
      ensures !Terminal(game.state, game.numPit, depth, maximumDepth) ==> move.Some?
      ensures move.Some? ==> move.value in LegalActions(Pits(game.state, game.numPit, index))
      ensures !ab || (Less(alpha, Fin(value)) && Less(Fin(value), beta)) ==>
                move == BestMove(game.state, game.numPit, index, depth, maximumDepth, false)
    {
      if EndGame(game.state, game.numPit) || ReachMaxDepth() {
        return Score(game.state, game.numPit, index, depth, 0), None;
      }
      value, move := MinChildren(game, ab, alpha, beta);
    }

    /** The loop of `min_value` over the legal actions of a node that is not terminal. */
    method MinChildren(game: Board, ab: bool, alpha: ExtInt, beta: ExtInt) returns (value: int, move: Option<nat>)
      requires Valid() && game.Valid()
      requires !Terminal(game.state, game.numPit, depth, maximumDepth)
      requires ab ==> Less(alpha, beta)
      decreases Remaining(depth, maximumDepth), 1
      ensures Reported(Value(game.state, game.numPit, index, depth, maximumDepth, false), value, ab, alpha, beta)
      ensures move.Some? && move.value in LegalActions(Pits(game.state, game.numPit, index))
      ensures !ab || (Less(alpha, Fin(value)) && Less(Fin(value), beta)) ==>
                move == BestMove(game.state, game.numPit, index, depth, maximumDepth, false)
    {
      ghost var s, m := game.state, game.numPit;
      ghost var d := depth;
      ghost var vs := ChildValues(s, m, index, d, maximumDepth, false);
      var best := PosInf;
      var b := beta;
      move := None;
      var actions := game.FilterActions(index);
      ghost var k: nat := 0;
      for i := 0 to |actions|
        invariant MinInv(vs, i, best, b, k, alpha, beta, ab)
        invariant i == 0 ==> move == None
        invariant i > 0 ==> move == Some(actions[k])
      {
        var action := actions[i];
        var value2 := ReplyAt(game, action, i, false, ab, alpha, b);
        MinStep(vs, i, best, b, k, alpha, beta, ab, value2);
        if Less(Fin(value2), best) {
          best := Fin(value2);
          move := Some(action);
          b := Smaller(b, best);
          k := i;
        }
        if ab && AtMost(best, alpha) {
          Cutoff(s, m, index, d, maximumDepth, false, i, best.n, alpha, beta);
          return best.n, move;
        }
      }
      MinResult(s, m, index, d, maximumDepth, best, b, k, alpha, beta, ab);
      return best.n, move;
    }

    /** A fresh copy of `game` on which this agent has played `action`. */
    method Play(game: Board, action: nat) returns (next: Board)
      requires game.Valid() && action < game.numPit
      ensures fresh(next) && next.Valid() && next.numPit == game.numPit
      ensures next.state == Child(game.state, game.numPit, index, action)
    {
      next := new Board.Copy(game);
      var again := next.TurnTaking(index, action);
      TurnTakeByStones(game.state, game.numPit, index, action);
    }

    /** A new opponent agent one level deeper searches `next`. */
    method Reply(next: Board, maximizing: bool, ab: bool, alpha: ExtInt, beta: ExtInt) returns (value2: int)
      requires Valid() && next.Valid()
      requires depth < maximumDepth
      requires ab ==> Less(alpha, beta)
      decreases Remaining(depth, maximumDepth), 0, 0
      ensures Reported(Value(next.state, next.numPit, oppIndex, depth + 1, maximumDepth, !maximizing), value2, ab, alpha, beta)
    {
      var opp := new Player(oppIndex, algorithm, maximumDepth, depth + 1);
      var move2;
      if maximizing {
        value2, move2 := opp.MinValue(next, ab, alpha, beta);
      } else {
        value2, move2 := opp.MaxValue(next, ab, alpha, beta);
      }
    }

    /**
     * The body of the loops of `max_value` and `min_value` for the `j`-th
     * legal action, stated on the `j`-th child value of the search tree.
     */
    method ReplyAt(game: Board, action: nat, j: nat, maximizing: bool, ab: bool, alpha: ExtInt, beta: ExtInt)
      returns (value2: int)
      requires Valid() && game.Valid()
      requires !Terminal(game.state, game.numPit, depth, maximumDepth)
      requires j < |LegalActions(Pits(game.state, game.numPit, index))|
      requires action == LegalActions(Pits(game.state, game.numPit, index))[j]
      requires ab ==> Less(alpha, beta)
      decreases Remaining(depth, maximumDepth), 0, 1
      ensures Reported(ChildValues(game.state, game.numPit, index, depth, maximumDepth, maximizing)[j], value2, ab, alpha, beta)
    {
      var next := Play(game, action);
      value2 := Reply(next, maximizing, ab, alpha, beta);
      ChildBoundAt(game.state, game.numPit, index, depth, maximumDepth, maximizing, j, next.state, value2, ab, alpha, beta);
    }

    /** `minimax_player`: the action of a full minimax search from this agent's depth. */
    method MinimaxPlayer(game: Board) returns (move: Option<nat>)
      requires Valid() && game.Valid()
      ensures move == BestMove(game.state, game.numPit, index, depth, maximumDepth, true)
    {
      var value;
      value, move := MaxValue(game, false, NegInf, PosInf);
    }

    /**
     * `alphabeta_player`: the action of the pruned search from the full
     * window, which is the action minimax picks.
     */
    method AlphabetaPlayer(game: Board) returns (move: Option<nat>)
      requires Valid() && game.Valid()
      ensures move == BestMove(game.state, game.numPit, index, depth, maximumDepth, true)
    {
      var value;
      value, move := MaxValue(game, true, NegInf, PosInf);
    }
  }

  /**
   * What a search of window (`alpha`, `beta`) guarantees about its result
   * `value` against the true value `v`: an upper bound when it fails low, the
   * value itself inside the window, a lower bound when it fails high.
   */
  predicate ChildBound(v: int, value: int, alpha: ExtInt, beta: ExtInt)
  {
    && (AtMost(Fin(value), alpha) ==> v <= value)
    && (Less(alpha, Fin(value)) && Less(Fin(value), beta) ==> value == v)
    && (AtMost(beta, Fin(value)) ==> value <= v)
  }

  /**
   * What a search reports for a node worth `v`: `v` itself without pruning,
   * and with pruning whatever the window (`alpha`, `beta`) guarantees.
   */
  predicate Reported(v: int, value: int, ab: bool, alpha: ExtInt, beta: ExtInt)
  {
    if ab then ChildBound(v, value, alpha, beta) else value == v
  }

  /** The value of the `j`-th child is the value of the board after the `j`-th legal action. */
  lemma {:induction false} ChildValueAt(s: seq<nat>, m: nat, side: Side, depth: nat, maxDepth: nat, maximizing: bool, j: nat)
    requires WellFormed(s, m) && !Terminal(s, m, depth, maxDepth)
    requires j < |LegalActions(Pits(s, m, side))|
    ensures var a := LegalActions(Pits(s, m, side))[j];
            a < m && ChildValues(s, m, side, depth, maxDepth, maximizing)[j]
                       == Value(Child(s, m, side, a), m, Opp(side), depth + 1, maxDepth, !maximizing)
  {
    ValuesAfterAt(s, m, side, depth, maxDepth, maximizing, LegalActions(Pits(s, m, side)), j);
  }

  /** A bound on the value of the board after the `j`-th legal action is a bound on the `j`-th child value. */
  lemma ChildBoundAt(s: seq<nat>, m: nat, side: Side, depth: nat, maxDepth: nat, maximizing: bool, j: nat,
                     t: seq<nat>, value2: int, ab: bool, alpha: ExtInt, beta: ExtInt)
    requires WellFormed(s, m) && !Terminal(s, m, depth, maxDepth)
    requires j < |LegalActions(Pits(s, m, side))|
    requires LegalActions(Pits(s, m, side))[j] < m
    requires t == Child(s, m, side, LegalActions(Pits(s, m, side))[j])
    requires Reported(Value(t, m, Opp(side), depth + 1, maxDepth, !maximizing), value2, ab, alpha, beta)
    ensures Reported(ChildValues(s, m, side, depth, maxDepth, maximizing)[j], value2, ab, alpha, beta)
  {
    ChildValueAt(s, m, side, depth, maxDepth, maximizing, j);
  }

  /**
   * A node cut off after its `j`-th child: its result, beyond the window on
   * the side of the cut, bounds the node's value from that side.
   */
  lemma {:induction false} Cutoff(s: seq<nat>, m: nat, side: Side, depth: nat, maxDepth: nat, maximizing: bool,
                                  j: nat, value: int, alpha: ExtInt, beta: ExtInt)
    requires WellFormed(s, m) && !Terminal(s, m, depth, maxDepth)
    requires j < |LegalActions(Pits(s, m, side))| && Less(alpha, beta)
    requires var vj := ChildValues(s, m, side, depth, maxDepth, maximizing)[j];
             if maximizing then AtMost(beta, Fin(value)) && value <= vj
             else AtMost(Fin(value), alpha) && vj <= value
    ensures ChildBound(Value(s, m, side, depth, maxDepth, maximizing), value, alpha, beta)
    ensures !(Less(alpha, Fin(value)) && Less(Fin(value), beta))
  {
    ValueIsBestChild(s, m, side, depth, maxDepth, maximizing, j);
  }

  /** A maximising node whose children were all searched: its result and the move it picks. */
  lemma {:induction false} MaxResult(s: seq<nat>, m: nat, side: Side, depth: nat, maxDepth: nat,
                                     best: ExtInt, a: ExtInt, k: nat, alpha: ExtInt, beta: ExtInt, ab: bool)
    requires WellFormed(s, m) && !Terminal(s, m, depth, maxDepth)
    requires var vs := ChildValues(s, m, side, depth, maxDepth, true);
             MaxInv(vs, |vs|, best, a, k, alpha, beta, ab)
    ensures best.Fin? && k < |LegalActions(Pits(s, m, side))|
    ensures Reported(Value(s, m, side, depth, maxDepth, true), best.n, ab, alpha, beta)
    ensures !ab || (Less(alpha, best) && Less(best, beta)) ==>
              BestMove(s, m, side, depth, maxDepth, true) == Some(LegalActions(Pits(s, m, side))[k])
  {
    ValueUnfold(s, m, side, depth, maxDepth, true);
    MaxDone(ChildValues(s, m, side, depth, maxDepth, true), best, a, k, alpha, beta, ab);
  }

  /** A minimising node whose children were all searched: its result and the move it picks. */
  lemma {:induction false} MinResult(s: seq<nat>, m: nat, side: Side, depth: nat, maxDepth: nat,
                                     best: ExtInt, b: ExtInt, k: nat, alpha: ExtInt, beta: ExtInt, ab: bool)
    requires WellFormed(s, m) && !Terminal(s, m, depth, maxDepth)
    requires var vs := ChildValues(s, m, side, depth, maxDepth, false);
             MinInv(vs, |vs|, best, b, k, alpha, beta, ab)
    ensures best.Fin? && k < |LegalActions(Pits(s, m, side))|
    ensures Reported(Value(s, m, side, depth, maxDepth, false), best.n, ab, alpha, beta)
    ensures !ab || (Less(alpha, best) && Less(best, beta)) ==>
              BestMove(s, m, side, depth, maxDepth, false) == Some(LegalActions(Pits(s, m, side))[k])
  {
    ValueUnfold(s, m, side, depth, maxDepth, false);
    MinDone(ChildValues(s, m, side, depth, maxDepth, false), best, b, k, alpha, beta, ab);
  }

  // ---------------------------------------------------------------------------
  // The loops of `max_value` and `min_value`, on the child values alone

  /**
   * After the first `i` children of a maximising node: `best` bounds their
   * true values, stays below `beta` while pruning, and `a` is the raised
   * `alpha`.  When `best` is exact (no pruning, or above `alpha`) it is the
   * value of child `k`, and every earlier child is worth strictly less.
   */
  ghost predicate MaxInv(vs: seq<int>, i: nat, best: ExtInt, a: ExtInt, k: nat, alpha: ExtInt, beta: ExtInt, ab: bool)
  {
    && i <= |vs|
    && a == Larger(alpha, best)
    && (i == 0 <==> best == NegInf) && best != PosInf
    && (i > 0 ==> k < i)
    && (ab ==> Less(alpha, beta) && Less(best, beta))
    && (forall j :: 0 <= j < i ==> AtMost(Fin(vs[j]), best))
    && (i > 0 && (!ab || Less(alpha, best)) ==>
          Fin(vs[k]) == best && forall j :: 0 <= j < k ==> vs[j] < vs[k])
  }

  /** One child of a maximising node keeps `MaxInv`, or prunes with a lower bound. */
  lemma MaxStep(vs: seq<int>, i: nat, best: ExtInt, a: ExtInt, k: nat, alpha: ExtInt, beta: ExtInt, ab: bool, value2: int)
    requires MaxInv(vs, i, best, a, k, alpha, beta, ab) && i < |vs|
    requires Reported(vs[i], value2, ab, a, beta)
    ensures ab ==> Less(a, beta)
    ensures var improved := Less(best, Fin(value2));
            var best' := if improved then Fin(value2) else best;
            var a' := if improved then Larger(a, best') else a;
            var k' := if improved then i else k;
            if ab && AtMost(beta, best') then best' == Fin(value2) && value2 <= vs[i]
            else MaxInv(vs, i + 1, best', a', k', alpha, beta, ab)
  {
  }

  /** At the end of the loop the maximising node's result meets its contract. */
  lemma MaxDone(vs: seq<int>, best: ExtInt, a: ExtInt, k: nat, alpha: ExtInt, beta: ExtInt, ab: bool)
    requires |vs| > 0 && MaxInv(vs, |vs|, best, a, k, alpha, beta, ab)
    ensures best.Fin?
    ensures Reported(vs[BestIndex(vs, true)], best.n, ab, alpha, beta)
    ensures !ab || (Less(alpha, best) && Less(best, beta)) ==> BestIndex(vs, true) == k
  {
    FirstArgMaxIsMax(vs);
    if !ab || Less(alpha, best) {
      FirstArgMaxUnique(vs, k);
    }
  }

  /** `MaxInv` for a minimising node, with `b` the lowered `beta`. */
  ghost predicate MinInv(vs: seq<int>, i: nat, best: ExtInt, b: ExtInt, k: nat, alpha: ExtInt, beta: ExtInt, ab: bool)
  {
    && i <= |vs|
    && b == Smaller(beta, best)
    && (i == 0 <==> best == PosInf) && best != NegInf
    && (i > 0 ==> k < i)
    && (ab ==> Less(alpha, beta) && Less(alpha, best))
    && (forall j :: 0 <= j < i ==> AtMost(best, Fin(vs[j])))
    && (i > 0 && (!ab || Less(best, beta)) ==>
          Fin(vs[k]) == best && forall j :: 0 <= j < k ==> vs[k] < vs[j])
  }

  /** One child of a minimising node keeps `MinInv`, or prunes with an upper bound. */
  lemma MinStep(vs: seq<int>, i: nat, best: ExtInt, b: ExtInt, k: nat, alpha: ExtInt, beta: ExtInt, ab: bool, value2: int)
    requires MinInv(vs, i, best, b, k, alpha, beta, ab) && i < |vs|
    requires Reported(vs[i], value2, ab, alpha, b)
    ensures ab ==> Less(alpha, b)
    ensures var improved := Less(Fin(value2), best);
            var best' := if improved then Fin(value2) else best;
            var b' := if improved then Smaller(b, best') else b;
            var k' := if improved then i else k;
            if ab && AtMost(best', alpha) then best' == Fin(value2) && vs[i] <= value2
            else MinInv(vs, i + 1, best', b', k', alpha, beta, ab)
  {
  }

  /** At the end of the loop the minimising node's result meets its contract. */
  lemma MinDone(vs: seq<int>, best: ExtInt, b: ExtInt, k: nat, alpha: ExtInt, beta: ExtInt, ab: bool)
    requires |vs| > 0 && MinInv(vs, |vs|, best, b, k, alpha, beta, ab)
    ensures best.Fin?
    ensures Reported(vs[BestIndex(vs, false)], best.n, ab, alpha, beta)
    ensures !ab || (Less(alpha, best) && Less(best, beta)) ==> BestIndex(vs, false) == k
  {
    FirstArgMinIsMin(vs);
    if !ab || Less(best, beta) {
      FirstArgMinUnique(vs, k);
    }
  }
}
