/**
 * Search nodes and breadth-first search of `Project1-SlidingBlocks/src/program.py`.
 *
 * A node records the state it holds, the node it was expanded from, the
 * action that led to it and its depth.  Nodes are never changed after they
 * are made, so they are values here and the parent link is a nested value.
 */
module SlidingSearch {
  import opened Wrappers
  import opened SlidingBlocks

  /** `Node(state, parent, action, depth)`. */
  datatype Node = Node(state: seq<nat>, parent: Option<Node>, action: Option<Action>, depth: nat)
  {
    /** `get_next_node`: the node reached from this one by `action`. */
    function GetNextNode(state: seq<nat>, action: Action, depth: nat): (n: Node)
      ensures n.state == state && n.depth == depth
      ensures n.Path() == Path() + [n]
      ensures n.Solution() == Solution() + [Some(action)]
    {
      Node(state, Some(this), Some(action), depth)
    }

    /** The nodes from the root of the parent chain down to this node. */
    function Path(): (p: seq<Node>)
      ensures |p| >= 1 && p[|p| - 1] == this
      decreases this
    {
      match parent
      case None => [this]
      case Some(q) => q.Path() + [this]
    }

    /** The actions that lead from the root to this node, one per step. */
    function Solution(): (acts: seq<Option<Action>>)
      decreases this
      ensures |acts| == |Path()| - 1
    {
      match parent
      case None => []
      case Some(q) => q.Solution() + [action]
    }

    /** The root has depth 0 and every other node is one deeper than its parent. */
    predicate WellDepthed()
      decreases this
    {
      match parent
      case None => depth == 0
      case Some(q) => depth == q.depth + 1 && q.WellDepthed()
    }

    /**
     * `get_path`: walk the parent links collecting nodes, then reverse, which
     * gives the chain from the root down to this node.
     */
    method GetPath() returns (path: seq<Node>)
      ensures path == Path()
    {
      var node := Some(this);
      var collected: seq<Node> := [];
      while node.Some?
        invariant Chain(node) + Reversed(collected) == Path()
        decreases node
      {
        var current := node.value;
        ChainStep(current, collected);
        collected := collected + [current];
        node := current.parent;
      }
      path := Reversed(collected);
    }

    /**
     * `get_solution`: the actions of the nodes on the path, without the
     * root's, which are the actions that lead from the root to this node.
     */
    method GetSolution() returns (solution: seq<Option<Action>>)
      ensures solution == Solution()
    {
      var path := GetPath();
      solution := seq(|path|, i requires 0 <= i < |path| => path[i].action)[1..];
      SolutionIsPathActions(this);
    }
  }

  /** The chain of nodes from the root down to `node`, if there is one. */
  function Chain(node: Option<Node>): seq<Node>
  {
    match node
    case None => []
    case Some(q) => q.Path()
  }

  /** A sequence in reverse order. */
  function Reversed(s: seq<Node>): (r: seq<Node>)
    ensures |r| == |s|
  {
    if s == [] then [] else [s[|s| - 1]] + Reversed(s[..|s| - 1])
  }

  /** Moving a node from the chain to the collected nodes keeps chain plus reversed collection. */
  lemma ChainStep(current: Node, collected: seq<Node>)
    ensures Chain(current.parent) + Reversed(collected + [current]) == Chain(Some(current)) + Reversed(collected)
  {
    var c, r := Chain(current.parent), Reversed(collected);
    ReversedSnoc(collected, current);
    assert Chain(Some(current)) == c + [current];
    assert c + ([current] + r) == (c + [current]) + r;
  }

  lemma ReversedSnoc(s: seq<Node>, x: Node)
    ensures Reversed(s + [x]) == [x] + Reversed(s)
  {
    assert (s + [x])[..|s|] == s;
  }

  /** The solution is the action of every node on the path after the root, in order. */
  lemma {:induction false} SolutionIsPathActions(n: Node)
    ensures var p := n.Path();
            n.Solution() == seq(|p|, i requires 0 <= i < |p| => p[i].action)[1..]
    decreases n
  {
    match n.parent
    case None =>
    case Some(q) =>
      SolutionIsPathActions(q);
      var pq := q.Path();
      var p := n.Path();
      assert p == pq + [n];
      assert seq(|p|, i requires 0 <= i < |p| => p[i].action)
             == seq(|pq|, i requires 0 <= i < |pq| => pq[i].action) + [n.action];
  }

  /** A node whose depths count the steps from the root has one action per level of depth. */
  lemma {:induction false} SolutionLength(n: Node)
    requires n.WellDepthed()
    ensures |n.Solution()| == n.depth == |n.Path()| - 1
    decreases n
  {
    match n.parent
    case None =>
    case Some(q) =>
      SolutionLength(q);
  }

  // ---------------------------------------------------------------------------
  // Replaying a solution

  /** One step of a solution: the action must be present and legal for the blank. */
  function Step(dim: nat, s: seq<nat>, a: Option<Action>): Option<seq<nat>>
    requires dim >= 1
  {
    if a.Some? && |s| == dim * dim && 0 in s && Legal(dim, FindBlank(s), a.value)
    then LegalOnBoard(dim, s, a.value); Some(NextState(dim, s, a.value))
    else None
  }

  /** The state a sequence of actions leads to from `s`, or `None` at the first illegal step. */
  function Replay(dim: nat, s: seq<nat>, acts: seq<Option<Action>>): Option<seq<nat>>
    requires dim >= 1
  {
    if acts == [] then Some(s)
    else
      match Replay(dim, s, acts[..|acts| - 1])
      case None => None
      case Some(t) => Step(dim, t, acts[|acts| - 1])
  }

  // ---------------------------------------------------------------------------
  // The states a search can meet

  /** Every sequence of length `n` over the tiles `tiles`: a finite set. */
  ghost function AllStates(tiles: set<nat>, n: nat): set<seq<nat>>
  {
    if n == 0 then {[]}
    else set x, t | x in tiles && t in AllStates(tiles, n - 1) :: [x] + t
  }

  /** A sequence whose every element is one of `tiles` is among `AllStates`. */
  lemma {:induction false} InAllStates(tiles: set<nat>, t: seq<nat>)
    requires forall i :: 0 <= i < |t| ==> t[i] in tiles
    ensures t in AllStates(tiles, |t|)
    decreases |t|
  {
    if t != [] {
      InAllStates(tiles, t[1..]);
      assert t == [t[0]] + t[1..];
    }
  }

  /** The tiles of a state. */
  ghost function Tiles(s: seq<nat>): set<nat>
  {
    set i | 0 <= i < |s| :: s[i]
  }

  /** A rearrangement of `init` is one of the states over its tiles. */
  lemma Rearranged(init: seq<nat>, t: seq<nat>)
    requires |t| == |init| && multiset(t) == multiset(init)
    ensures t in AllStates(Tiles(init), |init|)
  {
    forall i | 0 <= i < |t| ensures t[i] in Tiles(init) {
      assert t[i] in multiset(t);
      var j :| 0 <= j < |init| && init[j] == t[i];
    }
    InAllStates(Tiles(init), t);
  }

  /** Of two nested sets inside `u`, the larger leaves fewer of `u` out; strictly when it is strictly larger. */
  lemma FewerLeft(u: set<seq<nat>>, a: set<seq<nat>>, b: set<seq<nat>>)
    requires a <= b <= u
    ensures |u - b| <= |u - a|
    ensures a != b ==> |u - b| < |u - a|
  {
    assert u - a == (u - b) + (b - a);
    assert (u - b) * (b - a) == {};
    if a != b {
      var x :| x in b && x !in a;
      assert x in b - a;
    }
  }

  /**
   * What the search knows of a node it made: the depths count steps from the
   * root, the state is a rearrangement of `init`, and the node's actions lead
   * from `init` to its state.
   */
  ghost predicate Reached(dim: nat, init: seq<nat>, n: Node)
    requires dim >= 1
  {
    && n.WellDepthed()
    && |n.state| == |init|
    && multiset(n.state) == multiset(init)
    && Replay(dim, init, n.Solution()) == Some(n.state)
  }

  /** A child made by a legal action from a reached node is reached. */
  lemma ChildReached(dim: nat, init: seq<nat>, n: Node, a: Action)
    requires dim >= 1 && |init| == dim * dim && Reached(dim, init, n)
    requires 0 in n.state && Legal(dim, FindBlank(n.state), a) && OnBoard(dim, n.state, a)
    ensures Reached(dim, init, n.GetNextNode(NextState(dim, n.state, a), a, n.depth + 1))
  {
    var c := n.GetNextNode(NextState(dim, n.state, a), a, n.depth + 1);
    var sol := n.Solution();
    assert c.Solution() == sol + [Some(a)];
    ReplaySnoc(dim, init, sol, Some(a));
    assert Step(dim, n.state, Some(a)) == Some(c.state);
  }

  /** Replaying one more action is one more step from where the rest led. */
  lemma ReplaySnoc(dim: nat, s: seq<nat>, acts: seq<Option<Action>>, a: Option<Action>)
    requires dim >= 1
    ensures Replay(dim, s, acts + [a]) == match Replay(dim, s, acts) case None => None case Some(t) => Step(dim, t, a)
  {
    assert (acts + [a])[..|acts|] == acts;
  }

  /** Every node in the queue is reached. */
  ghost predicate AllReached(dim: nat, init: seq<nat>, tree: seq<Node>)
    requires dim >= 1
  {
    forall i :: 0 <= i < |tree| ==> Reached(dim, init, tree[i])
  }

  /** Taking the first node off the queue. */
  lemma Dequeue(dim: nat, init: seq<nat>, tree: seq<Node>)
    requires dim >= 1 && |tree| > 0 && AllReached(dim, init, tree)
    ensures Reached(dim, init, tree[0]) && AllReached(dim, init, tree[1..])
  {
  }

  /**
   * Queueing the child a legal action leads to, when its state is not yet
   * recorded, and recording that state: every queued node stays reached,
   * the record stays among the rearrangements of `init`, and the queue grows
   * by as many nodes as the record by states.
   */
  lemma Enqueue(dim: nat, init: seq<nat>, n: Node, a: Action,
                tree0: seq<Node>, tree: seq<Node>, record0: set<seq<nat>>, record: set<seq<nat>>)
    requires dim >= 1 && |init| == dim * dim && Reached(dim, init, n)
    requires 0 in n.state && Legal(dim, FindBlank(n.state), a) && OnBoard(dim, n.state, a)
    requires AllReached(dim, init, tree)
    requires record0 <= record <= AllStates(Tiles(init), |init|)
    requires |tree| - |tree0| == |record| - |record0|
    requires NextState(dim, n.state, a) !in record
    ensures var t := NextState(dim, n.state, a);
            var tree' := tree + [n.GetNextNode(t, a, n.depth + 1)];
            var record' := record + {t};
            && AllReached(dim, init, tree')
            && record0 <= record' <= AllStates(Tiles(init), |init|)
            && |tree'| - |tree0| == |record'| - |record0|
  {
    var t := NextState(dim, n.state, a);
    QueueChild(dim, init, n, a, tree);
    Record(init, t, |tree| - |tree0|, record0, record);
  }

  /** A child made by a legal action from a reached node, queued behind reached nodes. */
  lemma QueueChild(dim: nat, init: seq<nat>, n: Node, a: Action, tree: seq<Node>)
    requires dim >= 1 && |init| == dim * dim && Reached(dim, init, n)
    requires 0 in n.state && Legal(dim, FindBlank(n.state), a) && OnBoard(dim, n.state, a)
    requires AllReached(dim, init, tree)
    ensures AllReached(dim, init, tree + [n.GetNextNode(NextState(dim, n.state, a), a, n.depth + 1)])
  {
    ChildReached(dim, init, n, a);
  }

  /** Recording a new rearrangement `t` of `init`: the record grows by one and stays among the rearrangements. */
  lemma Record(init: seq<nat>, t: seq<nat>, queued: int, record0: set<seq<nat>>, record: set<seq<nat>>)
    requires |t| == |init| && multiset(t) == multiset(init)
    requires record0 <= record <= AllStates(Tiles(init), |init|)
    requires queued == |record| - |record0| && t !in record
    ensures record0 <= record + {t} <= AllStates(Tiles(init), |init|)
    ensures queued + 1 == |record + {t}| - |record0|
  {
    Rearranged(init, t);
  }

  /**
   * The inner loop of `bfs`: the children of `node` by each of `actions` in
   * turn.  A child holding the goal is returned at once; any other child
   * whose state is not yet recorded is queued and its state recorded.
   */
  method Expand(puzzle: Puzzle, node: Node, actions: seq<Action>, goalState: seq<nat>,
                tree0: seq<Node>, record0: set<seq<nat>>)
    returns (found: Option<Node>, tree: seq<Node>, stateRecord: set<seq<nat>>)
    requires puzzle.Valid() && Reached(puzzle.dim, puzzle.initState, node) && 0 in node.state
    requires actions == Allowed(puzzle.dim, FindBlank(node.state), ActionOrder)
    requires AllReached(puzzle.dim, puzzle.initState, tree0)
    requires record0 <= AllStates(Tiles(puzzle.initState), |puzzle.initState|)
    ensures found.Some? ==> found.value.state == goalState && Reached(puzzle.dim, puzzle.initState, found.value)
    ensures AllReached(puzzle.dim, puzzle.initState, tree)
    ensures record0 <= stateRecord <= AllStates(Tiles(puzzle.initState), |puzzle.initState|)
    ensures |tree| - |tree0| == |stateRecord| - |record0|
  {
    var dim, init := puzzle.dim, puzzle.initState;
    tree, stateRecord := tree0, record0;
    for k := 0 to |actions|
      invariant AllReached(dim, init, tree)
      invariant record0 <= stateRecord <= AllStates(Tiles(init), |init|)
      invariant |tree| - |tree0| == |stateRecord| - |record0|
    {
      var action := actions[k];
      AllowedMember(dim, FindBlank(node.state), ActionOrder, action);
      LegalOnBoard(dim, node.state, action);
      var nextState := puzzle.GetNextState(node.state, action);
      var child := node.GetNextNode(nextState, action, node.depth + 1);
      if nextState == goalState {
        ChildReached(dim, init, node, action);
        return Some(child), tree, stateRecord;
      } else if nextState !in stateRecord {
        Enqueue(dim, init, node, action, tree0, tree, record0, stateRecord);
        tree := tree + [child];
        stateRecord := stateRecord + {nextState};
      }
    }
    found := None;
  }

  /**
   * `bfs`: breadth-first search from the puzzle's initial state.  It returns
   * `None` when the initial state is already the goal.  A node it returns
   * holds the goal, its depth is the length of its solution, and its
   * solution, replayed from the initial state, reaches the goal.
   */
  method Bfs(puzzle: Puzzle) returns (result: Option<Node>)
    requires puzzle.Valid() && 0 in puzzle.initState
    ensures puzzle.initState == GoalState(|puzzle.initState|) ==> result == None
    ensures result.Some? ==>
              && result.value.state == GoalState(|puzzle.initState|)
              && result.value.WellDepthed()
              && |result.value.Solution()| == result.value.depth
              && Replay(puzzle.dim, puzzle.initState, result.value.Solution()) == Some(result.value.state)
  {
    var init := puzzle.initState;
    var dim := puzzle.dim;
    var initNode := Node(init, None, None, 0);
    var goalState := GoalState(|init|);
    if init == goalState {
      return None;
    }
    ghost var universe := AllStates(Tiles(init), |init|);
    var stateRecord: set<seq<nat>> := {};
    var tree := [initNode];
    while |tree| > 0
      invariant AllReached(dim, init, tree)
      invariant stateRecord <= universe
      decreases |universe - stateRecord|, |tree|
    {
      var node := tree[0];
      Dequeue(dim, init, tree);
      tree := tree[1..];
      assert 0 in multiset(node.state);
      var validActions := puzzle.FilterActions(node.state);
      var found, tree', record' := Expand(puzzle, node, validActions, goalState, tree, stateRecord);
      if found.Some? {
        SolutionLength(found.value);
        return found;
      }
      FewerLeft(universe, stateRecord, record');
      tree, stateRecord := tree', record';
    }
    return None;
  }
}
