/** The search tree of MCTS: expansion, PUCT selection, signed back-up with
    an incremental mean, whole simulations, the visit-count move
    distribution and re-rooting.

    A node holds its prior P, visit count, mean value Q, board and its
    children in insertion order, each child under the move that leads to it.
    The tree is an immutable value: a node is reached from the root by a
    path of child positions, and the parent links of the source become
    those paths (re-rooting therefore cuts the old ancestors off by itself).
    The network, the rules of chess, the square root and the exponential
    are oracles. */
module Mcts {
  import opened Common
  import opened Chess
  import opened Evaluator

  datatype Node = Node(prior: real, visits: nat, q: real, board: Board, children: seq<Edge>)
  datatype Edge = Edge(move: Move, node: Node)

  /** Everything outside the tree: the network (policy vector and value of a
      position), legal-move generation, making a move, game-over detection,
      the result tag, and the square root. */
  datatype Oracles = Oracles(
    net: Board -> (seq<real>, real),
    legal: Board -> seq<Move>,
    push: (Board, Move) -> Board,
    gameOver: Board -> bool,
    result: Board -> ResultTag,
    sqrt: real -> real)

  function ChildMoves(children: seq<Edge>): (r: seq<Move>)
    ensures |r| == |children|
  {
    seq(|children|, i requires 0 <= i < |children| => children[i].move)
  }

  /** Every move of the children is among moves when each child's is. */
  lemma ChildMovesWithin(children: seq<Edge>, moves: seq<Move>)
    requires forall j | 0 <= j < |children| :: children[j].move in moves
    ensures forall m | m in ChildMoves(children) :: m in moves
  {
    forall m | m in ChildMoves(children)
      ensures m in moves
    {
      var j :| 0 <= j < |children| && ChildMoves(children)[j] == m;
    }
  }

  /** A node that has not been visited or expanded. */
  function Fresh(p: real, b: Board): Node
  {
    Node(p, 0, 0.0, b, [])
  }

  // ---- expand -----------------------------------------------------------

  /** One pass of the loop of TreeNode.expand: a child for mv with prior p
      is appended when mv is not yet a child and p is positive. */
  function AddChild(children: seq<Edge>, mv: Move, p: real, b: Board, push: (Board, Move) -> Board)
    : (r: seq<Edge>)
    ensures |children| <= |r| <= |children| + 1 && r[..|children|] == children
    ensures ChildMoves(r)[..|children|] == ChildMoves(children)
    ensures |r| > |children| ==>
      r[|children|] == Edge(mv, Fresh(p, push(b, mv))) && mv !in ChildMoves(children) && p > 0.0
    ensures p > 0.0 ==> mv in ChildMoves(r)
    ensures Distinct(ChildMoves(children)) ==> Distinct(ChildMoves(r))
  {
    if mv !in ChildMoves(children) && p > 0.0 then
      var r := children + [Edge(mv, Fresh(p, push(b, mv)))];
      assert ChildMoves(r)[|children|] == mv;
      assert ChildMoves(r) == ChildMoves(children) + [mv];
      r
    else children
  }

  /** Children after adding, in order, each (move, prior) entry whose move is
      not yet a child and whose prior is positive. */
  function ExpandChildren(children: seq<Edge>, priors: Dist, b: Board, push: (Board, Move) -> Board)
    : (r: seq<Edge>)
    ensures |children| <= |r| && r[..|children|] == children
    ensures Distinct(ChildMoves(children)) ==> Distinct(ChildMoves(r))
    decreases |priors|
  {
    if |priors| == 0 then children
    else
      var next := AddChild(children, priors[0].0, priors[0].1, b, push);
      var r := ExpandChildren(next, priors[1..], b, push);
      assert r[..|children|] == next[..|children|];
      r
  }

  /** Every child that expansion adds is a fresh node for a move that was
      not a child before, with a positive prior, and the pair is one of the
      entries of the priors. */
  lemma {:induction false} ExpandChildrenAdded(children: seq<Edge>, priors: Dist, b: Board,
                                               push: (Board, Move) -> Board, j: nat)
    requires |children| <= j < |ExpandChildren(children, priors, b, push)|
    ensures var r := ExpandChildren(children, priors, b, push);
      r[j].node == Fresh(r[j].node.prior, push(b, r[j].move))
      && r[j].node.prior > 0.0
      && r[j].move !in ChildMoves(children)
      && (r[j].move, r[j].node.prior) in priors
    decreases |priors|
  {
    var next := AddChild(children, priors[0].0, priors[0].1, b, push);
    var r := ExpandChildren(next, priors[1..], b, push);
    if j < |next| {
      assert r[j] == next[j];
      assert priors[0] == (r[j].move, r[j].node.prior);
    } else {
      ExpandChildrenAdded(next, priors[1..], b, push, j);
      assert ChildMoves(next)[..|children|] == ChildMoves(children);
      assert (r[j].move, r[j].node.prior) in priors[1..];
    }
  }

  /** Every entry with a positive prior ends up a child. */
  lemma {:induction false} ExpandChildrenComplete(children: seq<Edge>, priors: Dist, b: Board,
                                                  push: (Board, Move) -> Board, k: nat)
    requires k < |priors| && priors[k].1 > 0.0
    ensures priors[k].0 in ChildMoves(ExpandChildren(children, priors, b, push))
    decreases |priors|
  {
    var next := AddChild(children, priors[0].0, priors[0].1, b, push);
    var r := ExpandChildren(next, priors[1..], b, push);
    if k == 0 {
      var i :| 0 <= i < |next| && next[i].move == priors[0].0;
      assert ChildMoves(r)[i] == priors[0].0;
    } else {
      assert priors[k] == priors[1..][k - 1];
      ExpandChildrenComplete(next, priors[1..], b, push, k - 1);
    }
  }

  /** TreeNode.expand: only the children change. */
  function Expand(n: Node, priors: Dist, push: (Board, Move) -> Board): (r: Node)
    ensures r.prior == n.prior && r.visits == n.visits && r.q == n.q && r.board == n.board
    ensures r.children == ExpandChildren(n.children, priors, n.board, push)
  {
    n.(children := ExpandChildren(n.children, priors, n.board, push))
  }

  // ---- select -----------------------------------------------------------

  /** Q + c_puct * P * sqrt(parent visits) / (1 + visits) of a child. */
  function Score(child: Node, parentVisits: nat, cPuct: real, sqrt: real -> real): real
  {
    child.q + cPuct * child.prior * sqrt(parentVisits as real) / (1.0 + child.visits as real)
  }

  function Scores(n: Node, cPuct: real, sqrt: real -> real): (r: seq<real>)
    ensures |r| == |n.children|
  {
    seq(|n.children|, i requires 0 <= i < |n.children| =>
      Score(n.children[i].node, n.visits, cPuct, sqrt))
  }

  /** TreeNode.select: the position of the first child of maximal score, or
      None without children. Every child has a parent, so the branch of the
      source that scores a parentless child by Q alone is never taken. */
  function Select(n: Node, cPuct: real, sqrt: real -> real): (r: Option<nat>)
    ensures r.None? <==> |n.children| == 0
    ensures r.Some? ==> IsFirstMax(Scores(n, cPuct, sqrt), r.value)
  {
    if |n.children| == 0 then None else Some(FirstArgMax(Scores(n, cPuct, sqrt)))
  }

  // ---- paths ------------------------------------------------------------

  predicate ValidPath(n: Node, path: seq<nat>)
    decreases |path|
  {
    |path| == 0 || (path[0] < |n.children| && ValidPath(n.children[path[0]].node, path[1..]))
  }

  function NodeAt(n: Node, path: seq<nat>): Node
    requires ValidPath(n, path)
    decreases |path|
  {
    if |path| == 0 then n else NodeAt(n.children[path[0]].node, path[1..])
  }

  /** The selection loop of a simulation: follow Select until a node
      without children. */
  function Descend(n: Node, cPuct: real, sqrt: real -> real): (path: seq<nat>)
    ensures ValidPath(n, path) && |NodeAt(n, path).children| == 0
    ensures |n.children| > 0 <==> |path| > 0
    decreases n
  {
    match Select(n, cPuct, sqrt)
    case None => []
    case Some(i) => [i] + Descend(n.children[i].node, cPuct, sqrt)
  }

  lemma {:induction false} PathPrefix(n: Node, path: seq<nat>, d: nat)
    requires ValidPath(n, path) && d <= |path|
    ensures ValidPath(n, path[..d])
    decreases |path|
  {
    if d > 0 {
      assert path[..d][1..] == path[1..][..d - 1];
      PathPrefix(n.children[path[0]].node, path[1..], d - 1);
    }
  }

  // ---- back-up ------------------------------------------------------------

  /** Q after one more visit with value v: the running mean update. */
  function QUpdate(q: real, visits: nat, v: real): real
  {
    q + (v - q) / ((visits + 1) as real)
  }

  /** The running-mean step on plain numbers: q the mean of m values summing
      to s (0 when m is 0). */
  lemma MeanStep(s: real, m: nat, q: real, v: real)
    requires m == 0 ==> q == 0.0
    requires m > 0 ==> q == s / (m as real)
    ensures m == 0 ==> QUpdate(q, m, v) == v
    ensures m > 0 ==> QUpdate(q, m, v) == (s + v) / ((m + 1) as real)
  {
    var k := (m + 1) as real;
    if m > 0 {
      assert q * (m as real) == s;
      assert q * k == s + q;
      assert q == (s + q) / k;
      assert q + (v - q) / k == (s + q) / k + (v - q) / k;
    }
  }

  lemma {:induction false} MeanAppend(xs: seq<real>, v: real)
    ensures Mean(xs + [v]) == (Sum(xs) + v) / ((|xs| + 1) as real)
  {
    var ys := xs + [v];
    assert ys[..|xs|] == xs;
    assert Sum(ys) == Sum(xs) + v;
  }

  /** Q equals the mean of all values the node received. */
  lemma {:induction false} QUpdateMean(xs: seq<real>, v: real)
    ensures QUpdate(Mean(xs), |xs|, v) == Mean(xs + [v])
  {
    MeanAppend(xs, v);
    MeanStep(Sum(xs), |xs|, Mean(xs), v);
  }

  /** v for an even number of levels above the leaf, -v for an odd one. */
  function Signed(v: real, levels: nat): real
  {
    if levels % 2 == 0 then v else -v
  }

  /** update_recursive(v) called on the node at the end of path: that node
      takes v, its parent -v, and so on up to the root, each counting one
      more visit. */
  function Backup(n: Node, path: seq<nat>, v: real): (r: Node)
    requires ValidPath(n, path)
    ensures r.prior == n.prior && r.board == n.board
    ensures r.visits == n.visits + 1
    ensures r.q == QUpdate(n.q, n.visits, Signed(v, |path|))
    ensures ChildMoves(r.children) == ChildMoves(n.children)
    ensures forall j | 0 <= j < |n.children| && (|path| == 0 || j != path[0]) ::
      r.children[j] == n.children[j]
    ensures ValidPath(r, path)
    ensures |path| > 0 ==> r.children[path[0]].node.visits == n.children[path[0]].node.visits + 1
    decreases |path|
  {
    var own := n.(visits := n.visits + 1, q := QUpdate(n.q, n.visits, Signed(v, |path|)));
    if |path| == 0 then own
    else
      var i := path[0];
      var e := n.children[i];
      var c := Backup(e.node, path[1..], v);
      var r := own.(children := n.children[i := Edge(e.move, c)]);
      assert ChildMoves(r.children) == ChildMoves(n.children);
      r
  }

  /** Every node on the path, at depth d, gains exactly one visit and the
      value of its own level: v at the leaf, alternating in sign towards the
      root. */
  lemma {:induction false} BackupAlongPath(n: Node, path: seq<nat>, v: real, d: nat)
    requires ValidPath(n, path) && d <= |path|
    ensures ValidPath(n, path[..d]) && ValidPath(Backup(n, path, v), path[..d])
    ensures NodeAt(Backup(n, path, v), path[..d]).visits == NodeAt(n, path[..d]).visits + 1
    ensures NodeAt(Backup(n, path, v), path[..d]).q ==
      QUpdate(NodeAt(n, path[..d]).q, NodeAt(n, path[..d]).visits, Signed(v, |path| - d))
    decreases |path|
  {
    PathPrefix(n, path, d);
    var r := Backup(n, path, v);
    PathPrefix(r, path, d);
    if d > 0 {
      var c := n.children[path[0]].node;
      assert path[..d][1..] == path[1..][..d - 1];
      BackupAlongPath(c, path[1..], v, d - 1);
    }
  }

  // ---- one simulation -----------------------------------------------------

  /** The value 1-0 -> 1, 0-1 -> -1, anything else 0 (White's view). */
  function ResultValue(tag: ResultTag): real
  {
    match tag
    case WhiteWins => 1.0
    case BlackWins => -1.0
    case _ => 0.0
  }

  /** The terminal leaf value as the source computes it: the result in
      White's view, whoever is to move. */
  function TerminalValueAsWritten(b: Board, tag: ResultTag): real
  {
    ResultValue(tag)
  }

  /** The terminal leaf value in the same convention as the network's
      value, the view of the side to move. */
  function TerminalValue(b: Board, tag: ResultTag): real
  {
    if b.whiteToMove then ResultValue(tag) else -ResultValue(tag)
  }

  /** +1 when the side that made the last move won, -1 when it lost. */
  function MoverOutcome(b: Board, tag: ResultTag): real
  {
    match tag
    case WhiteWins => if b.whiteToMove then -1.0 else 1.0
    case BlackWins => if b.whiteToMove then 1.0 else -1.0
    case _ => 0.0
  }

  /** The leaf is backed up with -value, so the leaf's Q is scored for the
      player who moved into it, the one its parent's selection serves. With
      the side-to-move value that is exactly the mover's outcome. */
  lemma TerminalValueIntended(b: Board, tag: ResultTag)
    ensures -TerminalValue(b, tag) == MoverOutcome(b, tag)
  {
  }

  /** As written, White's checkmate is scored -1 for White's mating move. */
  lemma TerminalValueAsWrittenWrong()
    ensures var b := Board(map[], false, None, false, false, false, false);
      -TerminalValueAsWritten(b, WhiteWins) == -1.0 && MoverOutcome(b, WhiteWins) == 1.0
  {
  }

  /** MCTS._policy_value_fn: the floored and renormalised priors over the
      legal moves, and the network value. */
  function Evaluate(o: Oracles, b: Board): (Dist, real)
  {
    (SearchPriors(o.net(b).0, o.legal(b)), o.net(b).1)
  }

  /** The tree with Expand applied to the node at the end of path. */
  function ExpandAt(n: Node, path: seq<nat>, priors: Dist, push: (Board, Move) -> Board): (r: Node)
    requires ValidPath(n, path)
    ensures r.prior == n.prior && r.visits == n.visits && r.q == n.q && r.board == n.board
    ensures |path| == 0 ==> r == Expand(n, priors, push)
    ensures |path| > 0 ==> ChildMoves(r.children) == ChildMoves(n.children)
    ensures |path| > 0 ==> forall j | 0 <= j < |n.children| && j != path[0] ::
      r.children[j] == n.children[j]
    ensures |path| > 0 ==> r.children[path[0]].node.visits == n.children[path[0]].node.visits
    ensures ValidPath(r, path)
    decreases |path|
  {
    if |path| == 0 then Expand(n, priors, push)
    else
      var i := path[0];
      var e := n.children[i];
      var r := n.(children := n.children[i := Edge(e.move, ExpandAt(e.node, path[1..], priors, push))]);
      assert ChildMoves(r.children) == ChildMoves(n.children);
      r
  }

  /** The second half of a simulation, once the leaf at the end of path is
      known: unless the game is over there, expand the leaf with the priors
      and back up minus the network value; at a finished game back up minus
      the terminal value instead. */
  function Playout(root: Node, path: seq<nat>, priors: Dist, value: real, over: bool, terminal: real,
                   push: (Board, Move) -> Board): (r: Node)
    requires ValidPath(root, path)
    ensures r.visits == root.visits + 1
    ensures r.prior == root.prior && r.board == root.board
    ensures |path| > 0 ==>
      ChildMoves(r.children) == ChildMoves(root.children)
      && ChildVisits(r.children) == ChildVisits(root.children) + 1
    ensures |path| > 0 ==>
      |r.children| == |root.children|
      && r.children[path[0]].node.visits == root.children[path[0]].node.visits + 1
      && forall j | 0 <= j < |root.children| && j != path[0] :: r.children[j] == root.children[j]
  {
    var t := if over then root else ExpandAt(root, path, priors, push);
    var v := if over then -terminal else -value;
    if |path| > 0 then
      assert ChildMoves(t.children) == ChildMoves(root.children)
        && ChildVisits(t.children) == ChildVisits(root.children) by {
        if !over {
          ExpandAtChildVisits(root, path, priors, push);
        }
      }
      BackupChildVisits(t, path, v);
      Backup(t, path, v)
    else Backup(t, path, v)
  }

  /** One iteration of the simulation loop of get_move_probs: descend to a
      leaf, evaluate it, and play out from there; a finished game is scored
      as the source scores it, in White's view. */
  function Simulate(root: Node, o: Oracles, cPuct: real): (r: Node)
    ensures r.visits == root.visits + 1
    ensures r.prior == root.prior && r.board == root.board
    ensures |root.children| > 0 ==>
      ChildMoves(r.children) == ChildMoves(root.children)
      && ChildVisits(r.children) == ChildVisits(root.children) + 1
  {
    var path := Descend(root, cPuct, o.sqrt);
    var b := NodeAt(root, path).board;
    var e := Evaluate(o, b);
    Playout(root, path, e.0, e.1, o.gameOver(b), TerminalValueAsWritten(b, o.result(b)), o.push)
  }

  /** The same simulation with a finished game scored for the side to
      move, the convention of the network's value. */
  function SimulateIntended(root: Node, o: Oracles, cPuct: real): (r: Node)
    ensures r.visits == root.visits + 1
    ensures r.prior == root.prior && r.board == root.board
    ensures |root.children| > 0 ==>
      ChildMoves(r.children) == ChildMoves(root.children)
      && ChildVisits(r.children) == ChildVisits(root.children) + 1
  {
    var path := Descend(root, cPuct, o.sqrt);
    var b := NodeAt(root, path).board;
    var e := Evaluate(o, b);
    Playout(root, path, e.0, e.1, o.gameOver(b), TerminalValue(b, o.result(b)), o.push)
  }

  /** As written, a simulation that ends at a finished game gives the leaf
      one more visit and moves its Q toward minus the result in White's
      view, whoever is to move there: a leaf White has just mated takes -1. */
  lemma SimulateTerminalLeaf(root: Node, o: Oracles, cPuct: real)
    requires o.gameOver(NodeAt(root, Descend(root, cPuct, o.sqrt)).board)
    ensures var path := Descend(root, cPuct, o.sqrt);
      var leaf := NodeAt(root, path);
      ValidPath(Simulate(root, o, cPuct), path)
      && NodeAt(Simulate(root, o, cPuct), path).visits == leaf.visits + 1
      && NodeAt(Simulate(root, o, cPuct), path).q ==
           QUpdate(leaf.q, leaf.visits, -ResultValue(o.result(leaf.board)))
  {
    var path := Descend(root, cPuct, o.sqrt);
    var b := NodeAt(root, path).board;
    var v := -TerminalValueAsWritten(b, o.result(b));
    SimulateOver(root, o, cPuct);
    var r := Simulate(root, o, cPuct);
    assert r == Backup(root, path, v);
    BackupLeaf(root, path, v);
    assert NodeAt(r, path).visits == NodeAt(root, path).visits + 1;
    assert v == -ResultValue(o.result(b));
  }

  /** A simulation that reaches a finished game only backs up minus the
      terminal value as the source computes it. */
  lemma SimulateOver(root: Node, o: Oracles, cPuct: real)
    requires o.gameOver(NodeAt(root, Descend(root, cPuct, o.sqrt)).board)
    ensures var path := Descend(root, cPuct, o.sqrt);
      Simulate(root, o, cPuct) == Backup(root, path, -TerminalValueAsWritten(NodeAt(root, path).board, o.result(NodeAt(root, path).board)))
  {
    var path := Descend(root, cPuct, o.sqrt);
    var b := NodeAt(root, path).board;
    var e := Evaluate(o, b);
    PlayoutOver(root, path, e.0, e.1, TerminalValueAsWritten(b, o.result(b)), o.push);
  }

  /** With the intended terminal value the leaf's Q moves toward the
      outcome of the player who moved into it. */
  lemma SimulateIntendedTerminalLeaf(root: Node, o: Oracles, cPuct: real)
    requires o.gameOver(NodeAt(root, Descend(root, cPuct, o.sqrt)).board)
    ensures var path := Descend(root, cPuct, o.sqrt);
      var leaf := NodeAt(root, path);
      ValidPath(SimulateIntended(root, o, cPuct), path)
      && NodeAt(SimulateIntended(root, o, cPuct), path).visits == leaf.visits + 1
      && NodeAt(SimulateIntended(root, o, cPuct), path).q ==
           QUpdate(leaf.q, leaf.visits, MoverOutcome(leaf.board, o.result(leaf.board)))
  {
    var path := Descend(root, cPuct, o.sqrt);
    var b := NodeAt(root, path).board;
    var e := Evaluate(o, b);
    TerminalValueIntended(b, o.result(b));
    PlayoutOver(root, path, e.0, e.1, TerminalValue(b, o.result(b)), o.push);
    BackupLeaf(root, path, -TerminalValue(b, o.result(b)));
  }

  /** The node at the end of the path takes v itself and one more visit. */
  lemma BackupLeaf(n: Node, path: seq<nat>, v: real)
    requires ValidPath(n, path)
    ensures ValidPath(Backup(n, path, v), path)
    ensures NodeAt(Backup(n, path, v), path).visits == NodeAt(n, path).visits + 1
    ensures NodeAt(Backup(n, path, v), path).q == QUpdate(NodeAt(n, path).q, NodeAt(n, path).visits, v)
  {
    BackupAlongPath(n, path, v, |path|);
    assert path[..|path|] == path;
  }

  /** A finished game is not expanded: the play-out only backs up minus
      the terminal value. */
  lemma PlayoutOver(root: Node, path: seq<nat>, priors: Dist, value: real, terminal: real,
                    push: (Board, Move) -> Board)
    requires ValidPath(root, path)
    ensures Playout(root, path, priors, value, true, terminal, push) == Backup(root, path, -terminal)
  {
  }

  /** Sum of the children's visit counts. */
  function ChildVisits(children: seq<Edge>): nat
  {
    if |children| == 0 then 0
    else ChildVisits(children[..|children| - 1]) + children[|children| - 1].node.visits
  }

  lemma {:induction false} ChildVisitsBump(a: seq<Edge>, b: seq<Edge>, i: nat)
    requires |a| == |b| && i < |a|
    requires forall j | 0 <= j < |a| && j != i :: a[j] == b[j]
    requires b[i].node.visits == a[i].node.visits + 1
    ensures ChildVisits(b) == ChildVisits(a) + 1
    decreases |a|
  {
    var n := |a| - 1;
    if i < n {
      ChildVisitsBump(a[..n], b[..n], i);
    } else {
      assert a[..n] == b[..n];
    }
  }

  lemma {:induction false} ChildVisitsSame(a: seq<Edge>, b: seq<Edge>)
    requires |a| == |b|
    requires forall j | 0 <= j < |a| :: a[j].node.visits == b[j].node.visits
    ensures ChildVisits(b) == ChildVisits(a)
    decreases |a|
  {
    if |a| > 0 {
      ChildVisitsSame(a[..|a| - 1], b[..|b| - 1]);
    }
  }

  /** Below the root, a back-up adds one visit to one child of the root. */
  lemma BackupChildVisits(t: Node, path: seq<nat>, v: real)
    requires ValidPath(t, path) && |path| > 0
    ensures ChildMoves(Backup(t, path, v).children) == ChildMoves(t.children)
    ensures ChildVisits(Backup(t, path, v).children) == ChildVisits(t.children) + 1
  {
    var r := Backup(t, path, v);
    ChildVisitsBump(t.children, r.children, path[0]);
  }

  /** Below the root, an expansion leaves the root's children and their
      visit counts as they were. */
  lemma ExpandAtChildVisits(n: Node, path: seq<nat>, priors: Dist, push: (Board, Move) -> Board)
    requires ValidPath(n, path) && |path| > 0
    ensures ChildMoves(ExpandAt(n, path, priors, push).children) == ChildMoves(n.children)
    ensures ChildVisits(ExpandAt(n, path, priors, push).children) == ChildVisits(n.children)
  {
    var r := ExpandAt(n, path, priors, push);
    ChildVisitsSame(n.children, r.children);
  }

  /** step applied n times. */
  function Iterate(step: Node -> Node, root: Node, n: nat): Node
    decreases n
  {
    if n == 0 then root else Iterate(step, step(root), n - 1)
  }

  /** s is t after a step that adds one visit to t and, when t has
      children, one visit to exactly one child, keeping the child moves. */
  predicate Conserves(t: Node, s: Node)
  {
    s.visits == t.visits + 1
    && (|t.children| > 0 ==>
          ChildMoves(s.children) == ChildMoves(t.children)
          && ChildVisits(s.children) == ChildVisits(t.children) + 1)
  }

  ghost predicate Conserving(step: Node -> Node)
  {
    forall t: Node :: Conserves(t, step(t))
  }

  lemma {:induction false} IterateConservation(step: Node -> Node, root: Node, n: nat)
    requires Conserving(step) && |root.children| > 0
    ensures Iterate(step, root, n).visits == root.visits + n
    ensures ChildMoves(Iterate(step, root, n).children) == ChildMoves(root.children)
    ensures ChildVisits(Iterate(step, root, n).children) == ChildVisits(root.children) + n
    decreases n
  {
    if n > 0 {
      var s := step(root);
      assert Conserves(root, s);
      IterateConservation(step, s, n - 1);
    }
  }

  /** The simulation loop of get_move_probs: n simulations in a row. */
  function Run(root: Node, o: Oracles, cPuct: real, n: nat): Node
  {
    Iterate(t => Simulate(t, o, cPuct), root, n)
  }

  /** Visit conservation: each simulation adds one visit to the root and, on
      a root with children, one to exactly one of its children. */
  lemma RunConservation(root: Node, o: Oracles, cPuct: real, n: nat)
    requires |root.children| > 0
    ensures Run(root, o, cPuct, n).visits == root.visits + n
    ensures ChildMoves(Run(root, o, cPuct, n).children) == ChildMoves(root.children)
    ensures ChildVisits(Run(root, o, cPuct, n).children) == ChildVisits(root.children) + n
  {
    var step := t => Simulate(t, o, cPuct);
    forall t: Node
      ensures Conserves(t, step(t))
    {
      var s := Simulate(t, o, cPuct);
    }
    IterateConservation(step, root, n);
  }

  // ---- set_root_node / update_with_move -------------------------------------

  /** MCTS.set_root_node: a fresh root with prior 1, expanded with the
      evaluator's priors. */
  function SetRootNode(b: Board, o: Oracles): (r: Node)
    ensures r.visits == 0 && r.q == 0.0 && r.prior == 1.0 && r.board == b
    ensures forall j | 0 <= j < |r.children| ::
      r.children[j].node.visits == 0 && r.children[j].move in o.legal(b)
    ensures forall m | m in o.legal(b) :: m in ChildMoves(r.children)
  {
    var priors := Evaluate(o, b).0;
    ExpandFromEmpty(priors, b, o.push);
    Expand(Fresh(1.0, b), priors, o.push)
  }

  /** Expanding a childless node: every child is unvisited and comes from a
      key of the priors, and every key with a positive prior becomes a
      child. */
  lemma ExpandFromEmpty(priors: Dist, b: Board, push: (Board, Move) -> Board)
    ensures forall j | 0 <= j < |ExpandChildren([], priors, b, push)| ::
      ExpandChildren([], priors, b, push)[j].node.visits == 0
      && ExpandChildren([], priors, b, push)[j].move in Keys(priors)
    ensures (forall k | 0 <= k < |priors| :: priors[k].1 > 0.0) ==>
      forall m | m in Keys(priors) :: m in ChildMoves(ExpandChildren([], priors, b, push))
  {
    var r := ExpandChildren([], priors, b, push);
    forall j | 0 <= j < |r|
      ensures r[j].node.visits == 0 && r[j].move in Keys(priors)
    {
      ExpandChildrenAdded([], priors, b, push, j);
      var k :| 0 <= k < |priors| && priors[k] == (r[j].move, r[j].node.prior);
      assert Keys(priors)[k] == r[j].move;
    }
    if forall k | 0 <= k < |priors| :: priors[k].1 > 0.0 {
      forall m | m in Keys(priors)
        ensures m in ChildMoves(r)
      {
        var k :| 0 <= k < |priors| && Keys(priors)[k] == m;
        ExpandChildrenComplete([], priors, b, push, k);
      }
    }
  }

  /** A freshly set root whose position has a legal move: after n simulations
      its children's visit counts sum to n. */
  lemma FreshRootConservation(b: Board, o: Oracles, cPuct: real, n: nat)
    requires |o.legal(b)| > 0
    ensures ChildVisits(Run(SetRootNode(b, o), o, cPuct, n).children) == n
    ensures Run(SetRootNode(b, o), o, cPuct, n).visits == n
  {
    var root := SetRootNode(b, o);
    assert |root.children| > 0 by {
      assert o.legal(b)[0] in ChildMoves(root.children);
    }
    ZeroChildVisits(root.children);
    RunConservation(root, o, cPuct, n);
  }

  lemma {:induction false} ZeroChildVisits(children: seq<Edge>)
    requires forall j | 0 <= j < |children| :: children[j].node.visits == 0
    ensures ChildVisits(children) == 0
    decreases |children|
  {
    if |children| > 0 {
      ZeroChildVisits(children[..|children| - 1]);
    }
  }

  /** Position of the first child reached by move m. */
  function FindChild(children: seq<Edge>, m: Move): (r: Option<nat>)
    ensures r.None? <==> m !in ChildMoves(children)
    ensures r.Some? ==>
      (r.value < |children| && children[r.value].move == m
       && forall j | 0 <= j < r.value :: children[j].move != m)
    decreases |children|
  {
    if |children| == 0 then None
    else if children[0].move == m then
      assert ChildMoves(children)[0] == m;
      Some(0)
    else
      match FindChild(children[1..], m)
      case None =>
        assert ChildMoves(children) == [children[0].move] + ChildMoves(children[1..]);
        None
      case Some(k) =>
        assert forall j | 1 <= j < k + 1 :: children[j] == children[1..][j - 1];
        assert ChildMoves(children)[k + 1] == m;
        Some(k + 1)
  }

  /** MCTS.update_with_move: an existing child becomes the root with its
      statistics and subtree untouched; otherwise a fresh root is set for
      the position after the move. */
  function UpdateWithMove(root: Node, m: Move, o: Oracles): (r: Node)
    ensures m in ChildMoves(root.children) ==>
      exists j | 0 <= j < |root.children| :: root.children[j].move == m && r == root.children[j].node
    ensures m !in ChildMoves(root.children) ==>
      r.visits == 0 && r.q == 0.0 && r.board == o.push(root.board, m)
  {
    match FindChild(root.children, m)
    case Some(j) => root.children[j].node
    case None => SetRootNode(o.push(root.board, m), o)
  }

  /** With distinct child moves the new root is THE child for m. */
  lemma UpdateWithMoveChild(root: Node, m: Move, o: Oracles, j: nat)
    requires Distinct(ChildMoves(root.children))
    requires j < |root.children| && root.children[j].move == m
    ensures UpdateWithMove(root, m, o) == root.children[j].node
  {
    assert ChildMoves(root.children)[j] == m;
    var k := FindChild(root.children, m).value;
    assert ChildMoves(root.children)[k] == m;
  }

  // ---- get_move_probs -------------------------------------------------------

  const LOW_TEMPERATURE: real := 0.001

  function VisitVector(children: seq<Edge>): (r: seq<real>)
    ensures |r| == |children|
  {
    seq(|children|, i requires 0 <= i < |children| => children[i].node.visits as real)
  }

  /** exp((n - max n) / T) for each visit count n. */
  function ExpWeights(visits: seq<real>, temperature: real, exp: real -> real): (w: seq<real>)
    requires |visits| > 0 && temperature > 0.0 && forall x :: exp(x) > 0.0
    ensures |w| == |visits| && forall i | 0 <= i < |w| :: w[i] > 0.0
  {
    var top := visits[FirstArgMax(visits)];
    seq(|visits|, i requires 0 <= i < |visits| => exp((visits[i] - top) / temperature))
  }

  /** The distribution returned by get_move_probs once the simulations have
      run: {} without children; at temperature <= 1e-3 all mass on the first
      child of maximal visits; otherwise exp((n - max n) / T) normalised. */
  function MoveProbs(root: Node, temperature: real, exp: real -> real): (r: Dist)
    requires forall x :: exp(x) > 0.0
    ensures Keys(r) == ChildMoves(root.children)
    ensures |root.children| > 0 ==> Sum(Values(r)) == 1.0
    ensures temperature <= LOW_TEMPERATURE ==> forall i | 0 <= i < |r| ::
      r[i].1 == if IsFirstMax(VisitVector(root.children), i) then 1.0 else 0.0
    ensures temperature > LOW_TEMPERATURE ==> forall i | 0 <= i < |r| :: r[i].1 > 0.0
  {
    var moves := ChildMoves(root.children);
    if |root.children| == 0 then []
    else
      var visits := VisitVector(root.children);
      if temperature <= LOW_TEMPERATURE then
        var k := FirstArgMax(visits);
        var r := seq(|moves|, i requires 0 <= i < |moves| => (moves[i], if i == k then 1.0 else 0.0));
        forall i | 0 <= i < |r|
          ensures r[i].1 == if IsFirstMax(visits, i) then 1.0 else 0.0
        {
          if IsFirstMax(visits, i) {
            FirstMaxUnique(visits, i, k);
          }
        }
        OneHotSum(Values(r), k);
        r
      else
        var w := ExpWeights(visits, temperature, exp);
        SumPositive(w);
        NormaliseSum(moves, w, Sum(w));
        DivSelf(Sum(w));
        Normalise(moves, w, Sum(w))
  }

  lemma {:induction false} OneHotSum(xs: seq<real>, k: nat)
    requires k < |xs|
    requires forall i | 0 <= i < |xs| :: xs[i] == if i == k then 1.0 else 0.0
    ensures Sum(xs) == 1.0
    decreases |xs|
  {
    var n := |xs| - 1;
    if k < n {
      OneHotSum(xs[..n], k);
    } else {
      SumConst(xs[..n], 0.0);
    }
  }

  /** Above the low temperature, with a monotone exp, more visits never mean
      a smaller probability. */
  lemma MoveProbsMonotone(root: Node, temperature: real, exp: real -> real, i: nat, j: nat)
    requires forall x :: exp(x) > 0.0
    requires forall x, y | x <= y :: exp(x) <= exp(y)
    requires temperature > LOW_TEMPERATURE
    requires i < |root.children| && j < |root.children|
    requires root.children[i].node.visits <= root.children[j].node.visits
    ensures MoveProbs(root, temperature, exp)[i].1 <= MoveProbs(root, temperature, exp)[j].1
  {
    var visits := VisitVector(root.children);
    var w := ExpWeights(visits, temperature, exp);
    SumPositive(w);
    DivMonotone(visits[i] - visits[FirstArgMax(visits)], visits[j] - visits[FirstArgMax(visits)], temperature);
    DivMonotone(w[i], w[j], Sum(w));
  }
}
