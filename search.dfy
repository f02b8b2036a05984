/**
 * The fail-hard alpha-beta search of search_algorithm.py over the tree of
 * boards that the successor generator spans: White maximises, Black
 * minimises, a node at depth 0 or at the end of the game scores as its
 * State.balance.
 *
 * Search, MaxScan and MinScan give the value and the chosen child that the
 * recursion computes; Minimax is the plain depth-bounded minimax it is
 * measured against.
 */
module Search {
  import opened Wrappers
  import opened PieceTypes
  import opened Boards
  import opened States

  /** The initial window 999999, in tenths. */
  const WindowBound: int := 9999990

  /** The value of a search and the index of the child it last stored as
      next_move, if it stored one. */
  datatype Scan = Scan(value: int, move: Option<nat>)

  function Measure(depth: int): nat {
    if depth <= 0 then 0 else depth
  }

  function Min(x: int, y: int): int {
    if x <= y then x else y
  }

  function Max(x: int, y: int): int {
    if x >= y then x else y
  }

  /** x limited to the window [lo, hi]. */
  function Clamp(x: int, lo: int, hi: int): int {
    if x < lo then lo else if x > hi then hi else x
  }

  /** The nodes _alpha_beta scores without expanding them. */
  predicate IsLeaf(b: Board, depth: int) {
    depth <= 0 || b.ended
  }

  /** The leaf test of _alpha_beta as written: at depth 0 or below the `or`
      short-circuits and the node is a leaf (Some(true)); otherwise it calls
      `is_terminal`, which State.__init__ sets to a bool, and the call raises
      a TypeError (None). */
  function LeafTestAsWritten(depth: int): (r: Option<bool>)
    ensures r.Some? <==> depth <= 0
    ensures r.Some? ==> r.value
  {
    if depth <= 0 then Some(true) else None
  }

  /** Where the test as written raises, the intended one reads the stored
      flag: a node with depth left is a leaf exactly when its game ended. */
  lemma InnerTestRaisesAsWritten(b: Board, depth: int)
    requires depth > 0
    ensures LeafTestAsWritten(depth).None?
    ensures IsLeaf(b, depth) <==> b.ended
  {
  }

  // ----- what _alpha_beta computes ---------------------------------------

  /** _alpha_beta(state, depth, alpha, beta) on a state built from b. */
  function Search(b: Board, depth: int, alpha: int, beta: int): (r: Scan)
    decreases Measure(depth), 1
    ensures IsLeaf(b, depth) ==> r == Scan(Score(b), None)
    ensures r.move.Some? ==> r.move.value < |b.successors|
  {
    if IsLeaf(b, depth) then Scan(Score(b), None)
    else if b.turn == White then MaxScan(b, depth, alpha, beta, 0, None)
    else MinScan(b, depth, alpha, beta, 0, None)
  }

  /** The loop of a White node from child i on, with the running alpha and
      the move stored so far: a child that raises alpha becomes the move,
      and the loop returns beta as soon as alpha reaches it. */
  function MaxScan(b: Board, depth: int, alpha: int, beta: int, i: nat, move: Option<nat>): (r: Scan)
    requires depth > 0 && i <= |b.successors|
    decreases Measure(depth), 0, |b.successors| - i
    ensures r.move == move || (r.move.Some? && i <= r.move.value < |b.successors|)
  {
    if i == |b.successors| then Scan(alpha, move)
    else
      var v := Search(b.successors[i], depth - 1, alpha, beta).value;
      var alpha', move' := if v > alpha then v else alpha, if v > alpha then Some(i) else move;
      if alpha' >= beta then Scan(beta, move')
      else MaxScan(b, depth, alpha', beta, i + 1, move')
  }

  /** The loop of a Black node: a child that lowers beta becomes the move,
      and the loop returns alpha as soon as beta reaches it. */
  function MinScan(b: Board, depth: int, alpha: int, beta: int, i: nat, move: Option<nat>): (r: Scan)
    requires depth > 0 && i <= |b.successors|
    decreases Measure(depth), 0, |b.successors| - i
    ensures r.move == move || (r.move.Some? && i <= r.move.value < |b.successors|)
  {
    if i == |b.successors| then Scan(beta, move)
    else
      var v := Search(b.successors[i], depth - 1, alpha, beta).value;
      var beta', move' := if v < beta then v else beta, if v < beta then Some(i) else move;
      if alpha >= beta' then Scan(alpha, move')
      else MinScan(b, depth, alpha, beta', i + 1, move')
  }

  /** How many children the White loop from child i on looks at: up to and
      including the first whose value brings the running alpha to beta, or
      all of them. */
  function MaxStop(b: Board, depth: int, alpha: int, beta: int, i: nat): (k: nat)
    requires depth > 0 && i <= |b.successors|
    decreases |b.successors| - i
    ensures i <= k <= |b.successors|
  {
    if i == |b.successors| then i
    else
      var v := Search(b.successors[i], depth - 1, alpha, beta).value;
      var alpha' := if v > alpha then v else alpha;
      if alpha' >= beta then i + 1 else MaxStop(b, depth, alpha', beta, i + 1)
  }

  /** The same for the Black loop and the running beta. */
  function MinStop(b: Board, depth: int, alpha: int, beta: int, i: nat): (k: nat)
    requires depth > 0 && i <= |b.successors|
    decreases |b.successors| - i
    ensures i <= k <= |b.successors|
  {
    if i == |b.successors| then i
    else
      var v := Search(b.successors[i], depth - 1, alpha, beta).value;
      var beta' := if v < beta then v else beta;
      if alpha >= beta' then i + 1 else MinStop(b, depth, alpha, beta', i + 1)
  }

  /** One turn of the White loop, given the value v of child i. */
  lemma MaxScanStep(b: Board, depth: int, alpha: int, beta: int, i: nat, move: Option<nat>, v: int)
    requires depth > 0 && i < |b.successors|
    requires v == Search(b.successors[i], depth - 1, alpha, beta).value
    ensures MaxScan(b, depth, alpha, beta, i, move)
         == if v > alpha then (if v >= beta then Scan(beta, Some(i)) else MaxScan(b, depth, v, beta, i + 1, Some(i)))
            else if alpha >= beta then Scan(beta, move)
            else MaxScan(b, depth, alpha, beta, i + 1, move)
  {
  }

  /** One turn of the Black loop, given the value v of child i. */
  lemma MinScanStep(b: Board, depth: int, alpha: int, beta: int, i: nat, move: Option<nat>, v: int)
    requires depth > 0 && i < |b.successors|
    requires v == Search(b.successors[i], depth - 1, alpha, beta).value
    ensures MinScan(b, depth, alpha, beta, i, move)
         == if v < beta then (if alpha >= v then Scan(alpha, Some(i)) else MinScan(b, depth, alpha, v, i + 1, Some(i)))
            else if alpha >= beta then Scan(alpha, move)
            else MinScan(b, depth, alpha, beta, i + 1, move)
  {
  }

  /** One turn of the White loop's stopping point, given the value v of child i. */
  lemma MaxStopStep(b: Board, depth: int, alpha: int, beta: int, i: nat, v: int)
    requires depth > 0 && i < |b.successors|
    requires v == Search(b.successors[i], depth - 1, alpha, beta).value
    ensures MaxStop(b, depth, alpha, beta, i)
         == if v > alpha then (if v >= beta then i + 1 else MaxStop(b, depth, v, beta, i + 1))
            else if alpha >= beta then i + 1
            else MaxStop(b, depth, alpha, beta, i + 1)
  {
  }

  /** One turn of the Black loop's stopping point, given the value v of child i. */
  lemma MinStopStep(b: Board, depth: int, alpha: int, beta: int, i: nat, v: int)
    requires depth > 0 && i < |b.successors|
    requires v == Search(b.successors[i], depth - 1, alpha, beta).value
    ensures MinStop(b, depth, alpha, beta, i)
         == if v < beta then (if alpha >= v then i + 1 else MinStop(b, depth, alpha, v, i + 1))
            else if alpha >= beta then i + 1
            else MinStop(b, depth, alpha, beta, i + 1)
  {
  }

  /** A White loop that stops before its last child has been cut off: it
      returns beta. */
  lemma {:induction false} MaxStopCutsOff(b: Board, depth: int, alpha: int, beta: int, i: nat, move: Option<nat>)
    requires depth > 0 && i <= |b.successors|
    requires MaxStop(b, depth, alpha, beta, i) < |b.successors|
    decreases |b.successors| - i
    ensures MaxScan(b, depth, alpha, beta, i, move).value == beta
  {
    var v := Search(b.successors[i], depth - 1, alpha, beta).value;
    MaxScanStep(b, depth, alpha, beta, i, move, v);
    MaxStopStep(b, depth, alpha, beta, i, v);
    if v > alpha && v < beta {
      MaxStopCutsOff(b, depth, v, beta, i + 1, Some(i));
    } else if v <= alpha && alpha < beta {
      MaxStopCutsOff(b, depth, alpha, beta, i + 1, move);
    }
  }

  /** A Black loop that stops before its last child has been cut off: it
      returns alpha. */
  lemma {:induction false} MinStopCutsOff(b: Board, depth: int, alpha: int, beta: int, i: nat, move: Option<nat>)
    requires depth > 0 && i <= |b.successors|
    requires MinStop(b, depth, alpha, beta, i) < |b.successors|
    decreases |b.successors| - i
    ensures MinScan(b, depth, alpha, beta, i, move).value == alpha
  {
    var v := Search(b.successors[i], depth - 1, alpha, beta).value;
    MinScanStep(b, depth, alpha, beta, i, move, v);
    MinStopStep(b, depth, alpha, beta, i, v);
    if v < beta && alpha < v {
      MinStopCutsOff(b, depth, alpha, v, i + 1, Some(i));
    } else if v >= beta && alpha < beta {
      MinStopCutsOff(b, depth, alpha, beta, i + 1, move);
    }
  }

  /** One whole turn of the White loop: from the loop's state at child i and
      the child's value v, either the cut-off that ends the scan or the
      loop's state at child i + 1. */
  lemma MaxTurn(b: Board, depth: int, alpha: int, beta: int, a: int, i: nat, move: Option<nat>, v: int)
    requires depth > 0 && i < |b.successors|
    requires v == Search(b.successors[i], depth - 1, a, beta).value
    requires MaxScan(b, depth, a, beta, i, move) == MaxScan(b, depth, alpha, beta, 0, None)
    requires MaxStop(b, depth, a, beta, i) == MaxStop(b, depth, alpha, beta, 0)
    ensures var a' := if v > a then v else a;
            var move' := if v > a then Some(i) else move;
            if a' >= beta then
              MaxScan(b, depth, alpha, beta, 0, None) == Scan(beta, move') && MaxStop(b, depth, alpha, beta, 0) == i + 1
            else
              MaxScan(b, depth, a', beta, i + 1, move') == MaxScan(b, depth, alpha, beta, 0, None)
              && MaxStop(b, depth, a', beta, i + 1) == MaxStop(b, depth, alpha, beta, 0)
  {
    MaxScanStep(b, depth, a, beta, i, move, v);
    MaxStopStep(b, depth, a, beta, i, v);
  }

  /** One whole turn of the Black loop, the mirror of MaxTurn. */
  lemma MinTurn(b: Board, depth: int, alpha: int, beta: int, a: int, i: nat, move: Option<nat>, v: int)
    requires depth > 0 && i < |b.successors|
    requires v == Search(b.successors[i], depth - 1, alpha, a).value
    requires MinScan(b, depth, alpha, a, i, move) == MinScan(b, depth, alpha, beta, 0, None)
    requires MinStop(b, depth, alpha, a, i) == MinStop(b, depth, alpha, beta, 0)
    ensures var a' := if v < a then v else a;
            var move' := if v < a then Some(i) else move;
            if alpha >= a' then
              MinScan(b, depth, alpha, beta, 0, None) == Scan(alpha, move') && MinStop(b, depth, alpha, beta, 0) == i + 1
            else
              MinScan(b, depth, alpha, a', i + 1, move') == MinScan(b, depth, alpha, beta, 0, None)
              && MinStop(b, depth, alpha, a', i + 1) == MinStop(b, depth, alpha, beta, 0)
  {
    MinScanStep(b, depth, alpha, a, i, move, v);
    MinStopStep(b, depth, alpha, a, i, v);
  }

  // ----- the window bounds -------------------------------------------------

  lemma {:induction false} MaxScanWithin(b: Board, depth: int, alpha: int, beta: int, i: nat, move: Option<nat>)
    requires depth > 0 && i <= |b.successors| && alpha <= beta
    decreases |b.successors| - i
    ensures alpha <= MaxScan(b, depth, alpha, beta, i, move).value <= beta
  {
    if i < |b.successors| {
      var v := Search(b.successors[i], depth - 1, alpha, beta).value;
      var alpha' := if v > alpha then v else alpha;
      var move' := if v > alpha then Some(i) else move;
      if alpha' < beta {
        MaxScanWithin(b, depth, alpha', beta, i + 1, move');
      }
    }
  }

  lemma {:induction false} MinScanWithin(b: Board, depth: int, alpha: int, beta: int, i: nat, move: Option<nat>)
    requires depth > 0 && i <= |b.successors| && alpha <= beta
    decreases |b.successors| - i
    ensures alpha <= MinScan(b, depth, alpha, beta, i, move).value <= beta
  {
    if i < |b.successors| {
      var v := Search(b.successors[i], depth - 1, alpha, beta).value;
      var beta' := if v < beta then v else beta;
      var move' := if v < beta then Some(i) else move;
      if alpha < beta' {
        MinScanWithin(b, depth, alpha, beta', i + 1, move');
      }
    }
  }

  /** An expanded node called with alpha <= beta returns a value in [alpha, beta]. */
  lemma SearchWithinWindow(b: Board, depth: int, alpha: int, beta: int)
    requires !IsLeaf(b, depth) && alpha <= beta
    ensures alpha <= Search(b, depth, alpha, beta).value <= beta
  {
    if b.turn == White {
      MaxScanWithin(b, depth, alpha, beta, 0, None);
    } else {
      MinScanWithin(b, depth, alpha, beta, 0, None);
    }
  }

  // ----- plain minimax -----------------------------------------------------

  /** Every node the search expands within depth has a child. */
  predicate Expandable(b: Board, depth: int)
    decreases Measure(depth)
  {
    || IsLeaf(b, depth)
    || (&& |b.successors| > 0
        && forall i :: 0 <= i < |b.successors| ==> Expandable(b.successors[i], depth - 1))
  }

  /** Depth-bounded minimax: White takes the largest, Black the smallest
      value among the children. */
  function Minimax(b: Board, depth: int): (m: int)
    requires Expandable(b, depth)
    decreases Measure(depth), 1
    ensures -WinScore <= m <= WinScore
  {
    if IsLeaf(b, depth) then Score(b)
    else if b.turn == White then BestFrom(b, depth, 0)
    else WorstFrom(b, depth, 0)
  }

  /** The largest minimax value among children i and later. */
  function BestFrom(b: Board, depth: int, i: nat): (m: int)
    requires !IsLeaf(b, depth) && Expandable(b, depth) && i < |b.successors|
    decreases Measure(depth), 0, |b.successors| - i
    ensures -WinScore <= m <= WinScore
  {
    var m := Minimax(b.successors[i], depth - 1);
    if i == |b.successors| - 1 then m else Max(m, BestFrom(b, depth, i + 1))
  }

  /** The smallest minimax value among children i and later. */
  function WorstFrom(b: Board, depth: int, i: nat): (m: int)
    requires !IsLeaf(b, depth) && Expandable(b, depth) && i < |b.successors|
    decreases Measure(depth), 0, |b.successors| - i
    ensures -WinScore <= m <= WinScore
  {
    var m := Minimax(b.successors[i], depth - 1);
    if i == |b.successors| - 1 then m else Min(m, WorstFrom(b, depth, i + 1))
  }

  /** The first child from i on whose value, capped at beta, is the best
      capped value. */
  function FirstBest(b: Board, depth: int, beta: int, i: nat): (k: nat)
    requires !IsLeaf(b, depth) && Expandable(b, depth) && i < |b.successors|
    decreases |b.successors| - i
    ensures i <= k < |b.successors|
    ensures Min(Minimax(b.successors[k], depth - 1), beta) == Min(BestFrom(b, depth, i), beta)
  {
    if i == |b.successors| - 1 then i
    else if Min(Minimax(b.successors[i], depth - 1), beta) >= Min(BestFrom(b, depth, i + 1), beta) then i
    else FirstBest(b, depth, beta, i + 1)
  }

  /** The first child from i on whose value, floored at alpha, is the
      worst floored value. */
  function FirstWorst(b: Board, depth: int, alpha: int, i: nat): (k: nat)
    requires !IsLeaf(b, depth) && Expandable(b, depth) && i < |b.successors|
    decreases |b.successors| - i
    ensures i <= k < |b.successors|
    ensures Max(Minimax(b.successors[k], depth - 1), alpha) == Max(WorstFrom(b, depth, i), alpha)
  {
    if i == |b.successors| - 1 then i
    else if Max(Minimax(b.successors[i], depth - 1), alpha) <= Max(WorstFrom(b, depth, i + 1), alpha) then i
    else FirstWorst(b, depth, alpha, i + 1)
  }

  /** BestFrom is the maximum of the children's values from i on: no child
      exceeds it and some child attains it. */
  lemma {:induction false} BestFromIsMaximum(b: Board, depth: int, i: nat)
    requires !IsLeaf(b, depth) && Expandable(b, depth) && i < |b.successors|
    decreases |b.successors| - i
    ensures forall j :: i <= j < |b.successors| ==> Minimax(b.successors[j], depth - 1) <= BestFrom(b, depth, i)
    ensures exists j :: i <= j < |b.successors| && Minimax(b.successors[j], depth - 1) == BestFrom(b, depth, i)
  {
    var m := Minimax(b.successors[i], depth - 1);
    if i == |b.successors| - 1 {
      assert m == BestFrom(b, depth, i);
    } else {
      BestFromIsMaximum(b, depth, i + 1);
      if m >= BestFrom(b, depth, i + 1) {
        assert m == BestFrom(b, depth, i);
      } else {
        var j :| i + 1 <= j < |b.successors| && Minimax(b.successors[j], depth - 1) == BestFrom(b, depth, i + 1);
        assert Minimax(b.successors[j], depth - 1) == BestFrom(b, depth, i);
      }
    }
  }

  /** WorstFrom is the minimum of the children's values from i on. */
  lemma {:induction false} WorstFromIsMinimum(b: Board, depth: int, i: nat)
    requires !IsLeaf(b, depth) && Expandable(b, depth) && i < |b.successors|
    decreases |b.successors| - i
    ensures forall j :: i <= j < |b.successors| ==> WorstFrom(b, depth, i) <= Minimax(b.successors[j], depth - 1)
    ensures exists j :: i <= j < |b.successors| && Minimax(b.successors[j], depth - 1) == WorstFrom(b, depth, i)
  {
    var m := Minimax(b.successors[i], depth - 1);
    if i == |b.successors| - 1 {
      assert m == WorstFrom(b, depth, i);
    } else {
      WorstFromIsMinimum(b, depth, i + 1);
      if m <= WorstFrom(b, depth, i + 1) {
        assert m == WorstFrom(b, depth, i);
      } else {
        var j :| i + 1 <= j < |b.successors| && Minimax(b.successors[j], depth - 1) == WorstFrom(b, depth, i + 1);
        assert Minimax(b.successors[j], depth - 1) == WorstFrom(b, depth, i);
      }
    }
  }

  /** No child before FirstBest reaches the best capped value. */
  lemma {:induction false} FirstBestIsFirst(b: Board, depth: int, beta: int, i: nat)
    requires !IsLeaf(b, depth) && Expandable(b, depth) && i < |b.successors|
    decreases |b.successors| - i
    ensures forall j :: i <= j < FirstBest(b, depth, beta, i) ==>
              Min(Minimax(b.successors[j], depth - 1), beta) < Min(BestFrom(b, depth, i), beta)
  {
    if i < |b.successors| - 1
       && Min(Minimax(b.successors[i], depth - 1), beta) < Min(BestFrom(b, depth, i + 1), beta)
    {
      FirstBestIsFirst(b, depth, beta, i + 1);
    }
  }

  /** No child before FirstWorst reaches the worst floored value. */
  lemma {:induction false} FirstWorstIsFirst(b: Board, depth: int, alpha: int, i: nat)
    requires !IsLeaf(b, depth) && Expandable(b, depth) && i < |b.successors|
    decreases |b.successors| - i
    ensures forall j :: i <= j < FirstWorst(b, depth, alpha, i) ==>
              Max(Minimax(b.successors[j], depth - 1), alpha) > Max(WorstFrom(b, depth, i), alpha)
  {
    if i < |b.successors| - 1
       && Max(Minimax(b.successors[i], depth - 1), alpha) > Max(WorstFrom(b, depth, i + 1), alpha)
    {
      FirstWorstIsFirst(b, depth, alpha, i + 1);
    }
  }

  // ----- alpha-beta computes clamped minimax --------------------------------

  /** With alpha < beta, a leaf returns its minimax value and an expanded
      node returns its minimax value clamped to [alpha, beta].  A White node
      stores a move exactly when its value beats alpha: the first child
      reaching the value (capped at beta); a Black node symmetrically. */
  lemma {:induction false} SearchIsClampedMinimax(b: Board, depth: int, alpha: int, beta: int)
    requires alpha < beta && Expandable(b, depth)
    decreases Measure(depth), 1
    ensures var r := Search(b, depth, alpha, beta);
            && (IsLeaf(b, depth) ==> r.value == Minimax(b, depth))
            && (!IsLeaf(b, depth) ==> r.value == Clamp(Minimax(b, depth), alpha, beta))
            && (!IsLeaf(b, depth) && b.turn == White ==>
                  r.move == if Minimax(b, depth) > alpha then Some(FirstBest(b, depth, beta, 0)) else None)
            && (!IsLeaf(b, depth) && b.turn == Black ==>
                  r.move == if Minimax(b, depth) < beta then Some(FirstWorst(b, depth, alpha, 0)) else None)
  {
    if !IsLeaf(b, depth) {
      if b.turn == White {
        MaxScanIsBest(b, depth, alpha, beta, 0, None);
      } else {
        MinScanIsWorst(b, depth, alpha, beta, 0, None);
      }
    }
  }

  /** What one child's search tells its parent's loop, whatever the child is. */
  lemma ChildInWindow(c: Board, depth: int, alpha: int, beta: int)
    requires alpha < beta && Expandable(c, depth)
    decreases Measure(depth), 2
    ensures var v, m := Search(c, depth, alpha, beta).value, Minimax(c, depth);
            && (m <= alpha ==> v <= alpha)
            && (alpha < m < beta ==> v == m)
            && (beta <= m ==> beta <= v)
  {
    SearchIsClampedMinimax(c, depth, alpha, beta);
  }

  /** What the White loop from child i on is proved to return: alpha if no
      child is left, otherwise the best remaining minimax value clamped to
      [alpha, beta], with the first child reaching it when it beats alpha. */
  function BestScan(b: Board, depth: int, alpha: int, beta: int, i: nat, move: Option<nat>): Scan
    requires !IsLeaf(b, depth) && Expandable(b, depth) && i <= |b.successors|
  {
    if i == |b.successors| then Scan(alpha, move)
    else
      var best := BestFrom(b, depth, i);
      Scan(Min(Max(alpha, best), beta), if best > alpha then Some(FirstBest(b, depth, beta, i)) else move)
  }

  /** The same for the Black loop. */
  function WorstScan(b: Board, depth: int, alpha: int, beta: int, i: nat, move: Option<nat>): Scan
    requires !IsLeaf(b, depth) && Expandable(b, depth) && i <= |b.successors|
  {
    if i == |b.successors| then Scan(beta, move)
    else
      var worst := WorstFrom(b, depth, i);
      Scan(Max(Min(beta, worst), alpha), if worst < beta then Some(FirstWorst(b, depth, alpha, i)) else move)
  }

  lemma {:induction false} MaxScanIsBest(b: Board, depth: int, alpha: int, beta: int, i: nat, move: Option<nat>)
    requires !IsLeaf(b, depth) && Expandable(b, depth)
    requires alpha < beta && i <= |b.successors|
    decreases Measure(depth), 0, |b.successors| - i, 1
    ensures MaxScan(b, depth, alpha, beta, i, move) == BestScan(b, depth, alpha, beta, i, move)
  {
    if i < |b.successors| {
      var v := Search(b.successors[i], depth - 1, alpha, beta).value;
      if v >= beta {
        MaxScanCut(b, depth, alpha, beta, i, move);
      } else if i + 1 == |b.successors| {
        MaxScanLast(b, depth, alpha, beta, i, move);
      } else {
        MaxScanOn(b, depth, alpha, beta, i, move);
      }
    }
  }

  /** Child i reaches beta: the loop cuts off with beta and i as the move. */
  lemma MaxScanCut(b: Board, depth: int, alpha: int, beta: int, i: nat, move: Option<nat>)
    requires !IsLeaf(b, depth) && Expandable(b, depth)
    requires alpha < beta && i < |b.successors|
    requires Search(b.successors[i], depth - 1, alpha, beta).value >= beta
    decreases Measure(depth), 0, |b.successors| - i, 0
    ensures MaxScan(b, depth, alpha, beta, i, move) == BestScan(b, depth, alpha, beta, i, move)
  {
    var m := Minimax(b.successors[i], depth - 1);
    ChildInWindow(b.successors[i], depth - 1, alpha, beta);
    assert beta <= m <= BestFrom(b, depth, i);
    assert FirstBest(b, depth, beta, i) == i;
  }

  /** The last child, below beta. */
  lemma MaxScanLast(b: Board, depth: int, alpha: int, beta: int, i: nat, move: Option<nat>)
    requires !IsLeaf(b, depth) && Expandable(b, depth)
    requires alpha < beta && i + 1 == |b.successors|
    requires Search(b.successors[i], depth - 1, alpha, beta).value < beta
    decreases Measure(depth), 0, |b.successors| - i, 0
    ensures MaxScan(b, depth, alpha, beta, i, move) == BestScan(b, depth, alpha, beta, i, move)
  {
    var v := Search(b.successors[i], depth - 1, alpha, beta).value;
    var m := Minimax(b.successors[i], depth - 1);
    ChildInWindow(b.successors[i], depth - 1, alpha, beta);
    var alpha' := if v > alpha then v else alpha;
    var move' := if v > alpha then Some(i) else move;
    assert MaxScan(b, depth, alpha, beta, i, move) == MaxScan(b, depth, alpha', beta, i + 1, move');
    assert MaxScan(b, depth, alpha', beta, i + 1, move') == Scan(alpha', move');
    assert BestFrom(b, depth, i) == m && FirstBest(b, depth, beta, i) == i;
    if v > alpha {
      assert alpha' == m;
    }
  }

  /** A child below beta with more children after it: the loop goes on with
      the raised alpha. */
  lemma MaxScanOn(b: Board, depth: int, alpha: int, beta: int, i: nat, move: Option<nat>)
    requires !IsLeaf(b, depth) && Expandable(b, depth)
    requires alpha < beta && i + 1 < |b.successors|
    requires Search(b.successors[i], depth - 1, alpha, beta).value < beta
    decreases Measure(depth), 0, |b.successors| - i, 0
    ensures MaxScan(b, depth, alpha, beta, i, move) == BestScan(b, depth, alpha, beta, i, move)
  {
    var v := Search(b.successors[i], depth - 1, alpha, beta).value;
    var m := Minimax(b.successors[i], depth - 1);
    ChildInWindow(b.successors[i], depth - 1, alpha, beta);
    var alpha' := if v > alpha then v else alpha;
    var move' := if v > alpha then Some(i) else move;
    MaxScanStep(b, depth, alpha, beta, i, move, v);
    MaxScanIsBest(b, depth, alpha', beta, i + 1, move');
    var rest := BestFrom(b, depth, i + 1);
    assert BestFrom(b, depth, i) == Max(m, rest);
    if v > alpha {
      assert alpha' == m;
      if rest > m {
        assert FirstBest(b, depth, beta, i) == FirstBest(b, depth, beta, i + 1);
      } else {
        assert FirstBest(b, depth, beta, i) == i;
      }
    } else {
      assert m <= alpha && alpha' == alpha;
      if rest > alpha {
        assert FirstBest(b, depth, beta, i) == FirstBest(b, depth, beta, i + 1);
      }
    }
  }

  lemma {:induction false} MinScanIsWorst(b: Board, depth: int, alpha: int, beta: int, i: nat, move: Option<nat>)
    requires !IsLeaf(b, depth) && Expandable(b, depth)
    requires alpha < beta && i <= |b.successors|
    decreases Measure(depth), 0, |b.successors| - i, 1
    ensures MinScan(b, depth, alpha, beta, i, move) == WorstScan(b, depth, alpha, beta, i, move)
  {
    if i < |b.successors| {
      var v := Search(b.successors[i], depth - 1, alpha, beta).value;
      if v <= alpha {
        MinScanCut(b, depth, alpha, beta, i, move);
      } else if i + 1 == |b.successors| {
        MinScanLast(b, depth, alpha, beta, i, move);
      } else {
        MinScanOn(b, depth, alpha, beta, i, move);
      }
    }
  }

  /** Child i reaches alpha: the loop cuts off with alpha and i as the move. */
  lemma MinScanCut(b: Board, depth: int, alpha: int, beta: int, i: nat, move: Option<nat>)
    requires !IsLeaf(b, depth) && Expandable(b, depth)
    requires alpha < beta && i < |b.successors|
    requires Search(b.successors[i], depth - 1, alpha, beta).value <= alpha
    decreases Measure(depth), 0, |b.successors| - i, 0
    ensures MinScan(b, depth, alpha, beta, i, move) == WorstScan(b, depth, alpha, beta, i, move)
  {
    var m := Minimax(b.successors[i], depth - 1);
    ChildInWindow(b.successors[i], depth - 1, alpha, beta);
    assert WorstFrom(b, depth, i) <= m <= alpha;
    assert FirstWorst(b, depth, alpha, i) == i;
  }

  /** The last child, above alpha. */
  lemma MinScanLast(b: Board, depth: int, alpha: int, beta: int, i: nat, move: Option<nat>)
    requires !IsLeaf(b, depth) && Expandable(b, depth)
    requires alpha < beta && i + 1 == |b.successors|
    requires Search(b.successors[i], depth - 1, alpha, beta).value > alpha
    decreases Measure(depth), 0, |b.successors| - i, 0
    ensures MinScan(b, depth, alpha, beta, i, move) == WorstScan(b, depth, alpha, beta, i, move)
  {
    var v := Search(b.successors[i], depth - 1, alpha, beta).value;
    var m := Minimax(b.successors[i], depth - 1);
    ChildInWindow(b.successors[i], depth - 1, alpha, beta);
    var beta' := if v < beta then v else beta;
    var move' := if v < beta then Some(i) else move;
    assert MinScan(b, depth, alpha, beta, i, move) == MinScan(b, depth, alpha, beta', i + 1, move');
    assert MinScan(b, depth, alpha, beta', i + 1, move') == Scan(beta', move');
    assert WorstFrom(b, depth, i) == m && FirstWorst(b, depth, alpha, i) == i;
    if v < beta {
      assert beta' == m;
    }
  }

  /** A child above alpha with more children after it: the loop goes on
      with the lowered beta. */
  lemma MinScanOn(b: Board, depth: int, alpha: int, beta: int, i: nat, move: Option<nat>)
    requires !IsLeaf(b, depth) && Expandable(b, depth)
    requires alpha < beta && i + 1 < |b.successors|
    requires Search(b.successors[i], depth - 1, alpha, beta).value > alpha
    decreases Measure(depth), 0, |b.successors| - i, 0
    ensures MinScan(b, depth, alpha, beta, i, move) == WorstScan(b, depth, alpha, beta, i, move)
  {
    var v := Search(b.successors[i], depth - 1, alpha, beta).value;
    var m := Minimax(b.successors[i], depth - 1);
    ChildInWindow(b.successors[i], depth - 1, alpha, beta);
    var beta' := if v < beta then v else beta;
    var move' := if v < beta then Some(i) else move;
    MinScanStep(b, depth, alpha, beta, i, move, v);
    MinScanIsWorst(b, depth, alpha, beta', i + 1, move');
    var rest := WorstFrom(b, depth, i + 1);
    assert WorstFrom(b, depth, i) == Min(m, rest);
    if v < beta {
      assert beta' == m;
      if rest < m {
        assert FirstWorst(b, depth, alpha, i) == FirstWorst(b, depth, alpha, i + 1);
      } else {
        assert FirstWorst(b, depth, alpha, i) == i;
      }
    } else {
      assert beta <= m && beta' == beta;
      if rest < beta {
        assert FirstWorst(b, depth, alpha, i) == FirstWorst(b, depth, alpha, i + 1);
      }
    }
  }

  /** k is the first child whose minimax value is the node's. */
  predicate FirstOptimal(b: Board, depth: int, k: nat)
    requires !IsLeaf(b, depth) && Expandable(b, depth)
  {
    && k < |b.successors|
    && Minimax(b.successors[k], depth - 1) == Minimax(b, depth)
    && forall j :: 0 <= j < k ==> Minimax(b.successors[j], depth - 1) != Minimax(b, depth)
  }

  /** At a White root searched from the initial window, the first best
      child is the first child that attains the minimax value. */
  lemma RootBest(b: Board, depth: int)
    requires !IsLeaf(b, depth) && Expandable(b, depth) && b.turn == White
    ensures FirstOptimal(b, depth, FirstBest(b, depth, WindowBound, 0))
  {
    var k := FirstBest(b, depth, WindowBound, 0);
    var best := BestFrom(b, depth, 0);
    assert Minimax(b, depth) == best;
    assert Minimax(b.successors[k], depth - 1) == best;
    FirstBestIsFirst(b, depth, WindowBound, 0);
    forall j | 0 <= j < k
      ensures Minimax(b.successors[j], depth - 1) != best
    {
      assert Min(Minimax(b.successors[j], depth - 1), WindowBound) < Min(best, WindowBound);
    }
  }

  /** The same for a Black root and the first worst child. */
  lemma RootWorst(b: Board, depth: int)
    requires !IsLeaf(b, depth) && Expandable(b, depth) && b.turn == Black
    ensures FirstOptimal(b, depth, FirstWorst(b, depth, -WindowBound, 0))
  {
    var k := FirstWorst(b, depth, -WindowBound, 0);
    var worst := WorstFrom(b, depth, 0);
    assert Minimax(b, depth) == worst;
    assert Minimax(b.successors[k], depth - 1) == worst;
    FirstWorstIsFirst(b, depth, -WindowBound, 0);
    forall j | 0 <= j < k
      ensures Minimax(b.successors[j], depth - 1) != worst
    {
      assert Max(Minimax(b.successors[j], depth - 1), -WindowBound) > Max(worst, -WindowBound);
    }
  }

  /** From the initial window the search returns plain minimax, and at an
      expanded root stores the first child that attains it. */
  lemma AlphaBetaIsMinimax(b: Board, depth: int)
    requires Expandable(b, depth)
    ensures var r := Search(b, depth, -WindowBound, WindowBound);
            && r.value == Minimax(b, depth)
            && (IsLeaf(b, depth) ==> r.move == None)
            && (!IsLeaf(b, depth) ==> r.move.Some? && FirstOptimal(b, depth, r.move.value))
  {
    SearchIsClampedMinimax(b, depth, -WindowBound, WindowBound);
    if !IsLeaf(b, depth) {
      if b.turn == White {
        RootBest(b, depth);
      } else {
        RootWorst(b, depth);
      }
    }
  }

  // ----- the search on states ------------------------------------------------

  /** What _alpha_beta needs of a state: its balance can be read at a leaf,
      and an expanded node still holds its board. */
  predicate Searchable(state: State, depth: int)
    reads state
  {
    state.isTerminal || state.cachedBoard.Some? || (depth <= 0 && state.value.Some?)
  }

  /** The child states of a node, one per successor board, in order: distinct
      objects other than the node, each built from its board. */
  ghost predicate Children(state: State, children: seq<State>) {
    && |children| == |state.origin.successors|
    && (forall k :: 0 <= k < |children| ==>
          && children[k] != state && children[k].origin == state.origin.successors[k]
          && children[k].turn == children[k].origin.turn && children[k].isTerminal == children[k].origin.ended)
    && (forall k, j :: 0 <= k < j < |children| ==> children[k] != children[j])
  }

  /** A child not searched yet: it still holds its board, at the
      board's level, and has no memoised value. */
  ghost predicate Unsearched(child: State)
    reads child`level, child`cachedBoard, child`value
  {
    child.cachedBoard == Some(child.origin) && child.level == child.origin.level && child.value.None?
  }

  /** SearchAlgorithm._alpha_beta: a leaf returns its balance; otherwise the
      node's fresh child states are searched by the loop of its colour. */
  method AlphaBetaWindow(state: State, depth: int, alpha: int, beta: int) returns (result: int, ghost move: Option<nat>)
    requires state.Valid() && Searchable(state, depth)
    modifies state`nextMove, state`value
    decreases Measure(depth), 1
    ensures state.Valid()
    ensures Scan(result, move) == Search(state.origin, depth, alpha, beta)
    ensures !IsLeaf(state.origin, depth) ==> state.value == old(state.value)
    ensures move.None? ==> state.nextMove == old(state.nextMove)
    ensures move.Some? ==>
              && state.nextMove != null && fresh(state.nextMove)
              && state.nextMove.origin == state.origin.successors[move.value]
  {
    if depth <= 0 || state.isTerminal {
      result := state.Balance();
      move := None;
      return;
    }
    var children := state.NextStates();
    ghost var searched;
    if state.turn == White {
      result, move, searched := MaxChildren(state, children, depth, alpha, beta);
    } else {
      result, move, searched := MinChildren(state, children, depth, alpha, beta);
    }
  }

  /** The loop of a White node: a child whose value beats alpha raises it
      and becomes next_move; once alpha reaches beta, beta is returned and
      the children after the current one are never searched. */
  method MaxChildren(state: State, children: seq<State>, depth: int, alpha: int, beta: int)
    returns (result: int, ghost move: Option<nat>, ghost searched: nat)
    requires depth > 0 && Children(state, children)
    requires forall k :: 0 <= k < |children| ==> Unsearched(children[k])
    modifies state`nextMove, children
    decreases Measure(depth), 0
    ensures Scan(result, move) == MaxScan(state.origin, depth, alpha, beta, 0, None)
    ensures move.None? ==> state.nextMove == old(state.nextMove)
    ensures move.Some? ==> move.value < |children| && state.nextMove == children[move.value]
    ensures searched == MaxStop(state.origin, depth, alpha, beta, 0)
    ensures forall k :: searched <= k < |children| ==> unchanged(children[k])
    ensures searched < |children| ==> result == beta
  {
    ghost var b := state.origin;
    move := None;
    var alpha' := alpha;
    var i := 0;
    while i < |children|
      invariant 0 <= i <= |children|
      invariant MaxScan(b, depth, alpha', beta, i, move) == MaxScan(b, depth, alpha, beta, 0, None)
      invariant move.None? ==> state.nextMove == old(state.nextMove)
      invariant move.Some? ==> move.value < i && state.nextMove == children[move.value]
      invariant alpha <= alpha'
      invariant MaxStop(b, depth, alpha', beta, i) == MaxStop(b, depth, alpha, beta, 0)
      invariant forall k :: i <= k < |children| ==> unchanged(children[k])
    {
      assert Unsearched(children[i]);
      var value, _ := AlphaBetaWindow(children[i], depth - 1, alpha', beta);
      MaxTurn(b, depth, alpha, beta, alpha', i, move, value);
      if value > alpha' {
        alpha' := value;
        state.nextMove := children[i];
        move := Some(i);
      }
      if alpha' >= beta {
        return beta, move, i + 1;
      }
      i := i + 1;
    }
    return alpha', move, |children|;
  }

  /** The loop of a Black node: a child whose value is below beta lowers it
      and becomes next_move; once beta reaches alpha, alpha is returned and
      the children after the current one are never searched. */
  method MinChildren(state: State, children: seq<State>, depth: int, alpha: int, beta: int)
    returns (result: int, ghost move: Option<nat>, ghost searched: nat)
    requires depth > 0 && Children(state, children)
    requires forall k :: 0 <= k < |children| ==> Unsearched(children[k])
    modifies state`nextMove, children
    decreases Measure(depth), 0
    ensures Scan(result, move) == MinScan(state.origin, depth, alpha, beta, 0, None)
    ensures move.None? ==> state.nextMove == old(state.nextMove)
    ensures move.Some? ==> move.value < |children| && state.nextMove == children[move.value]
    ensures searched == MinStop(state.origin, depth, alpha, beta, 0)
    ensures forall k :: searched <= k < |children| ==> unchanged(children[k])
    ensures searched < |children| ==> result == alpha
  {
    ghost var b := state.origin;
    move := None;
    var beta' := beta;
    var i := 0;
    while i < |children|
      invariant 0 <= i <= |children|
      invariant MinScan(b, depth, alpha, beta', i, move) == MinScan(b, depth, alpha, beta, 0, None)
      invariant move.None? ==> state.nextMove == old(state.nextMove)
      invariant move.Some? ==> move.value < i && state.nextMove == children[move.value]
      invariant beta' <= beta
      invariant MinStop(b, depth, alpha, beta', i) == MinStop(b, depth, alpha, beta, 0)
      invariant forall k :: i <= k < |children| ==> unchanged(children[k])
    {
      assert Unsearched(children[i]);
      var value, _ := AlphaBetaWindow(children[i], depth - 1, alpha, beta');
      MinTurn(b, depth, alpha, beta, beta', i, move, value);
      if value < beta' {
        beta' := value;
        state.nextMove := children[i];
        move := Some(i);
      }
      if alpha >= beta' {
        return alpha, move, i + 1;
      }
      i := i + 1;
    }
    return beta', move, |children|;
  }

  /** SearchAlgorithm.alpha_beta: the search from the window (-999999, 999999),
      which on a tree whose expanded nodes have children is plain minimax, with
      next_move the first child that attains it. */
  method AlphaBeta(root: State, depth: int) returns (result: int)
    requires root.Valid() && Searchable(root, depth)
    modifies root`nextMove, root`value
    ensures root.Valid()
    ensures result == Search(root.origin, depth, -WindowBound, WindowBound).value
    ensures Search(root.origin, depth, -WindowBound, WindowBound).move.None? ==> root.nextMove == old(root.nextMove)
    ensures Expandable(root.origin, depth) ==> result == Minimax(root.origin, depth)
    ensures Expandable(root.origin, depth) && !IsLeaf(root.origin, depth) ==>
              && root.nextMove != null && fresh(root.nextMove)
              && exists k: nat :: FirstOptimal(root.origin, depth, k) && root.nextMove.origin == root.origin.successors[k]
  {
    ghost var move;
    result, move := AlphaBetaWindow(root, depth, -WindowBound, WindowBound);
    if Expandable(root.origin, depth) {
      AlphaBetaIsMinimax(root.origin, depth);
    }
  }
}
