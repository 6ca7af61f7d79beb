// The two-ply alpha-beta search (minimax) and the move choice of the
// engine (find_best_move).
module Search {
  import opened Board
  import opened Capture
  import opened Legality
  import opened Scoring

  /** What minimax reports as its move: None at a leaf, ['PASS'] when there
      is no good move, or a board cell. */
  datatype Move = NoMove | Pass | Play(at: Pos)

  /** A score or window bound: the finite scores plus float('-inf') and
      float('inf'). */
  datatype Bound = NegInf | Fin(v: real) | PosInf

  predicate Lt(x: Bound, y: Bound) {
    match x
    case NegInf => !y.NegInf?
    case Fin(a) => y.PosInf? || (y.Fin? && a < y.v)
    case PosInf => false
  }

  predicate Le(x: Bound, y: Bound) {
    !Lt(y, x)
  }

  /** Python's max(x, y): y only when it is strictly larger. */
  function Max(x: Bound, y: Bound): (r: Bound)
    ensures Le(x, r) && Le(y, r) && (r == x || r == y)
  {
    if Lt(x, y) then y else x
  }

  /** Python's min(x, y): y only when it is strictly smaller. */
  function Min(x: Bound, y: Bound): (r: Bound)
    ensures Le(r, x) && Le(r, y) && (r == x || r == y)
  {
    if Lt(y, x) then y else x
  }

  /** A score with the move that attains it. */
  datatype Outcome = Outcome(score: Bound, move: Move)

  // ---------------------------------------------------------------------
  // The reference: minimax without pruning.

  /** What the search needs to know about the game: the moves it tries,
      the board a move leads to, and the leaf evaluation. */
  datatype Rules = Rules(
    moves: (Board, Board, Color) -> seq<Pos>,
    play: (Board, Pos, Color) -> Board,
    leaf: (Board, Color) -> real)

  /** The engine's rules: find_good_moves (current board, previous board,
      colour), check_next_board and evaluate_board. */
  ghost function Engine(): Rules {
    Rules(
      (b: Board, prev: Board, c: Color) => GoodMoves(b, prev, c),
      (b: Board, m: Pos, c: Color) => NextBoard(b, m, c),
      (b: Board, c: Color) => Evaluation(b, c))
  }

  /** The value of a node without pruning: at depth 0 the evaluation for the
      node's own colour; with no good move 0 and PASS; otherwise the best
      child for the side to move, ties going to the earlier move. */
  ghost function Search(g: Rules, prev: Board, cur: Board, depth: nat, c: Color, maximizing: bool): Outcome
    decreases depth, 1, 0
  {
    if depth == 0 then Outcome(Fin(g.leaf(cur, c)), NoMove)
    else
      var moves := g.moves(cur, prev, c);
      if moves == [] then Outcome(Fin(0.0), Pass)
      else Best(g, cur, depth, c, maximizing, moves, |moves|)
  }

  /** The unpruned value of the child reached by playing m. */
  ghost function Child(g: Rules, cur: Board, depth: nat, c: Color, maximizing: bool, m: Pos): Bound
    requires depth > 0
    decreases depth, 0, 0
  {
    Search(g, cur, g.play(cur, m, c), depth - 1, Opponent(c), !maximizing).score
  }

  /** The child value, for a board `next` that playing m leads to. */
  lemma ChildValue(g: Rules, cur: Board, depth: nat, c: Color, maximizing: bool, m: Pos, next: Board, o: Color, childMax: bool)
    requires depth > 0 && next == g.play(cur, m, c) && o == 3 - c && childMax == !maximizing
    ensures Child(g, cur, depth, c, maximizing, m) == Search(g, cur, next, depth - 1, o, childMax).score
  {
  }

  /** The running best over the first k moves: a child replaces the best so
      far only when it is strictly better for the side to move. */
  ghost function Best(g: Rules, cur: Board, depth: nat, c: Color, maximizing: bool, moves: seq<Pos>, k: nat): Outcome
    requires depth > 0 && k <= |moves|
    decreases depth, 0, k
  {
    if k == 0 then Outcome(if maximizing then NegInf else PosInf, NoMove)
    else
      var best := Best(g, cur, depth, c, maximizing, moves, k - 1);
      var x := Child(g, cur, depth, c, maximizing, moves[k - 1]);
      if (if maximizing then Lt(best.score, x) else Lt(x, best.score)) then Outcome(x, Play(moves[k - 1]))
      else best
  }

  /** Every node has a finite value. */
  lemma {:induction false} SearchFinite(g: Rules, prev: Board, cur: Board, depth: nat, c: Color, maximizing: bool)
    ensures Search(g, prev, cur, depth, c, maximizing).score.Fin?
    decreases depth, 1, 0
  {
    if depth > 0 {
      var moves := g.moves(cur, prev, c);
      if moves != [] {
        BestFinite(g, cur, depth, c, maximizing, moves, |moves|);
      }
    }
  }

  lemma {:induction false} BestFinite(g: Rules, cur: Board, depth: nat, c: Color, maximizing: bool, moves: seq<Pos>, k: nat)
    requires depth > 0 && 0 < k <= |moves|
    ensures Best(g, cur, depth, c, maximizing, moves, k).score.Fin?
    decreases depth, 0, k
  {
    SearchFinite(g, cur, g.play(cur, moves[k - 1], c), depth - 1, Opponent(c), !maximizing);
    if k > 1 {
      BestFinite(g, cur, depth, c, maximizing, moves, k - 1);
    }
  }

  /** No child among the first k beats the running best for the side to
      move. */
  lemma {:induction false} BestBound(g: Rules, cur: Board, depth: nat, c: Color, maximizing: bool, moves: seq<Pos>, k: nat)
    requires depth > 0 && k <= |moves|
    ensures forall j | 0 <= j < k ::
              if maximizing then Le(Child(g, cur, depth, c, maximizing, moves[j]), Best(g, cur, depth, c, maximizing, moves, k).score)
              else Le(Best(g, cur, depth, c, maximizing, moves, k).score, Child(g, cur, depth, c, maximizing, moves[j]))
    decreases k
  {
    if k > 0 {
      BestBound(g, cur, depth, c, maximizing, moves, k - 1);
    }
  }

  /** The running best over k > 0 moves is attained by one of them, the
      first to attain it: every earlier child is strictly worse. */
  lemma {:induction false} BestArgmax(g: Rules, cur: Board, depth: nat, c: Color, maximizing: bool, moves: seq<Pos>, k: nat)
    requires depth > 0 && 0 < k <= |moves|
    ensures exists i | 0 <= i < k ::
              Best(g, cur, depth, c, maximizing, moves, k).move == Play(moves[i]) &&
              Best(g, cur, depth, c, maximizing, moves, k).score == Child(g, cur, depth, c, maximizing, moves[i]) &&
              forall j | 0 <= j < i ::
                if maximizing then Lt(Child(g, cur, depth, c, maximizing, moves[j]), Best(g, cur, depth, c, maximizing, moves, k).score)
                else Lt(Best(g, cur, depth, c, maximizing, moves, k).score, Child(g, cur, depth, c, maximizing, moves[j]))
    decreases k
  {
    var best := Best(g, cur, depth, c, maximizing, moves, k);
    var prior := Best(g, cur, depth, c, maximizing, moves, k - 1);
    var x := Child(g, cur, depth, c, maximizing, moves[k - 1]);
    if best == prior {
      SearchFinite(g, cur, g.play(cur, moves[0], c), depth - 1, Opponent(c), !maximizing);
      assert k > 1;
      BestArgmax(g, cur, depth, c, maximizing, moves, k - 1);
    } else {
      BestBound(g, cur, depth, c, maximizing, moves, k - 1);
      assert best.move == Play(moves[k - 1]) && best.score == x;
    }
  }

  /** The move of a searched node is a good move when there is one, PASS
      when there is none, and no move at a leaf. */
  lemma SearchMove(g: Rules, prev: Board, cur: Board, depth: nat, c: Color, maximizing: bool)
    ensures depth == 0 ==> Search(g, prev, cur, depth, c, maximizing).move == NoMove
    ensures depth > 0 && g.moves(cur, prev, c) == [] ==> Search(g, prev, cur, depth, c, maximizing).move == Pass
    ensures depth > 0 && g.moves(cur, prev, c) != [] ==>
              Search(g, prev, cur, depth, c, maximizing).move.Play? &&
              Search(g, prev, cur, depth, c, maximizing).move.at in g.moves(cur, prev, c)
  {
    if depth > 0 && g.moves(cur, prev, c) != [] {
      var moves := g.moves(cur, prev, c);
      BestArgmax(g, cur, depth, c, maximizing, moves, |moves|);
    }
  }

  // ---------------------------------------------------------------------
  // The pruned search.

  /** The fail-soft contract of alpha-beta: a value strictly inside the
      window is returned exactly, one at or below alpha comes back at or
      below alpha, one at or above beta at or above beta. */
  predicate FailSoft(alpha: Bound, beta: Bound, v: Bound, r: Bound) {
    (Lt(alpha, v) && Lt(v, beta) ==> r == v) &&
    (Le(v, alpha) ==> Le(r, alpha)) &&
    (Le(beta, v) ==> Le(beta, r))
  }

  /** The state of the maximising loop, against the unpruned best p of the
      children seen so far: either p is at most alpha, alpha is unchanged
      and so is everything returned; or p is above alpha and both the best
      score and alpha have reached it. */
  predicate MaxState(alpha: Bound, p: Bound, maxEval: Bound, a: Bound) {
    (Le(p, alpha) && a == alpha && Le(maxEval, alpha)) ||
    (Lt(alpha, p) && maxEval == p && a == p)
  }

  /** The mirror image for the minimising loop. */
  predicate MinState(beta: Bound, p: Bound, minEval: Bound, b: Bound) {
    (Le(beta, p) && b == beta && Le(beta, minEval)) ||
    (Lt(p, beta) && minEval == p && b == p)
  }

  /** One child of a maximising node: a child value v returned as r under
      the window (a, beta) keeps the loop state, or makes the loop stop only
      when v reaches beta. */
  lemma MaxStep(alpha: Bound, beta: Bound, p: Bound, maxEval: Bound, a: Bound, v: Bound, r: Bound)
    requires Lt(alpha, beta) && Lt(a, beta) && MaxState(alpha, p, maxEval, a)
    requires FailSoft(a, beta, v, r)
    ensures var a' := Max(a, r);
            var maxEval' := if Lt(maxEval, r) then r else maxEval;
            Le(beta, a') ==> Le(beta, v) && Le(beta, maxEval')
    ensures var a' := Max(a, r);
            var maxEval' := if Lt(maxEval, r) then r else maxEval;
            var p' := if Lt(p, v) then v else p;
            Lt(a', beta) ==>
              MaxState(alpha, p', maxEval', a') &&
              (Lt(alpha, p') ==> (Lt(maxEval, r) <==> Lt(p, v)) && (Lt(p, v) || Lt(alpha, p)))
  {
  }

  /** One child of a minimising node, the mirror image of MaxStep. */
  lemma MinStep(alpha: Bound, beta: Bound, p: Bound, minEval: Bound, b: Bound, v: Bound, r: Bound)
    requires Lt(alpha, beta) && Lt(alpha, b) && MinState(beta, p, minEval, b)
    requires FailSoft(alpha, b, v, r)
    ensures var b' := Min(b, r);
            var minEval' := if Lt(r, minEval) then r else minEval;
            Le(b', alpha) ==> Le(v, alpha) && Le(minEval', alpha)
    ensures var b' := Min(b, r);
            var minEval' := if Lt(r, minEval) then r else minEval;
            var p' := if Lt(v, p) then v else p;
            Lt(alpha, b') ==>
              MinState(beta, p', minEval', b') &&
              (Lt(p', beta) ==> (Lt(r, minEval) <==> Lt(v, p)) && (Lt(v, p) || Lt(p, beta)))
  {
  }

  /** The invariant of the maximising loop after i moves: the running
      (maxEval, alpha) pair tracks the unpruned best p of the first i
      children as MaxState says, the window is still open, and the move is
      the unpruned best move whenever p is above the original alpha. */
  ghost predicate MaxLoop(g: Rules, cur: Board, depth: nat, c: Color, moves: seq<Pos>, i: nat,
                          alpha: Bound, beta: Bound, maxEval: Bound, a: Bound, move: Move)
    requires depth > 0 && i <= |moves|
  {
    var p := Best(g, cur, depth, c, true, moves, i);
    !maxEval.PosInf? && (i > 0 ==> maxEval.Fin?) &&
    Lt(a, beta) && MaxState(alpha, p.score, maxEval, a) &&
    (Lt(alpha, p.score) ==> move == p.move)
  }

  /** The mirror image for the minimising loop. */
  ghost predicate MinLoop(g: Rules, cur: Board, depth: nat, c: Color, moves: seq<Pos>, i: nat,
                          alpha: Bound, beta: Bound, minEval: Bound, b: Bound, move: Move)
    requires depth > 0 && i <= |moves|
  {
    var p := Best(g, cur, depth, c, false, moves, i);
    !minEval.NegInf? && (i > 0 ==> minEval.Fin?) &&
    Lt(alpha, b) && MinState(beta, p.score, minEval, b) &&
    (Lt(p.score, beta) ==> move == p.move)
  }

  /** What a node loop returns: a finite score, fail-soft against the
      unpruned best of all the moves, with its move whenever that best lies
      inside the window. */
  ghost predicate NodeResult(g: Rules, cur: Board, depth: nat, c: Color, maximizing: bool, moves: seq<Pos>,
                             alpha: Bound, beta: Bound, r: Bound, move: Move)
    requires depth > 0
  {
    var best := Best(g, cur, depth, c, maximizing, moves, |moves|);
    r.Fin? && FailSoft(alpha, beta, best.score, r) &&
    (Lt(alpha, best.score) && Lt(best.score, beta) ==> move == best.move)
  }

  /** When the maximising loop runs through all the moves, its state is
      the node's result. */
  lemma MaxExit(g: Rules, cur: Board, depth: nat, c: Color, moves: seq<Pos>,
                alpha: Bound, beta: Bound, maxEval: Bound, a: Bound, move: Move)
    requires depth > 0 && moves != [] && Lt(alpha, beta)
    requires MaxLoop(g, cur, depth, c, moves, |moves|, alpha, beta, maxEval, a, move)
    ensures NodeResult(g, cur, depth, c, true, moves, alpha, beta, maxEval, move)
  {
  }

  /** When the minimising loop runs through all the moves, its state is
      the node's result. */
  lemma MinExit(g: Rules, cur: Board, depth: nat, c: Color, moves: seq<Pos>,
                alpha: Bound, beta: Bound, minEval: Bound, b: Bound, move: Move)
    requires depth > 0 && moves != [] && Lt(alpha, beta)
    requires MinLoop(g, cur, depth, c, moves, |moves|, alpha, beta, minEval, b, move)
    ensures NodeResult(g, cur, depth, c, false, moves, alpha, beta, minEval, move)
  {
  }

  /** One iteration of the maximising loop, against the unpruned search:
      the child moves[i] has value v and came back as r under the window
      (a, beta). The updated state (maxEval', a', move') keeps the
      invariant when the loop goes on, and is the node's result when the
      loop stops at the cut-off. */
  lemma MaxIter(g: Rules, cur: Board, depth: nat, c: Color, moves: seq<Pos>, i: nat,
                alpha: Bound, beta: Bound, maxEval: Bound, a: Bound, move: Move, v: Bound, r: Bound,
                maxEval': Bound, a': Bound, move': Move)
    requires depth > 0 && i < |moves| && Lt(alpha, beta) && r.Fin?
    requires MaxLoop(g, cur, depth, c, moves, i, alpha, beta, maxEval, a, move)
    requires v == Child(g, cur, depth, c, true, moves[i]) && FailSoft(a, beta, v, r)
    requires maxEval' == (if Lt(maxEval, r) then r else maxEval) && a' == Max(a, r)
    requires move' == (if Lt(maxEval, r) then Play(moves[i]) else move)
    ensures Lt(a', beta) ==> MaxLoop(g, cur, depth, c, moves, i + 1, alpha, beta, maxEval', a', move')
    ensures Le(beta, a') ==> NodeResult(g, cur, depth, c, true, moves, alpha, beta, maxEval', move')
  {
    MaxStep(alpha, beta, Best(g, cur, depth, c, true, moves, i).score, maxEval, a, v, r);
    if Le(beta, a') {
      BestBound(g, cur, depth, c, true, moves, |moves|);
    }
  }

  /** One iteration of the minimising loop, the mirror image of MaxIter. */
  lemma MinIter(g: Rules, cur: Board, depth: nat, c: Color, moves: seq<Pos>, i: nat,
                alpha: Bound, beta: Bound, minEval: Bound, b: Bound, move: Move, v: Bound, r: Bound,
                minEval': Bound, b': Bound, move': Move)
    requires depth > 0 && i < |moves| && Lt(alpha, beta) && r.Fin?
    requires MinLoop(g, cur, depth, c, moves, i, alpha, beta, minEval, b, move)
    requires v == Child(g, cur, depth, c, false, moves[i]) && FailSoft(alpha, b, v, r)
    requires minEval' == (if Lt(r, minEval) then r else minEval) && b' == Min(b, r)
    requires move' == (if Lt(r, minEval) then Play(moves[i]) else move)
    ensures Lt(alpha, b') ==> MinLoop(g, cur, depth, c, moves, i + 1, alpha, beta, minEval', b', move')
    ensures Le(b', alpha) ==> NodeResult(g, cur, depth, c, false, moves, alpha, beta, minEval', move')
  {
    MinStep(alpha, beta, Best(g, cur, depth, c, false, moves, i).score, minEval, b, v, r);
    if Le(b', alpha) {
      BestBound(g, cur, depth, c, false, moves, |moves|);
    }
  }

  /** minimax. The result is fail-soft with respect to the unpruned value,
      and exact (score and move) whenever that value lies inside the
      window; a leaf and a node without good moves are always exact. */
  method Minimax(prev: Board, cur: Board, depth: nat, alpha: Bound, beta: Bound, c: Color, maximizing: bool)
    returns (score: real, move: Move, ghost value: Bound)
    requires Lt(alpha, beta)
    ensures value == Search(Engine(), prev, cur, depth, c, maximizing).score
    ensures FailSoft(alpha, beta, value, Fin(score))
    ensures FailSoft(alpha, beta, Search(Engine(), prev, cur, depth, c, maximizing).score, Fin(score))
    ensures Lt(alpha, value) && Lt(value, beta) ==> move == Search(Engine(), prev, cur, depth, c, maximizing).move
    ensures !Search(Engine(), prev, cur, depth, c, maximizing).move.Play? ==>
              Fin(score) == value && move == Search(Engine(), prev, cur, depth, c, maximizing).move
    ensures alpha == NegInf && beta == PosInf ==>
              Fin(score) == value && move == Search(Engine(), prev, cur, depth, c, maximizing).move
    decreases depth, 2
  {
    value := Search(Engine(), prev, cur, depth, c, maximizing).score;
    SearchFinite(Engine(), prev, cur, depth, c, maximizing);
    if depth == 0 {
      score := EvaluateBoard(cur, c);
      assert score == Engine().leaf(cur, c);
      move := NoMove;
      return;
    }
    var moves := FindGoodMoves(cur, prev, c);
    assert moves == Engine().moves(cur, prev, c);
    if moves == [] {
      score, move := 0.0, Pass;
      return;
    }
    SearchMove(Engine(), prev, cur, depth, c, maximizing);
    if maximizing {
      score, move := MaxNode(cur, depth, alpha, beta, c, moves);
    } else {
      score, move := MinNode(cur, depth, alpha, beta, c, moves);
    }
  }

  /** One iteration's child of minimax: play m, then search the resulting
      board for the opponent with the window (alpha, beta). */
  method PlayChild(cur: Board, depth: nat, alpha: Bound, beta: Bound, c: Color, maximizing: bool, m: Pos)
    returns (eval: real, ghost v: Bound)
    requires depth > 0 && Lt(alpha, beta)
    ensures v == Child(Engine(), cur, depth, c, maximizing, m)
    ensures FailSoft(alpha, beta, v, Fin(eval))
    decreases depth, 0
  {
    var next := CheckNextBoard(cur, m, c);
    assert next == Engine().play(cur, m, c);
    var childMove;
    eval, childMove, v := Minimax(cur, next, depth - 1, alpha, beta, 3 - c, !maximizing);
    ChildValue(Engine(), cur, depth, c, maximizing, m, next, 3 - c, !maximizing);
  }

  /** The maximising branch of minimax: the loop over the good moves with
      its beta cut-off. */
  method MaxNode(cur: Board, depth: nat, alpha: Bound, beta: Bound, c: Color, moves: seq<Pos>)
    returns (score: real, move: Move)
    requires depth > 0 && moves != [] && Lt(alpha, beta)
    ensures FailSoft(alpha, beta, Best(Engine(), cur, depth, c, true, moves, |moves|).score, Fin(score))
    ensures Lt(alpha, Best(Engine(), cur, depth, c, true, moves, |moves|).score) &&
            Lt(Best(Engine(), cur, depth, c, true, moves, |moves|).score, beta) ==>
              move == Best(Engine(), cur, depth, c, true, moves, |moves|).move
    decreases depth, 1
  {
    var maxEval := NegInf;
    move := NoMove;
    var a := alpha;
    for i := 0 to |moves|
      invariant MaxLoop(Engine(), cur, depth, c, moves, i, alpha, beta, maxEval, a, move)
    {
      var m := moves[i];
      var eval, v := PlayChild(cur, depth, a, beta, c, true, m);
      ghost var maxEval0, a0, move0 := maxEval, a, move;
      if Lt(maxEval, Fin(eval)) {
        maxEval := Fin(eval);
        move := Play(m);
      }
      a := Max(a, Fin(eval));
      MaxIter(Engine(), cur, depth, c, moves, i, alpha, beta, maxEval0, a0, move0, v, Fin(eval), maxEval, a, move);
      if Le(beta, a) {
        break;
      }
    }
    if Lt(a, beta) {
      MaxExit(Engine(), cur, depth, c, moves, alpha, beta, maxEval, a, move);
    }
    score := maxEval.v;
  }

  /** The minimising branch of minimax: the loop over the good moves with
      its alpha cut-off. */
  method MinNode(cur: Board, depth: nat, alpha: Bound, beta: Bound, c: Color, moves: seq<Pos>)
    returns (score: real, move: Move)
    requires depth > 0 && moves != [] && Lt(alpha, beta)
    ensures FailSoft(alpha, beta, Best(Engine(), cur, depth, c, false, moves, |moves|).score, Fin(score))
    ensures Lt(alpha, Best(Engine(), cur, depth, c, false, moves, |moves|).score) &&
            Lt(Best(Engine(), cur, depth, c, false, moves, |moves|).score, beta) ==>
              move == Best(Engine(), cur, depth, c, false, moves, |moves|).move
    decreases depth, 1
  {
    var minEval := PosInf;
    move := NoMove;
    var b := beta;
    for i := 0 to |moves|
      invariant MinLoop(Engine(), cur, depth, c, moves, i, alpha, beta, minEval, b, move)
    {
      var m := moves[i];
      var eval, v := PlayChild(cur, depth, alpha, b, c, false, m);
      ghost var minEval0, b0, move0 := minEval, b, move;
      if Lt(Fin(eval), minEval) {
        minEval := Fin(eval);
        move := Play(m);
      }
      b := Min(b, Fin(eval));
      MinIter(Engine(), cur, depth, c, moves, i, alpha, beta, minEval0, b0, move0, v, Fin(eval), minEval, b, move);
      if Le(b, alpha) {
        break;
      }
    }
    if Lt(alpha, b) {
      MinExit(Engine(), cur, depth, c, moves, alpha, beta, minEval, b, move);
    }
    score := minEval.v;
  }

  /** The centre of the board. */
  const CENTRE := Pos(2, 2)

  /** The four cells next to the centre, in the order find_best_move
      lists them for its random pick. */
  const CENTRE_NEIGHBOURS: seq<Pos> := [Pos(2, 3), Pos(2, 1), Pos(1, 2), Pos(3, 2)]

  /** What find_best_move decides: a move, or the error that its
      random.choice call raises (it is handed four positional arguments). */
  datatype Choice = Chosen(move: Move) | ChoiceError

  /** find_best_move. With 25 good moves (an empty board) colour 1 takes
      the centre; with 24 colour 2 takes the centre if it is a good move;
      otherwise the move of a depth-2 maximising search with the window
      (-inf, +inf), which is the move of the unpruned search. */
  method FindBestMove(prev: Board, cur: Board, c: Color) returns (choice: Choice)
    ensures |GoodMoves(cur, prev, c)| == 25 && c == 1 ==> choice == Chosen(Play(CENTRE))
    ensures |GoodMoves(cur, prev, c)| == 24 && c == 2 ==>
              (choice == Chosen(Play(CENTRE)) <==> CENTRE in GoodMoves(cur, prev, c)) &&
              (choice == ChoiceError <==> CENTRE !in GoodMoves(cur, prev, c))
    ensures !(|GoodMoves(cur, prev, c)| == 25 && c == 1) && !(|GoodMoves(cur, prev, c)| == 24 && c == 2) ==>
              choice == Chosen(Search(Engine(), prev, cur, 2, c, true).move)
    ensures choice.Chosen? && choice.move.Play? ==> choice.move.at in GoodMoves(cur, prev, c)
    ensures choice.Chosen? && !choice.move.Play? ==> choice.move == Pass && GoodMoves(cur, prev, c) == []
  {
    var moves := FindGoodMoves(cur, prev, c);
    if |moves| == 25 && c == 1 {
      GoodMovesFull(cur, prev, c);
      choice := Chosen(Play(CENTRE));
    } else if |moves| == 24 && c == 2 {
      if CENTRE in moves {
        choice := Chosen(Play(CENTRE));
      } else {
        choice := ChoiceError;
      }
    } else {
      var score, move, value := Minimax(prev, cur, 2, NegInf, PosInf, c, true);
      SearchMove(Engine(), prev, cur, 2, c, true);
      assert moves == Engine().moves(cur, prev, c);
      choice := Chosen(move);
    }
  }

  /** find_best_move as evidently intended: where the source's random.choice
      call fails, one of the four cells next to the centre is played. The
      outcome of the random draw is the parameter pick. Every move it
      returns is a good move, or PASS when there is none. */
  method FindBestMoveIntended(prev: Board, cur: Board, c: Color, pick: nat) returns (move: Move)
    ensures |GoodMoves(cur, prev, c)| == 25 && c == 1 ==> move == Play(CENTRE)
    ensures |GoodMoves(cur, prev, c)| == 24 && c == 2 && CENTRE in GoodMoves(cur, prev, c) ==> move == Play(CENTRE)
    ensures |GoodMoves(cur, prev, c)| == 24 && c == 2 && CENTRE !in GoodMoves(cur, prev, c) ==>
              move == Play(CENTRE_NEIGHBOURS[pick % 4]) && Adjacent(CENTRE, move.at)
    ensures !(|GoodMoves(cur, prev, c)| == 25 && c == 1) && !(|GoodMoves(cur, prev, c)| == 24 && c == 2) ==>
              move == Search(Engine(), prev, cur, 2, c, true).move
    ensures move.Play? ==> move.at in GoodMoves(cur, prev, c)
    ensures !move.Play? ==> move == Pass && GoodMoves(cur, prev, c) == []
  {
    var moves := FindGoodMoves(cur, prev, c);
    if |moves| == 25 && c == 1 {
      GoodMovesFull(cur, prev, c);
      move := Play(CENTRE);
    } else if |moves| == 24 && c == 2 {
      if CENTRE in moves {
        move := Play(CENTRE);
      } else {
        move := Play(CENTRE_NEIGHBOURS[pick % 4]);
        GoodMovesAllBut(cur, prev, c, CENTRE);
      }
    } else {
      var score, m, value := Minimax(prev, cur, 2, NegInf, PosInf, c, true);
      SearchMove(Engine(), prev, cur, 2, c, true);
      assert moves == Engine().moves(cur, prev, c);
      move := m;
    }
  }
}
