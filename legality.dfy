// Move generation: the suicide filter (remove_suicide_moves), the
// repetition filter (find_legal_moves) and the move preselection
// (find_good_moves).
module Legality {
  import opened Seqs
  import opened Board
  import opened Groups
  import opened Capture

  /** The test of remove_suicide_moves: after playing at p (with captures),
      the group of p, probed again with check_liberty, has no empty neighbour. */
  ghost predicate Suicide(b: Board, c: Color, p: Pos) {
    LibertiesAt(NextBoard(b, p, c), p, c) == {}
  }

  /** The suicide test as a function value, for the list filters. */
  ghost function SuicideTest(b: Board, c: Color): Pos -> bool {
    p => Suicide(b, c, p)
  }

  /** What remove_suicide_moves returns: the empty cells in row-major order,
      with the suicides it removes taken out. The loop iterates over the list
      it removes from, so the cell right after a removed one is never tested. */
  ghost function AfterSuicideFilter(b: Board, c: Color): seq<Pos> {
    RemoveWhileIterating(SuicideTest(b, c), Scan(b, EMPTY, CELLS))
  }

  /** The filter keeps empty cells in row-major order; every empty cell it
      drops is a suicide (so every empty cell that is not one is kept). */
  lemma SuicideFilterSound(b: Board, c: Color)
    ensures Subseq(AfterSuicideFilter(b, c), Scan(b, EMPTY, CELLS))
    ensures RowMajor(AfterSuicideFilter(b, c)) && Distinct(AfterSuicideFilter(b, c))
    ensures forall q: Pos | At(b, q) == EMPTY && q !in AfterSuicideFilter(b, c) :: Suicide(b, c, q)
    ensures forall q | q in AfterSuicideFilter(b, c) :: At(b, q) == EMPTY
  {
    var empty := Scan(b, EMPTY, CELLS);
    var kept := AfterSuicideFilter(b, c);
    ScanAll(b, EMPTY);
    RemoveWhileIteratingSubseq(SuicideTest(b, c), empty);
    SubseqRowMajor(kept, empty);
    RowMajorDistinct(kept);
    SubseqElems(kept, empty);
    forall q: Pos | At(b, q) == EMPTY && q !in kept ensures Suicide(b, c, q) {
      RemoveWhileIteratingDrops(SuicideTest(b, c), empty, q);
    }
  }

  /** The quirk of the filter: the empty cell that follows a removed one in
      row-major order is kept, even when it is a suicide too. */
  lemma SuicideFilterSkipsNext(b: Board, c: Color, k: int)
    requires 0 <= k < |Scan(b, EMPTY, CELLS)| - 1
    requires Scan(b, EMPTY, CELLS)[k] !in AfterSuicideFilter(b, c)
    ensures Suicide(b, c, Scan(b, EMPTY, CELLS)[k])
    ensures Scan(b, EMPTY, CELLS)[k + 1] in AfterSuicideFilter(b, c)
  {
    var empty := Scan(b, EMPTY, CELLS);
    RemoveWhileIteratingDrops(SuicideTest(b, c), empty, empty[k]);
    RemoveWhileIteratingKeepsNext(SuicideTest(b, c), empty, k);
  }

  /** The test inside remove_suicide_moves' loop: the move at p with its
      captures, then check_liberty of p on the result. */
  method SuicideLiberty(b: Board, c: Color, p: Pos) returns (liberty: seq<Pos>)
    ensures liberty == [] <==> Suicide(b, c, p)
  {
    var next := CheckNextBoard(b, p, c);
    liberty := CheckLiberty(next, p, c);
    if liberty != [] {
      assert liberty[0] in Elems(liberty);
    }
  }

  /** remove_suicide_moves, iterating as Python's list iterator does: an
      index that moves on by one after every element, whether or not that
      element was removed. */
  method RemoveSuicideMoves(b: Board, c: Color) returns (moves: seq<Pos>)
    ensures moves == AfterSuicideFilter(b, c)
  {
    moves := FindEmptyPositions(b);
    ScanDistinct(b, EMPTY);
    ghost var f := SuicideTest(b, c);
    ghost var orig := moves;
    ghost var out: seq<Pos> := [];
    ghost var rest := moves;
    var i := 0;
    while i < |moves|
      invariant moves == out + rest
      invariant i == |out| || (i == |out| + 1 && rest == [])
      invariant RemoveWhileIterating(f, orig) == out + RemoveWhileIterating(f, rest)
      invariant Distinct(moves)
      decreases |moves| - i
    {
      var p := moves[i];
      assert p == rest[0];
      var liberty := SuicideLiberty(b, c, p);
      if liberty == [] && p in moves {
        RemoveWhileIteratingRemoved(f, out, rest);
        RemoveExamined(moves, out, rest);
        moves := RemoveFirst(moves, p);
        if |rest| >= 2 {
          ShiftOne(out, rest, 1);
          out, rest := out + [rest[1]], rest[2..];
        } else {
          rest := [];
        }
      } else {
        RemoveWhileIteratingKept(f, out, rest);
        out, rest := out + [p], rest[1..];
      }
      i := i + 1;
    }
  }

  /** The repetition test of find_legal_moves: the board after the move is
      not the previous board. */
  ghost function NotRepeat(b: Board, prev: Board, c: Color): Pos -> bool {
    m => NextBoard(b, m, c) != prev
  }

  /** What find_legal_moves returns. */
  ghost function LegalMoves(b: Board, prev: Board, c: Color): seq<Pos> {
    Filter(NotRepeat(b, prev, c), AfterSuicideFilter(b, c))
  }

  lemma LegalMovesDistinct(b: Board, prev: Board, c: Color)
    ensures Distinct(LegalMoves(b, prev, c))
    ensures Subseq(LegalMoves(b, prev, c), AfterSuicideFilter(b, c))
  {
    SuicideFilterSound(b, c);
    FilterSpec(NotRepeat(b, prev, c), AfterSuicideFilter(b, c));
    SubseqDistinct(LegalMoves(b, prev, c), AfterSuicideFilter(b, c));
  }

  /** Legal moves are empty cells in row-major order that do not recreate
      the previous board, and every empty cell that is no suicide and does
      not recreate it is among them. */
  lemma LegalMovesProps(b: Board, prev: Board, c: Color)
    ensures Subseq(LegalMoves(b, prev, c), Scan(b, EMPTY, CELLS))
    ensures RowMajor(LegalMoves(b, prev, c)) && Distinct(LegalMoves(b, prev, c))
    ensures forall m | m in LegalMoves(b, prev, c) :: At(b, m) == EMPTY && NextBoard(b, m, c) != prev
    ensures forall m: Pos | At(b, m) == EMPTY && !Suicide(b, c, m) && NextBoard(b, m, c) != prev ::
              m in LegalMoves(b, prev, c)
  {
    var kept := AfterSuicideFilter(b, c);
    var legal := LegalMoves(b, prev, c);
    SuicideFilterSound(b, c);
    FilterSpec(NotRepeat(b, prev, c), kept);
    SubseqTrans(legal, kept, Scan(b, EMPTY, CELLS));
    SubseqRowMajor(legal, kept);
    RowMajorDistinct(legal);
    SubseqElems(legal, kept);
  }

  /** find_legal_moves. */
  method FindLegalMoves(b: Board, prev: Board, c: Color) returns (legal: seq<Pos>)
    ensures legal == LegalMoves(b, prev, c)
  {
    var possible := RemoveSuicideMoves(b, c);
    legal := [];
    for i := 0 to |possible|
      invariant legal == Filter(NotRepeat(b, prev, c), possible[..i])
    {
      var p := possible[i];
      var next := CheckNextBoard(b, p, c);
      FilterPrefix(NotRepeat(b, prev, c), possible, i);
      if next != prev {
        legal := legal + [p];
      }
    }
    assert possible[..|possible|] == possible;
  }

  /** The first preference of find_good_moves: Capturing(b, c)(m) holds
      when the move at m captures at least one stone. */
  ghost function Capturing(b: Board, c: Color): Pos -> bool {
    m => CaptureSet(b, m, c) != {}
  }

  /** The fallback of find_good_moves: the stone placed on the current board
      (without captures) would have at least two liberties. */
  ghost function Roomy(b: Board, c: Color): Pos -> bool {
    m => |LibertiesAt(b, m, c)| >= 2
  }

  /** What find_good_moves returns. */
  ghost function GoodMoves(b: Board, prev: Board, c: Color): seq<Pos> {
    FilterOrElse(Capturing(b, c), Roomy(b, c), LegalMoves(b, prev, c))
  }

  /** Good moves are legal moves, in the same order. */
  lemma GoodMovesOrder(b: Board, prev: Board, c: Color)
    ensures Subseq(GoodMoves(b, prev, c), LegalMoves(b, prev, c))
    ensures Distinct(GoodMoves(b, prev, c))
  {
    var legal := LegalMoves(b, prev, c);
    LegalMovesDistinct(b, prev, c);
    FilterOrElseSpec(Capturing(b, c), Roomy(b, c), legal);
    SubseqDistinct(GoodMoves(b, prev, c), legal);
  }

  /** When some legal move captures, the good moves are exactly the
      capturing legal moves. */
  lemma GoodMovesCapturing(b: Board, prev: Board, c: Color, m0: Pos)
    requires m0 in LegalMoves(b, prev, c) && Capturing(b, c)(m0)
    ensures forall m :: m in GoodMoves(b, prev, c) <==> m in LegalMoves(b, prev, c) && Capturing(b, c)(m)
  {
    FilterOrElseSpec(Capturing(b, c), Roomy(b, c), LegalMoves(b, prev, c));
  }

  /** When no legal move captures, the good moves are exactly the legal
      moves whose stone, placed on the current board, has at least two
      liberties. */
  lemma GoodMovesFallback(b: Board, prev: Board, c: Color)
    requires forall m | m in LegalMoves(b, prev, c) :: CaptureSet(b, m, c) == {}
    ensures forall m :: m in GoodMoves(b, prev, c) <==> m in LegalMoves(b, prev, c) && |LibertiesAt(b, m, c)| >= 2
  {
    FilterOrElseSpec(Capturing(b, c), Roomy(b, c), LegalMoves(b, prev, c));
  }

  /** Twenty-five good moves means the board is empty and every cell is a
      good move (in particular the centre, which find_best_move plays). */
  lemma GoodMovesFull(b: Board, prev: Board, c: Color)
    requires |GoodMoves(b, prev, c)| == CELLS
    ensures forall q: Pos :: At(b, q) == EMPTY && q in GoodMoves(b, prev, c)
  {
    var empty := Scan(b, EMPTY, CELLS);
    GoodMovesOrder(b, prev, c);
    LegalMovesProps(b, prev, c);
    SubseqTrans(GoodMoves(b, prev, c), LegalMoves(b, prev, c), empty);
    ScanFull(b, EMPTY, CELLS);
    SubseqLength(GoodMoves(b, prev, c), empty);
    ScanSpec(b, EMPTY, CELLS);
    forall q: Pos ensures At(b, q) == EMPTY {
      CellAtIndex(q);
    }
  }

  /** Twenty-four good moves that leave out the cell x are every other
      cell. */
  lemma GoodMovesAllBut(b: Board, prev: Board, c: Color, x: Pos)
    requires |GoodMoves(b, prev, c)| == CELLS - 1 && x !in GoodMoves(b, prev, c)
    ensures forall q: Pos | q != x :: q in GoodMoves(b, prev, c)
  {
    GoodMovesOrder(b, prev, c);
    AllButOne(GoodMoves(b, prev, c), x);
  }

  /** The first loop of find_good_moves: the legal moves that capture. */
  method KeepCapturing(b: Board, c: Color, legal: seq<Pos>) returns (good: seq<Pos>)
    ensures good == Filter(Capturing(b, c), legal)
  {
    good := [];
    for i := 0 to |legal|
      invariant good == Filter(Capturing(b, c), legal[..i])
    {
      var m := legal[i];
      var captured := CaptureAfterMove(b, m, c);
      FilterPrefix(Capturing(b, c), legal, i);
      if |captured| >= 1 {
        assert captured[0] in Elems(captured);
        good := good + [m];
      }
    }
    assert legal[..|legal|] == legal;
  }

  /** The second loop of find_good_moves: the legal moves whose stone,
      placed on the current board, has at least two liberties. */
  method KeepRoomy(b: Board, c: Color, legal: seq<Pos>) returns (good: seq<Pos>)
    ensures good == Filter(Roomy(b, c), legal)
  {
    good := [];
    for i := 0 to |legal|
      invariant good == Filter(Roomy(b, c), legal[..i])
    {
      var m := legal[i];
      var liberty := CheckLiberty(b, m, c);
      DistinctCard(liberty);
      FilterPrefix(Roomy(b, c), legal, i);
      if |liberty| >= 2 {
        good := good + [m];
      }
    }
    assert legal[..|legal|] == legal;
  }

  /** find_good_moves. */
  method FindGoodMoves(b: Board, prev: Board, c: Color) returns (good: seq<Pos>)
    ensures good == GoodMoves(b, prev, c)
  {
    var legal := FindLegalMoves(b, prev, c);
    good := KeepCapturing(b, c, legal);
    if good == [] {
      good := KeepRoomy(b, c, legal);
    }
  }
}
