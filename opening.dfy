// The opening. On the empty board, after an empty previous board, every
// cell is a good move for colour 1, so find_best_move plays the centre.
// After that move colour 2 is to move: every other cell is a good reply, so
// there are 24 good moves and the centre is not among them, which reaches the
// centre-neighbour branch of find_best_move.
module Opening {
  import opened Seqs
  import opened Board
  import opened Groups
  import opened Capture
  import opened Legality
  import opened Search

  /** The board before the opening move. */
  const EMPTY_BOARD: Board := seq(5, r => seq(5, c => EMPTY))

  /** The board after colour 1 has played the centre. */
  const OPENING: Board := Place(EMPTY_BOARD, CENTRE, 1)

  lemma OpeningCells()
    ensures forall q: Pos :: At(EMPTY_BOARD, q) == EMPTY
    ensures forall q: Pos :: At(OPENING, q) == if q == CENTRE then 1 else EMPTY
  {
  }

  /** A neighbour of p other than the centre. */
  lemma OffCentreNeighbor(p: Pos) returns (q: Pos)
    ensures Adjacent(p, q) && q != CENTRE
  {
    var ns := Neighbors(p);
    q := if ns[0] != CENTRE then ns[0] else ns[1];
  }

  /** Two distinct neighbours of p, neither of them the centre. */
  lemma TwoOffCentreNeighbors(p: Pos) returns (q1: Pos, q2: Pos)
    ensures Adjacent(p, q1) && Adjacent(p, q2) && q1 != q2
    ensures q1 != CENTRE && q2 != CENTRE
  {
    var ns := Neighbors(p);
    if Adjacent(p, CENTRE) {
      assert 1 <= p.row <= 3 && 1 <= p.col <= 3;
      assert |ns| == 4;
    }
    if ns[0] == CENTRE {
      q1, q2 := ns[1], ns[2];
    } else if ns[1] == CENTRE {
      q1, q2 := ns[0], ns[2];
    } else {
      q1, q2 := ns[0], ns[1];
    }
  }

  /** Whatever colour 2 plays on an empty cell, the centre stone keeps a
      liberty, so nothing is captured. */
  lemma OpeningNoCapture(p: Pos)
    requires p != CENTRE
    ensures CaptureSet(OPENING, p, 2) == {}
  {
    OpeningCells();
    var next := Place(OPENING, p, 2);
    var r := if p != Pos(2, 3) then Pos(2, 3) else Pos(2, 1);
    GroupStart(Place(next, CENTRE, 1), CENTRE, 1);
    LibertiesAtMeaning(next, CENTRE, 1);
    assert r in LibertiesAt(next, CENTRE, 1);
    forall s | s in CaptureSet(OPENING, p, 2) ensures false {
      var g :| g in AllGroups(OPENING, 1) && Dead(next, g, 1) && s in g;
      var s0 :| s0 in Stones(OPENING, 1) && g == Group(OPENING, s0, 1);
      assert s0 == CENTRE;
      GroupStart(OPENING, CENTRE, 1);
    }
  }

  lemma OpeningNoCaptureAll()
    ensures forall p: Pos | p != CENTRE :: CaptureSet(OPENING, p, 2) == {}
  {
    forall p: Pos | p != CENTRE ensures CaptureSet(OPENING, p, 2) == {} {
      OpeningNoCapture(p);
    }
  }

  /** After colour 2 plays p, the board holds the centre stone and p. */
  lemma OpeningNextBoard(p: Pos)
    requires p != CENTRE
    ensures forall q: Pos :: At(NextBoard(OPENING, p, 2), q) ==
              if q == p then 2 else if q == CENTRE then 1 else EMPTY
  {
    OpeningCells();
    OpeningNoCapture(p);
    NextBoardCells(OPENING, p, 2);
  }

  /** No reply of colour 2 is a suicide: the stone always touches an empty
      cell off the centre. */
  lemma OpeningNotSuicide(p: Pos)
    requires p != CENTRE
    ensures !Suicide(OPENING, 2, p)
  {
    var next := NextBoard(OPENING, p, 2);
    OpeningNextBoard(p);
    var q := OffCentreNeighbor(p);
    GroupStart(Place(next, p, 2), p, 2);
    LibertiesAtMeaning(next, p, 2);
    assert q in LibertiesAt(next, p, 2);
  }

  /** No reply recreates the empty board: the centre stone stays. */
  lemma OpeningNotRepeat(p: Pos)
    requires p != CENTRE
    ensures NextBoard(OPENING, p, 2) != EMPTY_BOARD
  {
    OpeningCells();
    OpeningNextBoard(p);
    assert At(NextBoard(OPENING, p, 2), CENTRE) != At(EMPTY_BOARD, CENTRE);
  }

  /** Every reply of colour 2 has at least two liberties. */
  lemma OpeningRoomy(p: Pos)
    requires p != CENTRE
    ensures |LibertiesAt(OPENING, p, 2)| >= 2
  {
    var next := Place(OPENING, p, 2);
    var q1, q2 := TwoOffCentreNeighbors(p);
    assert At(next, q1) == EMPTY && At(next, q2) == EMPTY by {
      OpeningCells();
    }
    GroupStart(next, p, 2);
    LibertiesAtMeaning(OPENING, p, 2);
    assert q1 in LibertiesAt(OPENING, p, 2);
    assert q2 in LibertiesAt(OPENING, p, 2);
    assert |{q1, q2}| == 2;
    SubsetCard({q1, q2}, LibertiesAt(OPENING, p, 2));
  }

  /** Every cell other than the centre is a legal reply. */
  lemma OpeningLegal()
    ensures forall p: Pos :: p in LegalMoves(OPENING, EMPTY_BOARD, 2) <==> p != CENTRE
  {
    OpeningCells();
    LegalMovesProps(OPENING, EMPTY_BOARD, 2);
    forall p: Pos | p != CENTRE ensures p in LegalMoves(OPENING, EMPTY_BOARD, 2) {
      OpeningNotSuicide(p);
      OpeningNotRepeat(p);
    }
  }

  /** No legal reply captures, and every one is roomy, so every one is good. */
  lemma OpeningGood()
    ensures forall p: Pos :: p in GoodMoves(OPENING, EMPTY_BOARD, 2) <==> p != CENTRE
  {
    OpeningLegal();
    OpeningNoCaptureAll();
    GoodMovesFallback(OPENING, EMPTY_BOARD, 2);
    forall p: Pos | p != CENTRE ensures |LibertiesAt(OPENING, p, 2)| >= 2 {
      OpeningRoomy(p);
    }
  }

  /** The good moves of colour 2 after the centre opening are exactly the
      24 cells other than the centre. */
  lemma OpeningMoves()
    ensures forall q: Pos :: q in GoodMoves(OPENING, EMPTY_BOARD, 2) <==> q != CENTRE
    ensures |GoodMoves(OPENING, EMPTY_BOARD, 2)| == CELLS - 1
  {
    var good := GoodMoves(OPENING, EMPTY_BOARD, 2);
    OpeningGood();
    GoodMovesOrder(OPENING, EMPTY_BOARD, 2);
    DistinctCard(good);
    forall p | p in Elems(good) ensures p in AllPositions() - {CENTRE} {
      InAllPositions(p);
    }
    forall p | p in AllPositions() - {CENTRE} ensures p in Elems(good) {
    }
    assert Elems(good) == AllPositions() - {CENTRE};
    InAllPositions(CENTRE);
    AllPositionsCard();
  }

  /** find_best_move as written, for colour 2 after the centre opening: the
      centre-neighbour branch is reached and fails. */
  method OpeningAsWritten() returns (choice: Choice)
    ensures choice == ChoiceError
  {
    OpeningMoves();
    choice := FindBestMove(EMPTY_BOARD, OPENING, 2);
  }

  /** The intended reply in the same position: a good move next to the
      centre stone. */
  method OpeningIntended(pick: nat) returns (move: Move)
    ensures move.Play? && Adjacent(CENTRE, move.at)
    ensures move.at in GoodMoves(OPENING, EMPTY_BOARD, 2)
  {
    OpeningMoves();
    move := FindBestMoveIntended(EMPTY_BOARD, OPENING, 2, pick);
  }

  /** On the empty board colour 1 captures nothing: colour 2 has no group. */
  lemma FirstNoCapture(p: Pos)
    ensures CaptureSet(EMPTY_BOARD, p, 1) == {}
  {
    OpeningCells();
    assert Stones(EMPTY_BOARD, 2) == {};
  }

  /** After colour 1 plays p on the empty board, p is its only stone. */
  lemma FirstNextBoard(p: Pos)
    ensures forall q: Pos :: At(NextBoard(EMPTY_BOARD, p, 1), q) == if q == p then 1 else EMPTY
  {
    OpeningCells();
    FirstNoCapture(p);
    NextBoardCells(EMPTY_BOARD, p, 1);
  }

  /** No first move is a suicide. */
  lemma FirstNotSuicide(p: Pos)
    ensures !Suicide(EMPTY_BOARD, 1, p)
  {
    var next := NextBoard(EMPTY_BOARD, p, 1);
    FirstNextBoard(p);
    var q := Neighbors(p)[0];
    GroupStart(Place(next, p, 1), p, 1);
    LibertiesAtMeaning(next, p, 1);
    assert q in LibertiesAt(next, p, 1);
  }

  /** No first move recreates the empty previous board. */
  lemma FirstNotRepeat(p: Pos)
    ensures NextBoard(EMPTY_BOARD, p, 1) != EMPTY_BOARD
  {
    OpeningCells();
    FirstNextBoard(p);
    assert At(NextBoard(EMPTY_BOARD, p, 1), p) != At(EMPTY_BOARD, p);
  }

  /** Every first move has at least two liberties. */
  lemma FirstRoomy(p: Pos)
    ensures |LibertiesAt(EMPTY_BOARD, p, 1)| >= 2
  {
    var next := Place(EMPTY_BOARD, p, 1);
    var ns := Neighbors(p);
    var q1, q2 := ns[0], ns[1];
    assert At(next, q1) == EMPTY && At(next, q2) == EMPTY by {
      OpeningCells();
    }
    GroupStart(next, p, 1);
    LibertiesAtMeaning(EMPTY_BOARD, p, 1);
    assert q1 in LibertiesAt(EMPTY_BOARD, p, 1);
    assert q2 in LibertiesAt(EMPTY_BOARD, p, 1);
    assert q1 != q2;
    assert |{q1, q2}| == 2;
    SubsetCard({q1, q2}, LibertiesAt(EMPTY_BOARD, p, 1));
  }

  /** On the empty board, with the empty board before it, every cell is a
      good first move for colour 1. */
  lemma FirstGood()
    ensures forall p: Pos :: p in GoodMoves(EMPTY_BOARD, EMPTY_BOARD, 1)
  {
    OpeningCells();
    LegalMovesProps(EMPTY_BOARD, EMPTY_BOARD, 1);
    forall p: Pos ensures p in LegalMoves(EMPTY_BOARD, EMPTY_BOARD, 1) {
      FirstNotSuicide(p);
      FirstNotRepeat(p);
    }
    forall p: Pos ensures CaptureSet(EMPTY_BOARD, p, 1) == {} && |LibertiesAt(EMPTY_BOARD, p, 1)| >= 2 {
      FirstNoCapture(p);
      FirstRoomy(p);
    }
    GoodMovesFallback(EMPTY_BOARD, EMPTY_BOARD, 1);
  }

  /** Colour 1 has all 25 cells as good first moves. */
  lemma FirstMoves()
    ensures |GoodMoves(EMPTY_BOARD, EMPTY_BOARD, 1)| == CELLS
  {
    var good := GoodMoves(EMPTY_BOARD, EMPTY_BOARD, 1);
    FirstGood();
    GoodMovesOrder(EMPTY_BOARD, EMPTY_BOARD, 1);
    DistinctCard(good);
    forall p | p in AllPositions() ensures p in Elems(good) {
    }
    forall p | p in Elems(good) ensures p in AllPositions() {
      InAllPositions(p);
    }
    assert Elems(good) == AllPositions();
    AllPositionsCard();
  }

  /** find_best_move opens on the centre when colour 1 moves first. */
  method FirstMove() returns (choice: Choice)
    ensures choice == Chosen(Play(CENTRE))
  {
    FirstMoves();
    choice := FindBestMove(EMPTY_BOARD, EMPTY_BOARD, 1);
  }
}
